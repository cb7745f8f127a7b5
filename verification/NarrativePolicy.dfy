/** The narrative adaptation policy: which strategy comes next, how an outcome moves the
    phase, and what every run of the policy keeps. */
module NarrativePolicy {
  import opened Common

  datatype Phase = Rapport | Legitimacy | Pressure | Ask {
    function Next(): Phase {
      match this
      case Rapport => Legitimacy
      case Legitimacy => Pressure
      case Pressure => Ask
      case Ask => Ask
    }

    function Index(): nat {
      match this
      case Rapport => 0
      case Legitimacy => 1
      case Pressure => 2
      case Ask => 3
    }
  }

  datatype State = State(
    phase: Phase, used: seq<string>, successful: seq<string>, failed: seq<string>,
    pivots: nat, consecutiveFailures: nat, refusal: Option<string>, turns: nat)

  const START := State(Rapport, [], [], [], 0, 0, None, 0)

  datatype Action = Hold | Escalate | Pivot

  datatype Guidance = Guidance(strategy: string, action: Action, avoid: seq<string>)

  const FALLBACK := "establish rapport and escalate gradually"

  datatype Policy = Policy(strategies: seq<string>, maxPivots: int) {
    /** The strategies the policy works through; an empty list means the fallback alone. */
    function Listed(): (listed: seq<string>)
      ensures listed != []
    {
      if strategies == [] then [FALLBACK] else strategies
    }

    /** The failures that use up a phase: a limit below one acts as one. */
    function Limit(): nat {
      Max(1, maxPivots)
    }
  }

  /** What one turn brought: its score and the refusal text found in the response. */
  datatype Outcome = Outcome(score: real, refusal: Option<string>)

  predicate Accepted(score: real) { score >= 3.0 }

  function Including(list: seq<string>, s: string): seq<string> {
    if s in list then list else list + [s]
  }

  function Update(p: Policy, st: State, o: Outcome, strategy: string): State {
    var used := Including(st.used, strategy);
    if Accepted(o.score) then
      State(if o.score >= 3.5 && st.consecutiveFailures == 0 then st.phase.Next() else st.phase,
            used, Including(st.successful, strategy), st.failed, st.pivots, 0, o.refusal, st.turns + 1)
    else
      var exhausted := st.pivots + 1 >= p.maxPivots && st.phase != Ask;
      State(if exhausted then st.phase.Next() else st.phase,
            used, st.successful, Including(st.failed, strategy),
            if exhausted then 0 else st.pivots + 1, st.consecutiveFailures + 1, o.refusal, st.turns + 1)
  }

  /** The first listed strategy that is in neither list. */
  function FirstOutside(list: seq<string>, a: seq<string>, b: seq<string>): (s: Option<string>)
    ensures s.Some? ==> s.value in list && s.value !in a && s.value !in b
    ensures s.None? ==> forall k :: 0 <= k < |list| ==> list[k] in a || list[k] in b
  {
    if list == [] then None
    else if list[0] !in a && list[0] !in b then Some(list[0])
    else FirstOutside(list[1..], a, b)
  }

  function PickStrategy(p: Policy, st: State): Option<string> {
    var untried := FirstOutside(p.Listed(), st.failed, st.used);
    if untried.Some? then untried else FirstOutside(st.successful, st.failed, [])
  }

  function Recommend(p: Policy, st: State): Guidance {
    match PickStrategy(p, st)
    case None => Guidance(FALLBACK, Hold, [])
    case Some(s) =>
      var action := if st.consecutiveFailures == 0 && st.turns > 0 then Escalate
                    else if st.consecutiveFailures > 0 && s != FALLBACK then Pivot else Hold;
      Guidance(s, action, st.failed)
  }

  // ---------- runs ----------

  /** The state after a sequence of turns, each played with the recommended strategy. */
  function After(p: Policy, os: seq<Outcome>): State {
    if os == [] then START
    else
      var st := After(p, os[..|os| - 1]);
      Update(p, st, os[|os| - 1], Recommend(p, st).strategy)
  }

  /** The strategy played in turn k. */
  function Played(p: Policy, os: seq<Outcome>, k: nat): string
    requires k < |os|
  {
    Recommend(p, After(p, os[..k])).strategy
  }

  lemma AfterStep(p: Policy, os: seq<Outcome>, k: nat)
    requires k < |os|
    ensures After(p, os[..k + 1]) == Update(p, After(p, os[..k]), os[k], Played(p, os, k))
  {
    assert os[..k + 1][..k] == os[..k];
  }

  function Failures(os: seq<Outcome>): nat {
    if os == [] then 0 else Failures(os[..|os| - 1]) + if Accepted(os[|os| - 1].score) then 0 else 1
  }

  /** The counter of consecutive failures is the length of the longest run of failures at the end. */
  lemma {:induction false} FailureStreak(p: Policy, os: seq<Outcome>)
    ensures var n := After(p, os).consecutiveFailures;
            && n <= |os| && (forall k :: |os| - n <= k < |os| ==> os[k].score < 3.0)
            && (n < |os| ==> os[|os| - n - 1].score >= 3.0)
  {
    hide Recommend, Including;
    if os == [] {
    } else {
      FailureStreak(p, os[..|os| - 1]);
    }
  }

  lemma NoStreakIff(p: Policy, os: seq<Outcome>)
    ensures After(p, os).consecutiveFailures == 0 <==> os == [] || os[|os| - 1].score >= 3.0
  {
    hide After;
    FailureStreak(p, os);
    if os != [] && After(p, os).consecutiveFailures > 0 { assert os[|os| - 1].score < 3.0; }
  }

  /** The last turn is a success that no failure came right before, and it was played before the
      last phase. */
  predicate Moves(p: Policy, os: seq<Outcome>)
    requires os != []
  {
    var n := |os| - 1;
    os[n].score >= 3.5 && (n > 0 ==> os[n - 1].score >= 3.0) && After(p, os[..n]).phase != Ask
  }

  /** The turns whose success moved the phase. */
  function Advances(p: Policy, os: seq<Outcome>): nat {
    if os == [] then 0 else Advances(p, os[..|os| - 1]) + if Moves(p, os) then 1 else 0
  }

  /** What one turn does to the phase, told from the outcomes: a success of at least 3.5 moves it
      unless the turn before it failed, no other success moves it, and a failure moves it exactly
      when it uses up the phase. */
  lemma PhaseStep(p: Policy, os: seq<Outcome>, k: nat)
    requires k < |os|
    ensures var before, after := After(p, os[..k]), After(p, os[..k + 1]);
            && (os[k].score >= 3.0 ==>
                  && after.pivots == before.pivots
                  && after.phase == if os[k].score >= 3.5 && (k > 0 ==> os[k - 1].score >= 3.0)
                                    then before.phase.Next() else before.phase)
            && (os[k].score < 3.0 ==>
                  var used := before.phase != Ask && before.pivots + 1 >= p.maxPivots;
                  && after.phase == (if used then before.phase.Next() else before.phase)
                  && after.pivots == if used then 0 else before.pivots + 1)
  {
    hide After, Recommend, Including;
    AfterStep(p, os, k);
    NoStreakIff(p, os[..k]);
  }

  /** The potential of a run: phases passed, counted in failures, plus the failures in the
      current phase. It grows by one with every failure and by a whole phase with every
      advance, and nothing else moves it. */
  lemma {:induction false} PotentialLaw(p: Policy, os: seq<Outcome>)
    ensures var st := After(p, os);
            && st.phase.Index() * p.Limit() + st.pivots == Failures(os) + p.Limit() * Advances(p, os)
            && (st.phase != Ask ==> st.pivots < p.Limit())
  {
    hide After, Advances, Failures;
    PotentialFold(p, os);
  }

  lemma {:induction false} PotentialFold(p: Policy, os: seq<Outcome>)
    ensures Potential(p, After(p, os)) == Failures(os) + p.Limit() * Advances(p, os)
    ensures After(p, os).phase != Ask ==> After(p, os).pivots < p.Limit()
  {
    hide *;
    if os == [] {
      PotentialStart(p);
    } else {
      var before, o := os[..|os| - 1], os[|os| - 1];
      var st := After(p, before);
      PotentialFold(p, before);
      LastTurn(p, os);
      PotentialStep(p, st, o, Recommend(p, st).strategy);
      OneMore(p.Limit(), Advances(p, before));
    }
  }

  lemma PotentialStart(p: Policy)
    ensures Potential(p, After(p, [])) == Failures([]) + p.Limit() * Advances(p, [])
    ensures After(p, []).pivots < p.Limit()
  {
  }

  /** What the last turn adds to each count. */
  lemma LastTurn(p: Policy, os: seq<Outcome>)
    requires os != []
    ensures var before, o := os[..|os| - 1], os[|os| - 1];
            var st := After(p, before);
            && After(p, os) == Update(p, st, o, Recommend(p, st).strategy)
            && (Moves(p, os) <==> o.score >= 3.5 && st.consecutiveFailures == 0 && st.phase != Ask)
            && (Moves(p, os) ==> Accepted(o.score))
            && Failures(os) == Failures(before) + (if Accepted(o.score) then 0 else 1)
            && Advances(p, os) == Advances(p, before) + (if Moves(p, os) then 1 else 0)
  {
    hide Update, Recommend;
    NoStreakIff(p, os[..|os| - 1]);
  }

  function Potential(p: Policy, st: State): int {
    st.phase.Index() * p.Limit() + st.pivots
  }

  /** What one turn does to the potential. */
  lemma PotentialStep(p: Policy, st: State, o: Outcome, strategy: string)
    requires st.phase != Ask ==> st.pivots < p.Limit()
    ensures var now := Update(p, st, o, strategy);
            && (now.phase != Ask ==> now.pivots < p.Limit())
            && Potential(p, now) == Potential(p, st) +
                 if !Accepted(o.score) then 1
                 else if o.score >= 3.5 && st.consecutiveFailures == 0 && st.phase != Ask then p.Limit() else 0
  {
    hide Including;
    match st.phase
    case Rapport =>
    case Legitimacy =>
    case Pressure =>
    case Ask =>
  }

  lemma OneMore(m: nat, a: nat)
    ensures m * (a + 1) == m * a + m && m * (a + 0) == m * a
  {
  }

  lemma BeforeAsk(index: nat, pivots: nat, limit: nat)
    requires index <= 2 && pivots < limit
    ensures index * limit + pivots < 3 * limit
  {
    assert index * limit <= 2 * limit;
  }

  /** Three phases' worth of failures force the ask, whatever the other turns brought. */
  lemma FailuresForceAsk(p: Policy, os: seq<Outcome>)
    requires Failures(os) >= 3 * p.Limit()
    ensures After(p, os).phase == Ask
  {
    hide After, Failures, Advances;
    PotentialLaw(p, os);
    var st := After(p, os);
    assert p.Limit() * Advances(p, os) >= 0;
    if st.phase != Ask { BeforeAsk(st.phase.Index(), st.pivots, p.Limit()); }
  }

  /** The phase never regresses and moves one step at a time. */
  lemma {:induction false} PhaseNeverRegresses(p: Policy, os: seq<Outcome>, j: nat, k: nat)
    requires j <= k <= |os|
    ensures After(p, os[..j]).phase.Index() <= After(p, os[..k]).phase.Index() <= After(p, os[..j]).phase.Index() + (k - j)
    decreases k
  {
    hide After, Recommend;
    if j < k {
      PhaseNeverRegresses(p, os, j, k - 1);
      AfterStep(p, os, k - 1);
    }
  }

  // ---------- the lists tell the history ----------

  ghost predicate PlayedBefore(p: Policy, os: seq<Outcome>, n: nat, s: string)
    requires n <= |os|
  {
    exists k :: 0 <= k < n && Played(p, os, k) == s
  }

  ghost predicate PlayedWith(p: Policy, os: seq<Outcome>, n: nat, s: string, accepted: bool)
    requires n <= |os|
  {
    exists k :: 0 <= k < n && Played(p, os, k) == s && Accepted(os[k].score) == accepted
  }

  /** The lists of a state tell whether s was played, accepted and failed so far. */
  ghost predicate ListsTell(p: Policy, os: seq<Outcome>, n: nat, s: string, st: State)
    requires n <= |os|
  {
    && (s in st.used <==> PlayedBefore(p, os, n, s))
    && (s in st.successful <==> PlayedWith(p, os, n, s, true))
    && (s in st.failed <==> PlayedWith(p, os, n, s, false))
    && NoRepeats(st.used) && NoRepeats(st.successful) && NoRepeats(st.failed) && st.turns == n
  }

  /** After n turns the three lists hold, without repeats, exactly the strategies played, those
      accepted at least once, and those that failed at least once. */
  lemma {:induction false} ListsTellHistory(p: Policy, os: seq<Outcome>, n: nat, s: string)
    requires n <= |os|
    ensures ListsTell(p, os, n, s, After(p, os[..n]))
  {
    hide *;
    if n == 0 {
      ListsStart(p, os, s);
    } else {
      ListsTellHistory(p, os, n - 1, s);
      AfterStep(p, os, n - 1);
      ListsStep(p, os, n - 1, s, After(p, os[..n - 1]));
    }
  }

  lemma ListsStart(p: Policy, os: seq<Outcome>, s: string)
    ensures ListsTell(p, os, 0, s, After(p, os[..0]))
  {
    assert os[..0] == [];
  }

  lemma ListsStep(p: Policy, os: seq<Outcome>, n: nat, s: string, st: State)
    requires n < |os| && ListsTell(p, os, n, s, st)
    ensures ListsTell(p, os, n + 1, s, Update(p, st, os[n], Played(p, os, n)))
  {
    hide Played, Including, PlayedBefore, PlayedWith, NoRepeats;
    var now := Played(p, os, n);
    HistoryStep(p, os, n, s);
    IncludingMembers(st.used, now, s);
    IncludingMembers(st.successful, now, s);
    IncludingMembers(st.failed, now, s);
  }

  lemma IncludingMembers(list: seq<string>, now: string, s: string)
    ensures s in Including(list, now) <==> s in list || s == now
    ensures NoRepeats(list) ==> NoRepeats(Including(list, now))
  {
  }

  lemma HistoryStep(p: Policy, os: seq<Outcome>, n: nat, s: string)
    requires n < |os|
    ensures PlayedBefore(p, os, n + 1, s) <==> PlayedBefore(p, os, n, s) || Played(p, os, n) == s
    ensures forall a :: PlayedWith(p, os, n + 1, s, a) <==>
              PlayedWith(p, os, n, s, a) || (Played(p, os, n) == s && Accepted(os[n].score) == a)
  {
    hide Played, Accepted;
    forall a
      ensures PlayedWith(p, os, n + 1, s, a) <==>
              PlayedWith(p, os, n, s, a) || (Played(p, os, n) == s && Accepted(os[n].score) == a)
    {
      if PlayedWith(p, os, n + 1, s, a) {
        var k :| 0 <= k < n + 1 && Played(p, os, k) == s && Accepted(os[k].score) == a;
      }
      if PlayedWith(p, os, n, s, a) {
        var k :| 0 <= k < n && Played(p, os, k) == s && Accepted(os[k].score) == a;
        assert 0 <= k < n + 1;
      }
    }
    if PlayedBefore(p, os, n, s) {
      var k :| 0 <= k < n && Played(p, os, k) == s;
      assert 0 <= k < n + 1;
    }
    if PlayedBefore(p, os, n + 1, s) {
      var k :| 0 <= k < n + 1 && Played(p, os, k) == s;
    }
  }

  /** Every strategy but the fallback fails at most once. */
  lemma FailsAtMostOnce(p: Policy, os: seq<Outcome>, j: nat, k: nat)
    requires j < k < |os| && !Accepted(os[j].score) && Played(p, os, j) == Played(p, os, k)
    ensures Played(p, os, k) == FALLBACK
  {
    var s := Played(p, os, j);
    assert PlayedWith(p, os, k, s, false);
    ListsTellHistory(p, os, k, s);
  }

  /** A strategy is repeated only after every listed strategy has been played. */
  lemma AllTriedBeforeRepeat(p: Policy, os: seq<Outcome>, j: nat, k: nat, s: string)
    requires j < k < |os| && Played(p, os, j) == Played(p, os, k) && s in p.Listed()
    ensures PlayedBefore(p, os, k, s)
  {
    var st := After(p, os[..k]);
    ListsTellHistory(p, os, k, s);
    assert PlayedBefore(p, os, k, Played(p, os, k));
    ListsTellHistory(p, os, k, Played(p, os, k));
    if PlayedWith(p, os, k, s, false) {
      var i :| 0 <= i < k && Played(p, os, i) == s && Accepted(os[i].score) == false;
    }
  }

  // ---------- the first pass ----------

  lemma {:induction false} FirstOutsideSkips(list: seq<string>, n: nat, a: seq<string>, b: seq<string>)
    requires n <= |list| && forall k :: 0 <= k < n ==> list[k] in a || list[k] in b
    ensures FirstOutside(list, a, b) == FirstOutside(list[n..], a, b)
  {
    if n == 0 {
    } else {
      FirstOutsideSkips(list[1..], n - 1, a, b);
      assert list[1..][n - 1..] == list[n..];
    }
  }

  /** Where the k-th distinct strategy first appears in the list. */
  lemma {:induction false} DistinctPosition(list: seq<string>, k: nat) returns (i: nat)
    requires k < |Uniq(list)|
    ensures i < |list| && list[i] == Uniq(list)[k] && Uniq(list[..i]) == Uniq(list)[..k]
  {
    var front := list[..|list| - 1];
    if k < |Uniq(front)| {
      i := DistinctPosition(front, k);
      assert front[..i] == list[..i];
    } else {
      i := |list| - 1;
      assert Uniq(list)[..k] == Uniq(front);
    }
  }

  /** With the first n distinct strategies used, the next pick is the (n+1)-th. */
  lemma NextUntried(list: seq<string>, n: nat, failed: seq<string>, used: seq<string>)
    requires n < |Uniq(list)| && used == Uniq(list)[..n]
    requires forall s :: s in failed ==> s in used
    ensures FirstOutside(list, failed, used) == Some(Uniq(list)[n])
  {
    hide Uniq;
    var i := DistinctPosition(list, n);
    forall k | 0 <= k < i
      ensures list[k] in used
    {
      UniqMembers(list[..i], list[k]);
      assert list[..i][k] == list[k];
    }
    UniqNoRepeats(list);
    FirstOutsideSkips(list, i, failed, used);
  }

  /** The first turns play the distinct listed strategies in their listed order, whatever the
      outcomes. */
  lemma {:induction false} FirstPass(p: Policy, os: seq<Outcome>, n: nat)
    requires n <= |os| && n <= |Uniq(p.Listed())|
    ensures After(p, os[..n]).used == Uniq(p.Listed())[..n]
    ensures n < |os| && n < |Uniq(p.Listed())| ==> Played(p, os, n) == Uniq(p.Listed())[n]
  {
    if n == 0 {
      assert os[..0] == [];
    } else {
      hide *;
      FirstPass(p, os, n - 1);
      FirstPassUsed(p, os, n - 1);
    }
    if n < |os| && n < |Uniq(p.Listed())| { FirstPassNext(p, os, n); }
  }

  lemma FirstPassUsed(p: Policy, os: seq<Outcome>, n: nat)
    requires n < |os| && n < |Uniq(p.Listed())|
    requires After(p, os[..n]).used == Uniq(p.Listed())[..n] && Played(p, os, n) == Uniq(p.Listed())[n]
    ensures After(p, os[..n + 1]).used == Uniq(p.Listed())[..n + 1]
  {
    hide After, Recommend, Uniq, Played, Policy.Listed;
    var all := Uniq(p.Listed());
    AfterStep(p, os, n);
    UniqNoRepeats(p.Listed());
    assert all[n] !in all[..n];
    assert all[..n + 1] == all[..n] + [all[n]];
  }

  lemma FirstPassNext(p: Policy, os: seq<Outcome>, n: nat)
    requires n < |os| && n < |Uniq(p.Listed())|
    requires After(p, os[..n]).used == Uniq(p.Listed())[..n]
    ensures Played(p, os, n) == Uniq(p.Listed())[n]
  {
    hide After;
    var st := After(p, os[..n]);
    forall s | s in st.failed
      ensures s in st.used
    {
      FailedWasUsed(p, os[..n], s);
    }
    NextUntried(p.Listed(), n, st.failed, st.used);
  }

  lemma {:induction false} FailedWasUsed(p: Policy, os: seq<Outcome>, s: string)
    requires s in After(p, os).failed
    ensures s in After(p, os).used
  {
    if os == [] {
    } else {
      var before := os[..|os| - 1];
      if s in After(p, before).failed { FailedWasUsed(p, before, s); }
    }
  }
}
