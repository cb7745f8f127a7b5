/** What the narrative policy recommends next, told from the outcomes of the turns so far. */
module NarrativeGuidance {
  import opened Common
  import opened NarrativePolicy

  /** The phases in the order in which a run passes them. */
  const PHASES: seq<Phase> := [Rapport, Legitimacy, Pressure, Ask]

  lemma PhaseAt(phase: Phase)
    ensures phase.Index() < 4 && PHASES[phase.Index()] == phase
    ensures phase.Next() == PHASES[Min(3, phase.Index() + 1)]
  {
  }

  /** The phase of a run: one step for every phase's worth of failures and for every success after
      no failure, along the four phases. */
  lemma PhaseOfRun(p: Policy, os: seq<Outcome>)
    ensures var passed := After(p, os).phase.Index();
            && passed <= 3 && After(p, os).phase == PHASES[passed]
            && passed * p.Limit() + After(p, os).pivots == Failures(os) + p.Limit() * Advances(p, os)
            && (passed < 3 ==> After(p, os).pivots < p.Limit())
  {
    hide After, Failures, Advances;
    PotentialLaw(p, os);
    PhaseAt(After(p, os).phase);
  }

  // ---------- the lists grow ----------

  lemma {:induction false} ListsGrow(p: Policy, os: seq<Outcome>, j: nat, k: nat)
    requires j <= k <= |os|
    ensures After(p, os[..j]).used <= After(p, os[..k]).used
    ensures After(p, os[..j]).successful <= After(p, os[..k]).successful
    ensures After(p, os[..j]).failed <= After(p, os[..k]).failed
    decreases k
  {
    hide After, Played;
    if j < k {
      ListsGrow(p, os, j, k - 1);
      AfterStep(p, os, k - 1);
    }
  }

  /** Of two accepted strategies the one listed first was the first to be accepted. */
  lemma {:induction false} AcceptedInOrder(p: Policy, os: seq<Outcome>, k: nat, i: nat, j: nat) returns (n: nat)
    requires k <= |os| && i < j < |After(p, os[..k]).successful|
    ensures n < k
    ensures var list := After(p, os[..k]).successful;
            PlayedWith(p, os, n, list[i], true) && !PlayedWith(p, os, n, list[j], true)
  {
    hide After, Played, PlayedWith, PlayedBefore;
    var list := After(p, os[..k]).successful;
    if k == 0 {
      StartEmpty(p, os);
    } else {
      var before := After(p, os[..k - 1]).successful;
      ListsGrow(p, os, k - 1, k);
      if j < |before| {
        n := AcceptedInOrder(p, os, k - 1, i, j);
      } else {
        n := k - 1;
        AfterStep(p, os, k - 1);
        ListsTellHistory(p, os, k - 1, list[i]);
        ListsTellHistory(p, os, k - 1, list[j]);
        ListsTellHistory(p, os, k, list[i]);
        assert before[i] == list[i];
      }
    }
  }

  lemma StartEmpty(p: Policy, os: seq<Outcome>)
    ensures After(p, os[..0]) == START
  {
    assert os[..0] == [];
  }

  // ---------- after the first pass ----------

  /** A strategy that was accepted and has never failed. */
  ghost predicate Proven(p: Policy, os: seq<Outcome>, k: nat, s: string)
    requires k <= |os|
  {
    PlayedWith(p, os, k, s, true) && !PlayedWith(p, os, k, s, false)
  }

  ghost predicate AcceptedBefore(p: Policy, os: seq<Outcome>, k: nat, s: string, t: string)
    requires k <= |os|
  {
    exists n :: 0 <= n < k && PlayedWith(p, os, n, s, true) && !PlayedWith(p, os, n, t, true)
  }

  lemma {:induction false} FirstOutsideAt(list: seq<string>, a: seq<string>) returns (i: nat)
    requires FirstOutside(list, a, []).Some?
    ensures i < |list| && FirstOutside(list, a, []) == Some(list[i]) && list[i] !in a
    ensures forall j :: 0 <= j < i ==> list[j] in a
  {
    i := 0;
    if list[0] in a {
      i := FirstOutsideAt(list[1..], a);
      i := i + 1;
    }
  }

  /** Once every listed strategy has been played, the next turn repeats the proven strategy that was
      accepted first, or falls back when no strategy is proven. */
  lemma LaterPass(p: Policy, os: seq<Outcome>, k: nat, t: string)
    requires k <= |os| && forall s :: s in p.Listed() ==> PlayedBefore(p, os, k, s)
    ensures var s := Recommend(p, After(p, os[..k])).strategy;
            && (Proven(p, os, k, t) ==> Proven(p, os, k, s) && (s == t || AcceptedBefore(p, os, k, s, t)))
            && (!Proven(p, os, k, s) ==> s == FALLBACK)
  {
    hide After, Played, PlayedWith, PlayedBefore, Policy.Listed;
    var st := After(p, os[..k]);
    var s := Recommend(p, st).strategy;
    ListsTellHistory(p, os, k, s);
    ListsTellHistory(p, os, k, t);
    var untried := FirstOutside(p.Listed(), st.failed, st.used);
    if untried.Some? {
      ListsTellHistory(p, os, k, untried.value);
      assert false;
    }
    var again := FirstOutside(st.successful, st.failed, []);
    if again.Some? && Proven(p, os, k, t) && s != t {
      var i := FirstOutsideAt(st.successful, st.failed);
      var j :| 0 <= j < |st.successful| && st.successful[j] == t;
      var n := AcceptedInOrder(p, os, k, i, j);
    }
  }

  // ---------- the action ----------

  /** The policy escalates after a success, pivots after a failure if it has a strategy of its own,
      and holds at the start; it warns of exactly the strategies that failed. With nothing left to
      try it holds and warns of none. */
  lemma GuidanceTells(p: Policy, os: seq<Outcome>, s: string)
    ensures var g := Recommend(p, After(p, os));
            && g.action == (if PickStrategy(p, After(p, os)).None? || os == [] then Hold
                            else if os[|os| - 1].score >= 3.0 then Escalate
                            else if g.strategy == FALLBACK then Hold else Pivot)
            && (s in g.avoid <==> PickStrategy(p, After(p, os)).Some? && PlayedWith(p, os, |os|, s, false))
            && (PickStrategy(p, After(p, os)).None? <==>
                  forall t :: t in p.Listed() || PlayedWith(p, os, |os|, t, true) ==> !Playable(p, os, t))
  {
    hide After, PlayedWith, PlayedBefore, FirstOutside;
    var st := After(p, os);
    assert os[..|os|] == os;
    NoStreakIff(p, os);
    ListsTellHistory(p, os, |os|, s);
    forall t
      ensures Playable(p, os, t) <==> (t in p.Listed() && t !in st.failed && t !in st.used)
                                      || (t in st.successful && t !in st.failed)
    {
      ListsTellHistory(p, os, |os|, t);
      if t in st.failed { FailedWasUsed(p, os, t); }
    }
    PickNoneIff(p, st);
  }

  /** A listed strategy that has not been played, or one that is proven. */
  ghost predicate Playable(p: Policy, os: seq<Outcome>, t: string) {
    (t in p.Listed() && !PlayedBefore(p, os, |os|, t)) || Proven(p, os, |os|, t)
  }

  lemma PickNoneIff(p: Policy, st: State)
    ensures PickStrategy(p, st).None? <==>
            (forall t :: t in p.Listed() ==> t in st.failed || t in st.used) && forall t :: t in st.successful ==> t in st.failed
  {
  }

  /** A state counts the turns and keeps the refusal found in the last one. */
  lemma LastRefusal(p: Policy, os: seq<Outcome>)
    ensures After(p, os).turns == |os|
    ensures After(p, os).refusal == if os == [] then None else os[|os| - 1].refusal
  {
    hide Recommend;
    ListsTellHistory(p, os, |os|, "");
    assert os[..|os|] == os;
  }
}
