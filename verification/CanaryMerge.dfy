/** Canary reports and their merge: a keep-first union of boundaries with containment flags that
    can be taken over any grouping of the reports. */
module CanaryMerge {
  import opened Common

  datatype Canary = Canary(
    injection: Option<string>, crossed: seq<string>, stageCount: nat, firstBlocked: Option<string>,
    reached: bool, contained: bool)

  /** A report dictionary; None is the empty one. */
  type Report = Option<Canary>

  // ---------- the merge ----------

  function Typed(reports: seq<Report>): (cs: seq<Canary>) {
    if reports == [] then []
    else Typed(reports[..|reports| - 1])
         + if reports[|reports| - 1].Some? then [reports[|reports| - 1].value] else []
  }

  function Boundaries(cs: seq<Canary>): seq<string> {
    if cs == [] then [] else Boundaries(cs[..|cs| - 1]) + cs[|cs| - 1].crossed
  }

  /** The first blocked point that is not empty. */
  function FirstBlocked(cs: seq<Canary>): (point: Option<string>) {
    if cs == [] then None
    else
      var earlier := FirstBlocked(cs[..|cs| - 1]);
      if earlier.Some? then earlier else Truthy(cs[|cs| - 1].firstBlocked)
  }

  function Truthy(s: Option<string>): Option<string> {
    if s.Some? && s.value != "" then s else None
  }

  predicate AnyReached(cs: seq<Canary>) {
    exists i :: 0 <= i < |cs| && cs[i].reached
  }

  predicate AnyContained(cs: seq<Canary>) {
    exists i :: 0 <= i < |cs| && cs[i].contained
  }

  predicate Breach(c: Canary) {
    c.reached && !c.contained
  }

  predicate AnyBreach(cs: seq<Canary>) {
    exists i :: 0 <= i < |cs| && Breach(cs[i])
  }

  function Combine(cs: seq<Canary>): Canary {
    var crossed := Uniq(Boundaries(cs));
    Canary(if crossed == [] then None else Some(crossed[0]), crossed, |crossed|, FirstBlocked(cs),
           AnyReached(cs), AnyContained(cs) && !AnyBreach(cs))
  }

  /** What merging a list of reports means. */
  function Merge(reports: seq<Report>): Report {
    if Typed(reports) == [] then None else Some(Combine(Typed(reports)))
  }

  method MergeCanaryReports(reports: seq<Report>) returns (merged: Report)
    ensures merged == Merge(reports)
  {
    var typed := TypedReports(reports);
    if typed == [] {
      return None;
    }
    var crossed := CrossedBoundaries(typed);
    var firstBlocked: Option<string> := None;
    var reached, contained, breach := false, false, false;
    for i := 0 to |typed|
      invariant firstBlocked == FirstBlocked(typed[..i])
      invariant reached == AnyReached(typed[..i]) && contained == AnyContained(typed[..i]) && breach == AnyBreach(typed[..i])
    {
      assert typed[..i + 1][..i] == typed[..i];
      FlagsSnoc(typed[..i], typed[i]);
      assert typed[..i + 1] == typed[..i] + [typed[i]];
      if firstBlocked.None? { firstBlocked := Truthy(typed[i].firstBlocked); }
      reached, contained, breach := reached || typed[i].reached, contained || typed[i].contained, breach || Breach(typed[i]);
    }
    assert typed[..|typed|] == typed;
    merged := Some(Canary(if crossed == [] then None else Some(crossed[0]), crossed, |crossed|, firstBlocked,
                          reached, contained && !breach));
  }

  method TypedReports(reports: seq<Report>) returns (typed: seq<Canary>)
    ensures typed == Typed(reports)
  {
    typed := [];
    for i := 0 to |reports|
      invariant typed == Typed(reports[..i])
    {
      assert reports[..i + 1][..i] == reports[..i];
      if reports[i].Some? {
        typed := typed + [reports[i].value];
      }
    }
    assert reports[..|reports|] == reports;
  }

  method AddCrossed(crossed: seq<string>, here: seq<string>, ghost before: seq<string>) returns (more: seq<string>)
    requires crossed == Uniq(before)
    ensures more == Uniq(before + here)
  {
    hide Uniq;
    more := crossed;
    assert before + here[..0] == before;
    for j := 0 to |here|
      invariant more == Uniq(before + here[..j])
    {
      UniqSnoc(before + here[..j], here[j]);
      UniqMembers(before + here[..j], here[j]);
      assert before + here[..j + 1] == before + here[..j] + [here[j]];
      if here[j] !in more {
        more := more + [here[j]];
      }
    }
    assert here[..|here|] == here;
  }

  method CrossedBoundaries(typed: seq<Canary>) returns (crossed: seq<string>)
    ensures crossed == Uniq(Boundaries(typed))
  {
    crossed := [];
    for i := 0 to |typed|
      invariant crossed == Uniq(Boundaries(typed[..i]))
    {
      hide Uniq;
      assert typed[..i + 1][..i] == typed[..i];
      crossed := AddCrossed(crossed, typed[i].crossed, Boundaries(typed[..i]));
    }
    assert typed[..|typed|] == typed;
  }

  // ---------- grouping ----------

  lemma FlagsSnoc(cs: seq<Canary>, c: Canary)
    ensures AnyReached(cs + [c]) == (AnyReached(cs) || c.reached)
    ensures AnyContained(cs + [c]) == (AnyContained(cs) || c.contained)
    ensures AnyBreach(cs + [c]) == (AnyBreach(cs) || Breach(c))
  {
    FlagsConcat(cs, [c]);
    assert [c][0] == c;
  }

  lemma FlagsConcat(a: seq<Canary>, b: seq<Canary>)
    ensures AnyReached(a + b) == (AnyReached(a) || AnyReached(b))
    ensures AnyContained(a + b) == (AnyContained(a) || AnyContained(b))
    ensures AnyBreach(a + b) == (AnyBreach(a) || AnyBreach(b))
  {
    var s := a + b;
    assert forall i :: 0 <= i < |a| ==> s[i] == a[i];
    assert forall i :: 0 <= i < |b| ==> s[|a| + i] == b[i];
  }

  lemma {:induction false} TypedConcat(a: seq<Report>, b: seq<Report>)
    ensures Typed(a + b) == Typed(a) + Typed(b)
  {
    if b == [] {
      assert a + b == a;
    } else {
      assert (a + b)[..|a + b| - 1] == a + b[..|b| - 1];
      TypedConcat(a, b[..|b| - 1]);
    }
  }

  lemma {:induction false} BoundariesConcat(a: seq<Canary>, b: seq<Canary>)
    ensures Boundaries(a + b) == Boundaries(a) + Boundaries(b)
  {
    if b == [] {
      assert a + b == a;
    } else {
      assert (a + b)[..|a + b| - 1] == a + b[..|b| - 1];
      BoundariesConcat(a, b[..|b| - 1]);
    }
  }

  lemma FirstBlockedSnoc(cs: seq<Canary>, c: Canary)
    ensures FirstBlocked(cs + [c]) == if FirstBlocked(cs).Some? then FirstBlocked(cs) else Truthy(c.firstBlocked)
  {
    assert (cs + [c])[..|cs|] == cs;
  }

  lemma {:induction false} FirstBlockedTruthy(cs: seq<Canary>)
    ensures Truthy(FirstBlocked(cs)) == FirstBlocked(cs)
  {
    if cs == [] {
    } else {
      FirstBlockedTruthy(cs[..|cs| - 1]);
    }
  }

  lemma {:induction false} FirstBlockedConcat(a: seq<Canary>, b: seq<Canary>)
    ensures FirstBlocked(a + b) == if FirstBlocked(a).Some? then FirstBlocked(a) else FirstBlocked(b)
  {
    if b == [] {
      assert a + b == a;
    } else {
      hide FirstBlocked;
      var init, c := b[..|b| - 1], b[|b| - 1];
      FirstBlockedConcat(a, init);
      FirstBlockedSnoc(a + init, c);
      FirstBlockedSnoc(init, c);
      assert a + b == a + init + [c] && b == init + [c];
    }
  }

  lemma CombinePair(a: Canary, b: Canary)
    ensures Boundaries([a, b]) == a.crossed + b.crossed && Boundaries([a]) == a.crossed
    ensures FirstBlocked([a, b]) == if Truthy(a.firstBlocked).Some? then Truthy(a.firstBlocked) else Truthy(b.firstBlocked)
    ensures FirstBlocked([a]) == Truthy(a.firstBlocked)
  {
    assert [a][..0] == [] && [b][..0] == [];
    assert Boundaries([a]) == a.crossed && Boundaries([b]) == b.crossed;
    BoundariesConcat([a], [b]);
    FirstBlockedSnoc([], a);
    FirstBlockedSnoc([a], b);
    assert [] + [a] == [a] && [a] + [b] == [a, b];
  }

  /** The containment flag survives regrouping although it is not a plain any(): a group that
      contained nothing but reached execution holds a breach. */
  lemma CombineFlags(cs: seq<Canary>)
    requires cs != []
    ensures Breach(Combine(cs)) == AnyBreach(cs)
  {
    if AnyReached(cs) && !AnyContained(cs) {
      var i :| 0 <= i < |cs| && cs[i].reached;
      assert Breach(cs[i]);
    }
    if AnyBreach(cs) {
      var i :| 0 <= i < |cs| && Breach(cs[i]);
      assert cs[i].reached;
    }
  }

  lemma CombineSplit(a: seq<Canary>, b: seq<Canary>)
    requires a != [] && b != []
    ensures Combine(a + b) == Combine([Combine(a), Combine(b)])
  {
    hide Combine;
    var x, y := Combine(a), Combine(b);
    CrossedSplit(a, b);
    BlockedSplit(a, b);
    FlagsSplit(a, b);
    CombineFields(a + b);
    CombineFields([x, y]);
  }

  lemma CombineFields(cs: seq<Canary>)
    ensures var c := Combine(cs);
            && c.crossed == Uniq(Boundaries(cs)) && c.stageCount == |c.crossed| && c.firstBlocked == FirstBlocked(cs)
            && c.injection == (if c.crossed == [] then None else Some(c.crossed[0]))
            && c.reached == AnyReached(cs) && c.contained == (AnyContained(cs) && !AnyBreach(cs))
  {
  }

  lemma CrossedSplit(a: seq<Canary>, b: seq<Canary>)
    ensures Uniq(Boundaries(a + b)) == Uniq(Boundaries([Combine(a), Combine(b)]))
  {
    BoundariesConcat(a, b);
    UniqSplit(Boundaries(a), Boundaries(b));
    CombinePair(Combine(a), Combine(b));
  }

  lemma BlockedSplit(a: seq<Canary>, b: seq<Canary>)
    ensures FirstBlocked(a + b) == FirstBlocked([Combine(a), Combine(b)])
  {
    FirstBlockedConcat(a, b);
    FirstBlockedTruthy(a);
    FirstBlockedTruthy(b);
    CombinePair(Combine(a), Combine(b));
  }

  lemma FlagsSplit(a: seq<Canary>, b: seq<Canary>)
    requires a != [] && b != []
    ensures var two := [Combine(a), Combine(b)];
            && AnyReached(a + b) == AnyReached(two) && AnyBreach(a + b) == AnyBreach(two)
            && (AnyContained(a + b) && !AnyBreach(a + b)) == (AnyContained(two) && !AnyBreach(two))
  {
    hide Uniq, Boundaries, FirstBlocked;
    var x, y := Combine(a), Combine(b);
    FlagsConcat(a, b);
    CombineFlags(a);
    CombineFlags(b);
    FlagsConcat([x], [y]);
    assert [x] + [y] == [x, y];
    FlagsSnoc([], x);
    FlagsSnoc([], y);
    assert [] + [x] == [x] && [] + [y] == [y];
  }

  lemma CombineAgain(a: seq<Canary>)
    requires a != []
    ensures Combine([Combine(a)]) == Combine(a)
  {
    hide *;
    var x := Combine(a);
    CombineFields(a);
    CombineFields([x]);
    CombinePair(x, x);
    UniqNoRepeats(Boundaries(a));
    UniqFixed(x.crossed);
    FirstBlockedTruthy(a);
    FlagsOne(x);
    CombineFlags(a);
    BreachIs(x);
  }

  lemma FlagsOne(c: Canary)
    ensures AnyReached([c]) == c.reached && AnyContained([c]) == c.contained && AnyBreach([c]) == Breach(c)
  {
    assert [c][0] == c;
  }

  lemma BreachIs(c: Canary)
    ensures Breach(c) == (c.reached && !c.contained)
  {
  }

  /** A merged report merges to itself. */
  lemma MergeAgain(a: seq<Report>)
    ensures Merge([Merge(a)]) == Merge(a)
  {
    TypedOne(Merge(a));
    if Typed(a) != [] { CombineAgain(Typed(a)); }
  }

  lemma TypedOne(r: Report)
    ensures Typed([r]) == if r.Some? then [r.value] else []
  {
    assert [r][..0] == [];
  }

  lemma MergeGroups(a: seq<Report>, b: seq<Report>)
    ensures Merge(a + b) == Merge([Merge(a), Merge(b)])
  {
    hide Combine, Typed;
    var x, y := Merge(a), Merge(b);
    TypedConcat(a, b);
    TypedConcat([x], [y]);
    assert [x] + [y] == [x, y];
    TypedOne(x);
    TypedOne(y);
    if Typed(a) != [] && Typed(b) != [] {
      CombineSplit(Typed(a), Typed(b));
      assert [x.value] + [y.value] == [x.value, y.value];
    } else if Typed(a) != [] {
      CombineAgain(Typed(a));
      assert Typed(a) + Typed(b) == Typed(a) && [x.value] + [] == [x.value];
    } else if Typed(b) != [] {
      CombineAgain(Typed(b));
      assert Typed(a) + Typed(b) == Typed(b) && [] + [y.value] == [y.value];
    }
  }

  /** Merging what earlier stages merged with new reports is merging all of them at once. */
  lemma MergeStaged(a: seq<Report>, b: seq<Report>)
    ensures Merge([Merge(a)] + b) == Merge(a + b)
  {
    MergeGroups([Merge(a)], b);
    MergeAgain(a);
    MergeGroups(a, b);
  }

  /** Which reports the merge leaves as they are: exactly those that a merge could have made. */
  predicate Normal(c: Canary) {
    && NoRepeats(c.crossed) && c.stageCount == |c.crossed|
    && c.injection == (if c.crossed == [] then None else Some(c.crossed[0]))
    && c.firstBlocked != Some("")
  }

  lemma MergeOneIff(c: Canary)
    ensures Merge([Some(c)]) == Some(c) <==> Normal(c)
  {
    TypedOne(Some(c));
    CombineFields([c]);
    CombinePair(c, c);
    UniqFixed(c.crossed);
    FlagsSnoc([], c);
    assert [] + [c] == [c];
  }

  // ---------- what a merged report says of its parts ----------

  lemma {:induction false} TypedMembers(reports: seq<Report>, c: Canary)
    ensures c in Typed(reports) <==> Some(c) in reports
  {
    if reports == [] {
    } else {
      var last := |reports| - 1;
      TypedMembers(reports[..last], c);
      assert reports == reports[..last] + [reports[last]];
    }
  }

  lemma {:induction false} BoundariesMembers(cs: seq<Canary>, x: string)
    ensures x in Boundaries(cs) <==> exists c :: c in cs && x in c.crossed
  {
    if cs == [] {
    } else {
      var last := |cs| - 1;
      BoundariesMembers(cs[..last], x);
      assert cs == cs[..last] + [cs[last]];
      if x in Boundaries(cs[..last]) {
        var c :| c in cs[..last] && x in c.crossed;
        assert c in cs;
      }
      if x in cs[last].crossed { assert cs[last] in cs; }
    }
  }

  /** The boundaries of a merge, each once; what was reached, and what was contained everywhere. */
  lemma MergeTells(reports: seq<Report>, x: string)
    ensures Merge(reports).None? <==> forall c: Canary :: Some(c) !in reports
    ensures Merge(reports).Some? ==>
              var m := Merge(reports).value;
              && NoRepeats(m.crossed) && m.stageCount == |m.crossed|
              && m.injection == (if m.crossed == [] then None else Some(m.crossed[0]))
              && (x in m.crossed <==> exists c :: Some(c) in reports && x in c.crossed)
              && (m.reached <==> exists c :: Some(c) in reports && c.reached)
              && (m.contained <==> (exists c :: Some(c) in reports && c.contained)
                                   && forall c :: Some(c) in reports && c.reached ==> c.contained)
  {
    hide Combine, Typed, Uniq, Boundaries, AnyReached, AnyContained, AnyBreach;
    var cs := Typed(reports);
    forall c
      ensures c in cs <==> Some(c) in reports
    {
      TypedMembers(reports, c);
    }
    if cs != [] {
      assert cs[0] in cs;
      CombineFields(cs);
      UniqNoRepeats(Boundaries(cs));
      UniqMembers(Boundaries(cs), x);
      BoundariesMembers(cs, x);
      FlagsMembers(cs);
    }
  }

  lemma FlagsMembers(cs: seq<Canary>)
    ensures AnyReached(cs) <==> exists c :: c in cs && c.reached
    ensures AnyContained(cs) <==> exists c :: c in cs && c.contained
    ensures AnyBreach(cs) <==> exists c :: c in cs && c.reached && !c.contained
  {
    assert forall i :: 0 <= i < |cs| ==> cs[i] in cs;
  }

  /** Merging more reports only adds boundaries at the end, and keeps the first blocked point. */
  lemma MergeGrows(a: seq<Report>, b: seq<Report>)
    requires Merge(a).Some?
    ensures Merge(a + b).Some?
    ensures Merge(a).value.crossed <= Merge(a + b).value.crossed
    ensures Merge(a).value.firstBlocked.Some? ==> Merge(a + b).value.firstBlocked == Merge(a).value.firstBlocked
  {
    hide Combine, Typed, Uniq, Boundaries, FirstBlocked;
    TypedConcat(a, b);
    CombineFields(Typed(a));
    CombineFields(Typed(a + b));
    BoundariesConcat(Typed(a), Typed(b));
    UniqPrefix(Boundaries(Typed(a)), Boundaries(Typed(b)));
    FirstBlockedConcat(Typed(a), Typed(b));
  }

  /** The blocked point of a merge is that of the first report that has one. */
  lemma BlockedFirst(a: seq<Report>, c: Canary)
    requires forall d :: Some(d) in a ==> d.firstBlocked.None? || d.firstBlocked.value == ""
    ensures Merge(a).Some? ==> Merge(a).value.firstBlocked.None?
    ensures Merge(a + [Some(c)]).Some?
    ensures Merge(a + [Some(c)]).value.firstBlocked == if c.firstBlocked == Some("") then None else c.firstBlocked
  {
    hide Combine, Typed, FirstBlocked, Uniq, Boundaries;
    forall d
      ensures d in Typed(a) <==> Some(d) in a
    {
      TypedMembers(a, d);
    }
    TypedConcat(a, [Some(c)]);
    TypedOne(Some(c));
    CombineFields(Typed(a));
    CombineFields(Typed(a) + [c]);
    NoneBlocked(Typed(a));
    FirstBlockedSnoc(Typed(a), c);
  }

  lemma {:induction false} NoneBlocked(cs: seq<Canary>)
    requires forall d :: d in cs ==> Truthy(d.firstBlocked).None?
    ensures FirstBlocked(cs).None?
  {
    if cs == [] {
    } else {
      assert cs[|cs| - 1] in cs;
      NoneBlocked(cs[..|cs| - 1]);
    }
  }
}
