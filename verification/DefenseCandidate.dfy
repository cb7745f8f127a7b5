/** Rendering a defense prompt candidate: the assignments of the edited symbols are replaced
    back to front by splicing the list of lines, and the result meets the surface check. */
module DefenseCandidate {
  import opened Common
  import opened MemoryText
  import opened DefenseValidator

  /** Lines start..end, counted from 1, become the lines of `text`. */
  datatype Replacement = Replacement(start: nat, end: nat, text: string)

  /** The order of (start, end, text) tuples. */
  predicate Below(a: Replacement, b: Replacement) {
    a.start < b.start || (a.start == b.start && (a.end < b.end || (a.end == b.end && TextBelow(a.text, b.text))))
  }

  function Insert(r: Replacement, rs: seq<Replacement>): seq<Replacement> {
    if rs == [] || Below(rs[0], r) then [r] + rs else [rs[0]] + Insert(r, rs[1..])
  }

  /** sorted(replacements, reverse=True) */
  function SortDown(rs: seq<Replacement>): seq<Replacement> {
    if rs == [] then [] else Insert(rs[0], SortDown(rs[1..]))
  }

  /** lines[start - 1 : end] = text.splitlines(), with the bounds clamped as a slice clamps them. */
  function Splice(lines: seq<string>, r: Replacement): seq<string> {
    var from := Min(Max(r.start - 1, 0), |lines|);
    var to := Max(from, Min(r.end, |lines|));
    lines[..from] + SplitLines(r.text) + lines[to..]
  }

  function SpliceAll(lines: seq<string>, rs: seq<Replacement>): seq<string>
    decreases |rs|
  {
    if rs == [] then lines else SpliceAll(Splice(lines, rs[0]), rs[1..])
  }

  /** Disjoint non-empty ranges within from + 1..n, in the order of the file. */
  predicate Ordered(rs: seq<Replacement>, from: nat, n: nat) {
    if rs == [] then from <= n
    else from < rs[0].start <= rs[0].end <= n && Ordered(rs[1..], rs[0].end, n)
  }

  /** The one-pass replacement: copy up to each range, then its text, then go on behind it. */
  function Forward(lines: seq<string>, rs: seq<Replacement>, from: nat): seq<string>
    requires Ordered(rs, from, |lines|)
  {
    if rs == [] then lines[from..]
    else lines[from..rs[0].start - 1] + SplitLines(rs[0].text) + Forward(lines, rs[1..], rs[0].end)
  }

  lemma {:induction false} OrderedStart(rs: seq<Replacement>, from: nat, n: nat, k: nat)
    requires Ordered(rs, from, n) && k < |rs|
    ensures from < rs[k].start <= rs[k].end <= n
  {
    if k == 0 {
    } else {
      OrderedStart(rs[1..], rs[0].end, n, k - 1);
    }
  }

  lemma {:induction false} InsertLast(r: Replacement, rs: seq<Replacement>)
    requires forall k :: 0 <= k < |rs| ==> r.start < rs[k].start
    ensures Insert(r, rs) == rs + [r]
  {
    if rs == [] {
    } else {
      InsertLast(r, rs[1..]);
    }
  }

  /** Ranges listed in file order are processed in exactly the opposite order. */
  lemma {:induction false} SortReverses(rs: seq<Replacement>, from: nat, n: nat)
    requires Ordered(rs, from, n)
    ensures SortDown(rs) == Reverse(rs)
  {
    if rs == [] {
    } else {
      SortReverses(rs[1..], rs[0].end, n);
      var rest := SortDown(rs[1..]);
      forall k | 0 <= k < |rest|
        ensures rs[0].start < rest[k].start
      {
        OrderedStart(rs[1..], rs[0].end, n, |rest| - 1 - k);
      }
      InsertLast(rs[0], rest);
      ReverseFirst(rs);
    }
  }

  lemma {:induction false} SpliceLast(lines: seq<string>, rs: seq<Replacement>, r: Replacement)
    ensures SpliceAll(lines, rs + [r]) == Splice(SpliceAll(lines, rs), r)
    decreases |rs|
  {
    hide SplitLines;
    if rs == [] {
      assert [r][1..] == [];
    } else {
      assert (rs + [r])[1..] == rs[1..] + [r];
      SpliceLast(Splice(lines, rs[0]), rs[1..], r);
    }
  }

  /** Splicing back to front, each time at the line numbers of the old file, is the one-pass
      replacement. */
  lemma {:induction false} BackToFrontIsForward(lines: seq<string>, rs: seq<Replacement>, from: nat)
    requires Ordered(rs, from, |lines|)
    ensures SpliceAll(lines, Reverse(rs)) == lines[..from] + Forward(lines, rs, from)
  {
    hide SplitLines, Splice, Reverse;
    if rs == [] {
      assert Reverse(rs) == [];
    } else {
      var r, tail := rs[0], rs[1..];
      BackToFrontIsForward(lines, tail, r.end);
      ReverseFirst(rs);
      SpliceLast(lines, Reverse(tail), r);
      SpliceAtBoundary(lines, Forward(lines, tail, r.end), r, from);
    }
  }

  lemma SpliceAtBoundary(lines: seq<string>, rest: seq<string>, r: Replacement, from: nat)
    requires from < r.start <= r.end <= |lines|
    ensures Splice(lines[..r.end] + rest, r) == lines[..from] + (lines[from..r.start - 1] + SplitLines(r.text) + rest)
  {
    hide SplitLines;
    var spliced := lines[..r.end] + rest;
    assert spliced[..r.start - 1] == lines[..from] + lines[from..r.start - 1];
    assert spliced[r.end..] == rest;
  }

  // ---------- where the lines go ----------

  function Growth(rs: seq<Replacement>): int {
    if rs == [] then 0 else |SplitLines(rs[0].text)| - (rs[0].end - rs[0].start + 1) + Growth(rs[1..])
  }

  lemma {:induction false} ForwardLength(lines: seq<string>, rs: seq<Replacement>, from: nat)
    requires Ordered(rs, from, |lines|)
    ensures |Forward(lines, rs, from)| == |lines| - from + Growth(rs)
  {
    hide SplitLines;
    if rs == [] {
    } else {
      ForwardLength(lines, rs[1..], rs[0].end);
    }
  }

  predicate Within(r: Replacement, line: nat) {
    r.start <= line <= r.end
  }

  /** The line is in none of the ranges. */
  predicate Outside(rs: seq<Replacement>, line: nat) {
    forall i :: 0 <= i < |rs| ==> !Within(rs[i], line)
  }

  /** How far the ranges before a line have moved it. */
  function Shift(rs: seq<Replacement>, line: nat): int {
    if rs == [] || line < rs[0].start then 0
    else |SplitLines(rs[0].text)| - (rs[0].end - rs[0].start + 1) + Shift(rs[1..], line)
  }

  /** A line outside the ranges is kept, moved by exactly what the ranges before it grew. */
  lemma {:induction false} OutsideShifts(lines: seq<string>, rs: seq<Replacement>, from: nat, k: nat)
    requires Ordered(rs, from, |lines|) && from <= k < |lines| && Outside(rs, k + 1)
    ensures from <= k + Shift(rs, k + 1) < from + |Forward(lines, rs, from)|
    ensures Forward(lines, rs, from)[k + Shift(rs, k + 1) - from] == lines[k]
  {
    hide *;
    if rs == [] {
      UnmovedFirst(lines, rs, from, k);
    } else {
      OrderedTail(rs, from, |lines|);
      OutsideFirst(rs, k + 1);
      if k + 1 < rs[0].start {
        UnmovedFirst(lines, rs, from, k);
      } else {
        OutsideShifts(lines, rs[1..], rs[0].end, k);
        ForwardTail(lines, rs, from, k + Shift(rs[1..], k + 1));
        ShiftFirst(rs, k + 1);
      }
    }
  }

  lemma OutsideFirst(rs: seq<Replacement>, line: nat)
    requires rs != [] && Outside(rs, line)
    ensures (line < rs[0].start || rs[0].end < line) && Outside(rs[1..], line)
  {
    assert !Within(rs[0], line);
  }

  lemma ShiftFirst(rs: seq<Replacement>, line: nat)
    requires rs != [] && line >= rs[0].start
    ensures Shift(rs, line) == |SplitLines(rs[0].text)| - (rs[0].end - rs[0].start + 1) + Shift(rs[1..], line)
  {
  }

  /** A line before the first range stays where it is. */
  lemma UnmovedFirst(lines: seq<string>, rs: seq<Replacement>, from: nat, k: nat)
    requires Ordered(rs, from, |lines|) && from <= k < |lines| && (rs != [] ==> k + 1 < rs[0].start)
    ensures Shift(rs, k + 1) == 0 && k < from + |Forward(lines, rs, from)| && Forward(lines, rs, from)[k - from] == lines[k]
  {
    hide SplitLines;
  }

  lemma OrderedTail(rs: seq<Replacement>, from: nat, n: nat)
    requires Ordered(rs, from, n) && rs != []
    ensures Ordered(rs[1..], rs[0].end, n) && from < rs[0].start <= rs[0].end <= n
  {
  }

  lemma ForwardTail(lines: seq<string>, rs: seq<Replacement>, from: nat, at: int)
    requires Ordered(rs, from, |lines|) && rs != []
    requires rs[0].end <= at < rs[0].end + |Forward(lines, rs[1..], rs[0].end)|
    ensures var to := at + |SplitLines(rs[0].text)| - (rs[0].end - rs[0].start + 1);
            && from <= to < from + |Forward(lines, rs, from)|
            && Forward(lines, rs, from)[to - from] == Forward(lines, rs[1..], rs[0].end)[at - rs[0].end]
  {
    hide SplitLines;
  }

  lemma ShiftPrefix(rs: seq<Replacement>, from: nat, n: nat, i: nat)
    requires Ordered(rs, from, n) && 0 < i < |rs|
    ensures Shift(rs[..i], rs[i].start) ==
            |SplitLines(rs[0].text)| - (rs[0].end - rs[0].start + 1) + Shift(rs[1..][..i - 1], rs[i].start)
  {
    hide SplitLines;
    OrderedStart(rs[1..], rs[0].end, n, i - 1);
    assert rs[..i][0] == rs[0] && rs[..i][1..] == rs[1..][..i - 1];
  }

  lemma TextFirst(lines: seq<string>, rs: seq<Replacement>, from: nat, j: nat)
    requires Ordered(rs, from, |lines|) && rs != [] && j < |SplitLines(rs[0].text)|
    ensures var at := rs[0].start - 1 + Shift(rs[..0], rs[0].start) + j;
            && from <= at < from + |Forward(lines, rs, from)|
            && Forward(lines, rs, from)[at - from] == SplitLines(rs[0].text)[j]
  {
    hide SplitLines;
    assert rs[..0] == [];
  }

  /** The text of a range stands where the range stood, moved the same way. */
  lemma {:induction false} TextPlaced(lines: seq<string>, rs: seq<Replacement>, from: nat, i: nat, j: nat)
    requires Ordered(rs, from, |lines|) && i < |rs| && j < |SplitLines(rs[i].text)|
    ensures var at := rs[i].start - 1 + Shift(rs[..i], rs[i].start) + j;
            && from <= at < from + |Forward(lines, rs, from)|
            && Forward(lines, rs, from)[at - from] == SplitLines(rs[i].text)[j]
  {
    hide *;
    if i == 0 {
      TextFirst(lines, rs, from, j);
    } else {
      OrderedTail(rs, from, |lines|);
      ShiftPrefix(rs, from, |lines|, i);
      TextPlaced(lines, rs[1..], rs[0].end, i - 1, j);
      ForwardTail(lines, rs, from, rs[i].start - 1 + Shift(rs[1..][..i - 1], rs[i].start) + j);
    }
  }

  predicate SameHeights(rs: seq<Replacement>) {
    forall i :: 0 <= i < |rs| ==> |SplitLines(rs[i].text)| == rs[i].end - rs[i].start + 1
  }

  lemma {:induction false} NoShift(rs: seq<Replacement>, line: nat)
    requires SameHeights(rs)
    ensures Shift(rs, line) == 0 && Growth(rs) == 0
  {
    hide SplitLines;
    if rs == [] {
    } else {
      NoShift(rs[1..], line);
    }
  }

  // ---------- against the surface check ----------

  /** Every range is mutable. */
  predicate RangesIn(rs: seq<Replacement>, allowed: set<nat>) {
    forall i, l :: 0 <= i < |rs| && rs[i].start <= l <= rs[i].end ==> l in allowed
  }

  /** A candidate that keeps the height of every assignment passes exactly when it changes a line. */
  lemma SameHeightsPass(lines: seq<string>, rs: seq<Replacement>, allowed: set<nat>)
    requires Ordered(rs, 0, |lines|) && SameHeights(rs)
    requires RangesIn(rs, allowed) && forall l :: l in allowed ==> 1 <= l <= |lines|
    ensures var after := Forward(lines, rs, 0);
            && |after| == |lines|
            && (forall k: nat :: k < |lines| && Outside(rs, k + 1) ==> SameLine(lines, after, k))
            && (SurfaceOnly(lines, after, allowed) <==> lines != after)
  {
    hide SplitLines;
    var after := Forward(lines, rs, 0);
    NoShift(rs, 0);
    ForwardLength(lines, rs, 0);
    forall k: nat | k < |lines| && Outside(rs, k + 1)
      ensures SameLine(lines, after, k)
    {
      NoShift(rs, k + 1);
      OutsideShifts(lines, rs, 0, k);
    }
    SurfaceIff(lines, after, allowed);
  }

  // ---------- the exact condition, before rendering ----------

  /** Where the first line of a range's text goes, counted from 0. */
  function TargetOf(rs: seq<Replacement>, i: nat): int
    requires i < |rs|
  {
    rs[i].start - 1 + Shift(rs[..i], rs[i].start)
  }

  /** Every line of the result is a moved line or a line of a text. */
  lemma {:induction false} Covered(lines: seq<string>, rs: seq<Replacement>, from: nat, p: nat)
    returns (moved: bool, k: nat, i: nat, j: nat)
    requires Ordered(rs, from, |lines|) && from <= p < from + |Forward(lines, rs, from)|
    ensures moved ==> from <= k < |lines| && Outside(rs, k + 1) && k + Shift(rs, k + 1) == p
    ensures !moved ==> i < |rs| && j < |SplitLines(rs[i].text)| && TargetOf(rs, i) + j == p
  {
    hide SplitLines;
    moved, k, i, j := true, p, 0, 0;
    if rs == [] {
    } else if p < rs[0].start - 1 {
      OutsideBefore(rs, from, |lines|, p + 1);
    } else if p < rs[0].start - 1 + |SplitLines(rs[0].text)| {
      moved, j := false, p - (rs[0].start - 1);
      assert rs[..0] == [];
    } else {
      var d := |SplitLines(rs[0].text)| - (rs[0].end - rs[0].start + 1);
      moved, k, i, j := Covered(lines, rs[1..], rs[0].end, p - d);
      if moved {
        assert Shift(rs, k + 1) == d + Shift(rs[1..], k + 1);
        OutsideTail(rs, k + 1);
      } else {
        i := i + 1;
        ShiftPrefix(rs, from, |lines|, i);
      }
    }
  }

  lemma OutsideBefore(rs: seq<Replacement>, from: nat, n: nat, line: nat)
    requires Ordered(rs, from, n) && rs != [] && line < rs[0].start
    ensures Outside(rs, line) && Shift(rs, line) == 0
  {
    forall i | 0 <= i < |rs|
      ensures !Within(rs[i], line)
    {
      if i > 0 { OrderedStart(rs[1..], rs[0].end, n, i - 1); }
    }
  }

  lemma OutsideTail(rs: seq<Replacement>, line: nat)
    requires rs != [] && rs[0].end < line && Outside(rs[1..], line)
    ensures Outside(rs, line)
  {
    forall i | 0 <= i < |rs|
      ensures !Within(rs[i], line)
    {
      if i > 0 { assert !Within(rs[1..][i - 1], line); }
    }
  }

  /** The line at a position, from 0, is mutable. */
  predicate MutableAt(allowed: set<nat>, at: int) {
    at + 1 in allowed
  }

  /** A line that goes to a position, from 0, meets a mutable line there or an equal one. */
  predicate Lands(lines: seq<string>, allowed: set<nat>, line: string, to: int) {
    MutableAt(allowed, to) || (0 <= to < |lines| && lines[to] == line)
  }

  predicate OutsideLands(lines: seq<string>, rs: seq<Replacement>, allowed: set<nat>) {
    forall k :: 0 <= k < |lines| && Outside(rs, k + 1) ==> Lands(lines, allowed, lines[k], k + Shift(rs, k + 1))
  }

  predicate TextLands(lines: seq<string>, rs: seq<Replacement>, allowed: set<nat>) {
    forall i, j :: 0 <= i < |rs| && 0 <= j < |SplitLines(rs[i].text)| ==>
      Lands(lines, allowed, SplitLines(rs[i].text)[j], TargetOf(rs, i) + j)
  }

  /** Told from the old file and the replacements alone: nothing lands on a foreign line. */
  predicate AllLand(lines: seq<string>, rs: seq<Replacement>, allowed: set<nat>) {
    OutsideLands(lines, rs, allowed) && TextLands(lines, rs, allowed)
  }

  /** The lines that a shrinking file loses at its end. */
  predicate TailMutable(lines: seq<string>, growth: int, allowed: set<nat>) {
    forall k :: |lines| + growth <= k < |lines| ==> MutableAt(allowed, k)
  }

  /** The result, position by position. */
  lemma LandedAt(lines: seq<string>, rs: seq<Replacement>, allowed: set<nat>, p: nat)
    requires Ordered(rs, 0, |lines|) && AllLand(lines, rs, allowed)
    requires p < |Forward(lines, rs, 0)| && p + 1 !in allowed
    ensures SameLine(lines, Forward(lines, rs, 0), p)
  {
    hide SplitLines, Forward, Shift, Outside, Ordered;
    var moved, k, i, j := Covered(lines, rs, 0, p);
    if moved {
      OutsideShifts(lines, rs, 0, k);
      assert Lands(lines, allowed, lines[k], k + Shift(rs, k + 1));
    } else {
      TextPlaced(lines, rs, 0, i, j);
      assert Lands(lines, allowed, SplitLines(rs[i].text)[j], TargetOf(rs, i) + j);
    }
  }

  /** Conversely, lines that stand where they stood landed there. */
  lemma StandsLands(lines: seq<string>, rs: seq<Replacement>, allowed: set<nat>)
    requires Ordered(rs, 0, |lines|) && |Forward(lines, rs, 0)| <= |lines|
    requires forall p: nat :: p < |Forward(lines, rs, 0)| && p + 1 !in allowed ==> SameLine(lines, Forward(lines, rs, 0), p)
    ensures AllLand(lines, rs, allowed)
  {
    hide SplitLines, Forward, Shift, Outside, Ordered;
    forall k | 0 <= k < |lines| && Outside(rs, k + 1)
      ensures Lands(lines, allowed, lines[k], k + Shift(rs, k + 1))
    {
      OutsideShifts(lines, rs, 0, k);
      var to: nat := k + Shift(rs, k + 1);
      assert to + 1 in allowed || SameLine(lines, Forward(lines, rs, 0), to);
    }
    forall i, j | 0 <= i < |rs| && 0 <= j < |SplitLines(rs[i].text)|
      ensures Lands(lines, allowed, SplitLines(rs[i].text)[j], TargetOf(rs, i) + j)
    {
      TextPlaced(lines, rs, 0, i, j);
      var to: nat := TargetOf(rs, i) + j;
      assert to + 1 in allowed || SameLine(lines, Forward(lines, rs, 0), to);
    }
  }

  /** A candidate changes nothing exactly when every line lands on an equal one. */
  lemma UnchangedIff(lines: seq<string>, rs: seq<Replacement>)
    requires Ordered(rs, 0, |lines|)
    ensures Forward(lines, rs, 0) == lines <==> Growth(rs) == 0 && AllLand(lines, rs, {})
  {
    hide SplitLines, AllLand;
    var after := Forward(lines, rs, 0);
    ForwardLength(lines, rs, 0);
    if after == lines {
      StandsLands(lines, rs, {});
    }
    if Growth(rs) == 0 && AllLand(lines, rs, {}) {
      forall p: nat | p < |lines|
        ensures after[p] == lines[p]
      {
        LandedAt(lines, rs, {}, p);
      }
    }
  }

  /** Exactly which candidates pass the surface check, told before rendering: the file does not
      grow, the lines it loses at the end are mutable, every line lands on a mutable or an equal
      line, and something changes. */
  lemma PassesIff(lines: seq<string>, rs: seq<Replacement>, allowed: set<nat>)
    requires Ordered(rs, 0, |lines|) && forall l :: l in allowed ==> 1 <= l <= |lines|
    ensures SurfaceOnly(lines, Forward(lines, rs, 0), allowed) <==>
            && Growth(rs) <= 0 && TailMutable(lines, Growth(rs), allowed) && AllLand(lines, rs, allowed)
            && !(Growth(rs) == 0 && AllLand(lines, rs, {}))
  {
    hide SplitLines, AllLand, Forward, SurfaceOnly;
    var after := Forward(lines, rs, 0);
    ForwardLength(lines, rs, 0);
    SurfaceIff(lines, after, allowed);
    UnchangedIff(lines, rs);
    if SurfaceOnly(lines, after, allowed) {
      StandsLands(lines, rs, allowed);
      forall k | |after| <= k < |lines|
        ensures MutableAt(allowed, k)
      {
        assert !SameLine(lines, after, k);
      }
    }
    if Growth(rs) <= 0 && TailMutable(lines, Growth(rs), allowed) && AllLand(lines, rs, allowed) {
      forall k: nat | k < |lines| && k + 1 !in allowed
        ensures SameLine(lines, after, k)
      {
        assert k < |after| || MutableAt(allowed, k);
        LandedAt(lines, rs, allowed, k);
      }
    }
  }

  // ---------- rendering ----------

  datatype Rendered = Content(text: string) | NotAllowlisted(unknown: set<string>)

  /** The source text of an assignment; how a value is written as a literal is left open. */
  function Assignment(name: string, value: string, literal: string -> string): (text: string)
    ensures text != ""
  {
    name + " = " + literal(value)
  }

  function StatementReplacements(a: Assign, names: seq<string>, candidate: map<string, string>, literal: string -> string):
    (rs: seq<Replacement>)
    ensures forall k :: 0 <= k < |rs| ==> rs[k].start == a.start && rs[k].end == a.end && rs[k].text != ""
    ensures |rs| <= |names|
  {
    if names == [] then []
    else
      var last := |names| - 1;
      StatementReplacements(a, names[..last], candidate, literal)
      + if names[last] in candidate
        then [Replacement(a.start, a.end, Assignment(names[last], candidate[names[last]], literal))] else []
  }

  function Replacements(body: seq<Assign>, candidate: map<string, string>, literal: string -> string): seq<Replacement> {
    if body == [] then []
    else
      var last := |body| - 1;
      Replacements(body[..last], candidate, literal)
      + StatementReplacements(body[last], body[last].names, candidate, literal)
  }

  /** Target j of a statement is an edited symbol, and r puts its new value in the statement's place. */
  predicate TargetEdit(a: Assign, candidate: map<string, string>, literal: string -> string, j: nat, r: Replacement) {
    && j < |a.names| && a.names[j] in candidate
    && r == Replacement(a.start, a.end, a.names[j] + " = " + literal(candidate[a.names[j]]))
  }

  ghost predicate StatementEdit(a: Assign, candidate: map<string, string>, literal: string -> string, r: Replacement) {
    exists j: nat :: TargetEdit(a, candidate, literal, j, r)
  }

  lemma {:induction false} StatementEdits(a: Assign, names: seq<string>, candidate: map<string, string>, literal: string -> string, r: Replacement)
    ensures r in StatementReplacements(a, names, candidate, literal) <==>
            exists j :: 0 <= j < |names| && names[j] in candidate
                        && r == Replacement(a.start, a.end, names[j] + " = " + literal(candidate[names[j]]))
  {
    if names == [] {
    } else {
      StatementEdits(a, names[..|names| - 1], candidate, literal, r);
    }
  }

  lemma StatementTells(a: Assign, candidate: map<string, string>, literal: string -> string, r: Replacement)
    ensures r in StatementReplacements(a, a.names, candidate, literal) <==> StatementEdit(a, candidate, literal, r)
  {
    hide StatementReplacements;
    StatementEdits(a, a.names, candidate, literal, r);
    if r in StatementReplacements(a, a.names, candidate, literal) {
      var j :| 0 <= j < |a.names| && a.names[j] in candidate
               && r == Replacement(a.start, a.end, a.names[j] + " = " + literal(candidate[a.names[j]]));
      assert TargetEdit(a, candidate, literal, j, r);
    }
  }

  /** The replacements of a candidate: one for every target of every statement that it edits. */
  lemma {:induction false} ReplacementsTell(body: seq<Assign>, candidate: map<string, string>, literal: string -> string, r: Replacement)
    ensures r in Replacements(body, candidate, literal) <==>
            exists i :: 0 <= i < |body| && StatementEdit(body[i], candidate, literal, r)
  {
    hide StatementReplacements, StatementEdit, Replacements;
    if body == [] {
      NothingReplaced(candidate, literal);
    } else {
      var last := |body| - 1;
      ReplacementsTell(body[..last], candidate, literal, r);
      ReplacementsLast(body, candidate, literal);
      StatementTells(body[last], candidate, literal, r);
      assert forall i :: 0 <= i < last ==> body[..last][i] == body[i];
    }
  }

  /** The content that rendering gives for an allowlisted candidate. */
  function RenderedText(before: string, rs: seq<Replacement>): string {
    if rs == [] then before else Join(SpliceAll(SplitLines(before), SortDown(rs))) + "\n"
  }

  method CollectReplacements(body: seq<Assign>, candidate: map<string, string>, literal: string -> string)
    returns (rs: seq<Replacement>)
    ensures rs == Replacements(body, candidate, literal)
  {
    rs := [];
    for i := 0 to |body|
      invariant rs == Replacements(body[..i], candidate, literal)
    {
      var a := body[i];
      ghost var was := rs;
      for j := 0 to |a.names|
        invariant rs == was + StatementReplacements(a, a.names[..j], candidate, literal)
      {
        assert a.names[..j + 1][..j] == a.names[..j];
        if a.names[j] in candidate {
          rs := rs + [Replacement(a.start, a.end, Assignment(a.names[j], candidate[a.names[j]], literal))];
        }
      }
      assert a.names[..|a.names|] == a.names && body[..i + 1][..i] == body[..i];
    }
    assert body[..|body|] == body;
  }

  method Render(before: string, body: seq<Assign>, candidate: map<string, string>, literal: string -> string)
    returns (r: Rendered)
    ensures r.NotAllowlisted? <==> exists n :: n in candidate && !IsMutable(n)
    ensures r.NotAllowlisted? ==> forall n :: n in r.unknown <==> n in candidate && !IsMutable(n)
    ensures r.Content? ==> r.text == RenderedText(before, Replacements(body, candidate, literal))
  {
    hide Splice, Insert, StatementReplacements, SplitLines, Join;
    var unknown := candidate.Keys - {SYSTEM_PROMPT, USER_TEMPLATE};
    if unknown != {} {
      var n :| n in unknown;
      assert n in candidate;
      return NotAllowlisted(unknown);
    }
    assert forall n :: n in candidate && !IsMutable(n) ==> n in unknown;
    var rs := CollectReplacements(body, candidate, literal);
    if rs == [] {
      return Content(before);
    }
    var lines := SpliceEach(SplitLines(before), SortDown(rs));
    r := Content(Join(lines) + "\n");
  }

  method SpliceEach(before: seq<string>, rs: seq<Replacement>) returns (lines: seq<string>)
    ensures lines == SpliceAll(before, rs)
  {
    hide Splice;
    lines := before;
    for k := 0 to |rs|
      invariant lines == SpliceAll(before, rs[..k])
    {
      SpliceLast(before, rs[..k], rs[k]);
      assert rs[..k + 1] == rs[..k] + [rs[k]];
      lines := Splice(lines, rs[k]);
    }
    assert rs[..|rs|] == rs;
  }

  // ---------- the rendered file ----------

  lemma {:induction false} JoinIsUnlines(ls: seq<string>)
    requires ls != []
    ensures Join(ls) + "\n" == Unlines(ls)
  {
    if |ls| > 1 {
      JoinIsUnlines(ls[1..]);
      assert Join(ls) + "\n" == ls[0] + "\n" + (Join(ls[1..]) + "\n");
    } else {
      assert ls[1..] == [] && Unlines([]) == "";
    }
  }

  lemma TextSafe(text: string)
    ensures AllSafe(SplitLines(text))
  {
    forall k | 0 <= k < |SplitLines(text)|
      ensures LineSafe(SplitLines(text)[k])
    {
      SplitLinesSafe(text, k);
    }
  }

  /** The statements of a file of n lines, none of which shares a line with the next. */
  predicate WellParsed(body: seq<Assign>, n: nat) {
    && (forall i :: 0 <= i < |body| ==> 1 <= body[i].start <= body[i].end <= n)
    && (forall i, j :: 0 <= i < j < |body| ==> body[i].end < body[j].start)
  }

  /** No statement binds two of the edited symbols. */
  predicate OneEach(body: seq<Assign>, candidate: map<string, string>, literal: string -> string) {
    forall i :: 0 <= i < |body| ==> |StatementReplacements(body[i], body[i].names, candidate, literal)| <= 1
  }

  lemma {:induction false} OrderedSnoc(rs: seq<Replacement>, r: Replacement, from: nat, m: nat, n: nat)
    requires Ordered(rs, from, m) && m < r.start <= r.end <= n
    ensures Ordered(rs + [r], from, n)
  {
    if rs == [] {
      assert (rs + [r])[1..] == [];
    } else {
      assert (rs + [r])[1..] == rs[1..] + [r];
      OrderedSnoc(rs[1..], r, rs[0].end, m, n);
    }
  }

  lemma {:induction false} OrderedWiden(rs: seq<Replacement>, from: nat, m: nat, n: nat)
    requires Ordered(rs, from, m) && m <= n
    ensures Ordered(rs, from, n)
  {
    if rs == [] {
    } else {
      OrderedWiden(rs[1..], rs[0].end, m, n);
    }
  }

  lemma {:induction false} ReplacementsOrdered(body: seq<Assign>, candidate: map<string, string>, literal: string -> string, n: nat)
    requires WellParsed(body, n) && OneEach(body, candidate, literal)
    ensures Ordered(Replacements(body, candidate, literal), 0, n)
  {
    if body == [] {
    } else {
      var last := |body| - 1;
      var m := body[last].start - 1;
      ReplacementsOrdered(body[..last], candidate, literal, m);
      var rs := StatementReplacements(body[last], body[last].names, candidate, literal);
      if |rs| == 1 {
        assert rs == [rs[0]];
        OrderedSnoc(Replacements(body[..last], candidate, literal), rs[0], 0, m, n);
      } else {
        assert rs == [] && Replacements(body, candidate, literal) == Replacements(body[..last], candidate, literal);
        OrderedWiden(Replacements(body[..last], candidate, literal), 0, m, n);
      }
    }
  }

  lemma {:induction false} StatementMutable(a: Assign, names: seq<string>, candidate: map<string, string>, literal: string -> string)
    requires forall n :: n in candidate ==> IsMutable(n)
    requires StatementReplacements(a, names, candidate, literal) != []
    ensures exists j: nat :: j < |names| && IsMutable(names[j])
  {
    var last := |names| - 1;
    if names[last] in candidate {
      assert IsMutable(names[last]);
    } else {
      StatementMutable(a, names[..last], candidate, literal);
      var j: nat :| j < last && IsMutable(names[..last][j]);
      assert IsMutable(names[j]);
    }
  }

  /** Whatever an allowlisted candidate replaces lies in the validator's mutable lines. */
  lemma {:induction false} ReplacementsAllowed(body: seq<Assign>, candidate: map<string, string>, literal: string -> string, i: nat, l: nat)
    requires forall n :: n in candidate ==> IsMutable(n)
    requires i < |Replacements(body, candidate, literal)| && Within(Replacements(body, candidate, literal)[i], l)
    ensures Allowed(body, l)
  {
    var last := |body| - 1;
    var before := Replacements(body[..last], candidate, literal);
    if i < |before| {
      ReplacementsAllowed(body[..last], candidate, literal, i, l);
      var k: nat :| k < last && AllowedBy(body[..last][k], l);
      assert AllowedBy(body[k], l);
    } else {
      StatementMutable(body[last], body[last].names, candidate, literal);
      assert AllowedBy(body[last], l);
    }
  }

  // ---------- the rendered file, for every body ----------

  lemma {:induction false} InsertMember(r: Replacement, rs: seq<Replacement>, x: Replacement)
    ensures x in Insert(r, rs) <==> x == r || x in rs
  {
    hide Below;
    if rs == [] || Below(rs[0], r) {
    } else {
      InsertMember(r, rs[1..], x);
    }
  }

  lemma {:induction false} SortMember(rs: seq<Replacement>, x: Replacement)
    ensures x in SortDown(rs) <==> x in rs
  {
    if rs == [] {
    } else {
      SortMember(rs[1..], x);
      InsertMember(rs[0], SortDown(rs[1..]), x);
    }
  }

  lemma {:induction false} InsertBehind(r: Replacement, later: seq<Replacement>, rs: seq<Replacement>)
    requires forall k :: 0 <= k < |later| ==> r.start < later[k].start
    ensures Insert(r, later + rs) == later + Insert(r, rs)
  {
    if later == [] {
      assert later + rs == rs && later + Insert(r, rs) == Insert(r, rs);
    } else {
      assert (later + rs)[0] == later[0] && (later + rs)[1..] == later[1..] + rs;
      InsertBehind(r, later[1..], rs);
    }
  }

  /** Replacements of earlier statements are processed after those of later ones. */
  lemma {:induction false} SortConcat(a: seq<Replacement>, b: seq<Replacement>)
    requires forall i, k :: 0 <= i < |a| && 0 <= k < |b| ==> a[i].start < b[k].start
    ensures SortDown(a + b) == SortDown(b) + SortDown(a)
  {
    if a == [] {
      assert a + b == b && SortDown(b) + [] == SortDown(b);
    } else {
      assert (a + b)[0] == a[0] && (a + b)[1..] == a[1..] + b;
      SortConcat(a[1..], b);
      var later := SortDown(b);
      forall k | 0 <= k < |later|
        ensures a[0].start < later[k].start
      {
        SortMember(b, later[k]);
        assert later[k] in b;
      }
      InsertBehind(a[0], later, SortDown(a[1..]));
    }
  }

  lemma {:induction false} SpliceConcat(lines: seq<string>, a: seq<Replacement>, b: seq<Replacement>)
    ensures SpliceAll(lines, a + b) == SpliceAll(SpliceAll(lines, a), b)
    decreases |a|
  {
    hide Splice;
    if a == [] {
      assert a + b == b;
    } else {
      assert (a + b)[1..] == a[1..] + b;
      SpliceConcat(Splice(lines, a[0]), a[1..], b);
    }
  }

  /** What splicing texts one after another over the first h lines leaves: each one replaces h
      lines of what is there by then, whichever they are. */
  function Overlay(seg: seq<string>, rs: seq<Replacement>, h: nat): seq<string>
    decreases |rs|
  {
    if rs == [] then seg else Overlay(SplitLines(rs[0].text) + seg[Min(h, |seg|)..], rs[1..], h)
  }

  lemma {:induction false} SpliceIsOverlay(pre: seq<string>, seg: seq<string>, rs: seq<Replacement>, h: nat)
    requires forall k :: 0 <= k < |rs| ==> rs[k].start == |pre| + 1 && rs[k].end == |pre| + h
    ensures SpliceAll(pre + seg, rs) == pre + Overlay(seg, rs, h)
    decreases |rs|
  {
    if rs == [] {
    } else {
      var next := SplitLines(rs[0].text) + seg[Min(h, |seg|)..];
      SpliceAtPrefix(pre, seg, rs[0], h);
      SpliceIsOverlay(pre, next, rs[1..], h);
    }
  }

  lemma SpliceAtPrefix(pre: seq<string>, seg: seq<string>, r: Replacement, h: nat)
    requires r.start == |pre| + 1 && r.end == |pre| + h
    ensures Splice(pre + seg, r) == pre + (SplitLines(r.text) + seg[Min(h, |seg|)..])
  {
    hide SplitLines;
    var whole, to := pre + seg, |pre| + Min(h, |seg|);
    Clamped(|pre|, |seg|, h);
    assert Splice(whole, r) == whole[..|pre|] + SplitLines(r.text) + whole[to..];
    assert whole[..|pre|] == pre && whole[to..] == seg[Min(h, |seg|)..];
    Assoc(pre, SplitLines(r.text), seg[Min(h, |seg|)..]);
  }

  lemma Clamped(from: nat, rest: nat, h: nat)
    ensures Min(Max(from, 0), from + rest) == from
    ensures Max(from, Min(from + h, from + rest)) == from + Min(h, rest)
  {
  }

  function Edits(a: Assign, candidate: map<string, string>, literal: string -> string): seq<Replacement> {
    StatementReplacements(a, a.names, candidate, literal)
  }

  /** The one-pass description for every body: copy up to each statement, then overlay its texts. */
  function Pass(lines: seq<string>, body: seq<Assign>, candidate: map<string, string>, literal: string -> string, from: nat): seq<string>
    requires WellParsed(body, |lines|) && from <= |lines| && (body != [] ==> from < body[0].start)
  {
    if body == [] then lines[from..]
    else
      var a := body[0];
      lines[from..a.start - 1]
      + Overlay(lines[a.start - 1..a.end] + Pass(lines, body[1..], candidate, literal, a.end),
                SortDown(Edits(a, candidate, literal)), a.end - a.start + 1)
  }

  lemma {:induction false} ReplacementsCons(body: seq<Assign>, candidate: map<string, string>, literal: string -> string)
    requires body != []
    ensures Replacements(body, candidate, literal) == Edits(body[0], candidate, literal) + Replacements(body[1..], candidate, literal)
  {
    hide Replacements, Edits;
    var last := |body| - 1;
    ReplacementsLast(body, candidate, literal);
    if last == 0 {
      NothingReplaced(candidate, literal);
      assert body[..0] == [] && body[1..] == [];
    } else {
      ReplacementsCons(body[..last], candidate, literal);
      ReplacementsLast(body[1..], candidate, literal);
      assert body[..last][1..] == body[1..][..last - 1] && body[1..][last - 1] == body[last];
      Assoc(Edits(body[0], candidate, literal), Replacements(body[1..][..last - 1], candidate, literal),
            Edits(body[last], candidate, literal));
    }
  }

  lemma ReplacementsLast(body: seq<Assign>, candidate: map<string, string>, literal: string -> string)
    requires body != []
    ensures Replacements(body, candidate, literal) ==
            Replacements(body[..|body| - 1], candidate, literal) + Edits(body[|body| - 1], candidate, literal)
  {
  }

  lemma NothingReplaced(candidate: map<string, string>, literal: string -> string)
    ensures Replacements([], candidate, literal) == []
  {
  }

  lemma {:induction false} ReplacementsBehind(body: seq<Assign>, candidate: map<string, string>, literal: string -> string, from: nat, k: nat)
    requires forall i :: 0 <= i < |body| ==> from < body[i].start
    requires k < |Replacements(body, candidate, literal)|
    ensures from < Replacements(body, candidate, literal)[k].start
  {
    hide StatementReplacements;
    var last := |body| - 1;
    var before := Replacements(body[..last], candidate, literal);
    if k < |before| { ReplacementsBehind(body[..last], candidate, literal, from, k); }
  }

  /** Splicing all replacements back to front is the one-pass description, shared ranges included. */
  lemma {:induction false} SplicesAreOnePass(lines: seq<string>, body: seq<Assign>, candidate: map<string, string>, literal: string -> string, from: nat)
    requires WellParsed(body, |lines|) && from <= |lines| && (body != [] ==> from < body[0].start)
    ensures SpliceAll(lines, SortDown(Replacements(body, candidate, literal)))
            == lines[..from] + Pass(lines, body, candidate, literal, from)
  {
    hide *;
    if body == [] {
      NothingPasses(lines, candidate, literal, from);
    } else {
      var a := body[0];
      PassUnfolds(lines, body, candidate, literal, from);
      SplicesAreOnePass(lines, body[1..], candidate, literal, a.end);
      var rest := Pass(lines, body[1..], candidate, literal, a.end);
      StatementPass(lines, body, candidate, literal, rest);
      PassStep(lines, from, a.start - 1,
               Overlay(lines[a.start - 1..a.end] + rest, SortDown(Edits(a, candidate, literal)), a.end - a.start + 1));
    }
  }

  lemma NothingPasses(lines: seq<string>, candidate: map<string, string>, literal: string -> string, from: nat)
    requires from <= |lines|
    ensures SpliceAll(lines, SortDown(Replacements([], candidate, literal))) == lines[..from] + Pass(lines, [], candidate, literal, from)
  {
  }

  lemma PassUnfolds(lines: seq<string>, body: seq<Assign>, candidate: map<string, string>, literal: string -> string, from: nat)
    requires WellParsed(body, |lines|) && body != [] && from < body[0].start
    ensures var a, tail := body[0], body[1..];
            && 1 <= a.start <= a.end <= |lines| && WellParsed(tail, |lines|) && (tail != [] ==> a.end < tail[0].start)
            && Pass(lines, body, candidate, literal, from) ==
                 lines[from..a.start - 1]
                 + Overlay(lines[a.start - 1..a.end] + Pass(lines, tail, candidate, literal, a.end),
                           SortDown(Edits(a, candidate, literal)), a.end - a.start + 1)
  {
    hide Edits, SortDown, Overlay;
  }

  lemma PassStep(lines: seq<string>, from: nat, to: nat, tail: seq<string>)
    requires from <= to <= |lines|
    ensures lines[..to] + tail == lines[..from] + (lines[from..to] + tail)
  {
  }

  /** One statement, once the later ones have become `rest`. */
  lemma StatementPass(lines: seq<string>, body: seq<Assign>, candidate: map<string, string>, literal: string -> string, rest: seq<string>)
    requires WellParsed(body, |lines|) && body != []
    requires SpliceAll(lines, SortDown(Replacements(body[1..], candidate, literal))) == lines[..body[0].end] + rest
    ensures var a := body[0];
            SpliceAll(lines, SortDown(Replacements(body, candidate, literal)))
            == lines[..a.start - 1] + Overlay(lines[a.start - 1..a.end] + rest, SortDown(Edits(a, candidate, literal)), a.end - a.start + 1)
  {
    hide Splice, SpliceAll, Overlay, SortDown, Replacements;
    var a := body[0];
    var edits, later := Edits(a, candidate, literal), Replacements(body[1..], candidate, literal);
    ReplacementsCons(body, candidate, literal);
    forall k | 0 <= k < |later|
      ensures a.end < later[k].start
    {
      ReplacementsBehind(body[1..], candidate, literal, a.end, k);
    }
    SortConcat(edits, later);
    SpliceConcat(lines, SortDown(later), SortDown(edits));
    var sorted := SortDown(edits);
    forall k | 0 <= k < |sorted|
      ensures sorted[k].start == a.start && sorted[k].end == a.end
    {
      SortMember(edits, sorted[k]);
      assert sorted[k] in edits;
    }
    var pre, seg := lines[..a.start - 1], lines[a.start - 1..a.end] + rest;
    assert lines[..a.end] + rest == pre + seg;
    SpliceIsOverlay(pre, seg, sorted, a.end - a.start + 1);
  }

  lemma {:induction false} ReplacementsNonEmpty(body: seq<Assign>, candidate: map<string, string>, literal: string -> string, i: nat)
    requires i < |Replacements(body, candidate, literal)|
    ensures Replacements(body, candidate, literal)[i].text != ""
  {
    var before := Replacements(body[..|body| - 1], candidate, literal);
    if i < |before| { ReplacementsNonEmpty(body[..|body| - 1], candidate, literal, i); }
  }

  lemma {:induction false} SplicesSafe(lines: seq<string>, rs: seq<Replacement>)
    requires AllSafe(lines)
    ensures AllSafe(SpliceAll(lines, rs))
    decreases |rs|
  {
    hide SplitLines;
    if rs == [] {
    } else {
      TextSafe(rs[0].text);
      SplicesSafe(Splice(lines, rs[0]), rs[1..]);
    }
  }

  lemma {:induction false} SplicesNonEmpty(lines: seq<string>, rs: seq<Replacement>)
    requires lines != [] || rs != []
    requires forall k :: 0 <= k < |rs| ==> rs[k].text != ""
    ensures SpliceAll(lines, rs) != []
    decreases |rs|
  {
    if rs == [] {
    } else {
      SplicesNonEmpty(Splice(lines, rs[0]), rs[1..]);
    }
  }

  lemma JoinedLines(before: string, rs: seq<Replacement>)
    requires forall k :: 0 <= k < |rs| ==> rs[k].text != ""
    ensures SplitLines(RenderedText(before, rs)) == SpliceAll(SplitLines(before), SortDown(rs))
  {
    hide SplitLines, Splice, Insert;
    var lines, sorted := SplitLines(before), SortDown(rs);
    if rs == [] {
    } else {
      var ls := SpliceAll(lines, sorted);
      forall k | 0 <= k < |sorted|
        ensures sorted[k].text != ""
      {
        SortMember(rs, sorted[k]);
        assert sorted[k] in rs;
      }
      SortMember(rs, rs[0]);
      TextSafe(before);
      SplicesSafe(lines, sorted);
      SplicesNonEmpty(lines, sorted);
      JoinIsUnlines(ls);
      SplitUnlines(ls, "");
      assert Unlines(ls) + "" == Unlines(ls);
      EmptySplit();
    }
  }

  lemma EmptySplit()
    ensures SplitLines("") == []
  {
  }

  /** The lines of a rendered file, for every body: the one-pass overlay of the old file's lines,
      which is the plain one-pass replacement while no statement binds two edited symbols. */
  lemma RenderedLines(before: string, body: seq<Assign>, candidate: map<string, string>, literal: string -> string)
    requires WellParsed(body, |SplitLines(before)|)
    ensures var lines, rs := SplitLines(before), Replacements(body, candidate, literal);
            && SplitLines(RenderedText(before, rs)) == Pass(lines, body, candidate, literal, 0)
            && (OneEach(body, candidate, literal) ==>
                  Ordered(rs, 0, |lines|) && Pass(lines, body, candidate, literal, 0) == Forward(lines, rs, 0))
            && (if rs == [] then RenderedText(before, rs) == before
                else RenderedText(before, rs) != "" && RenderedText(before, rs)[|RenderedText(before, rs)| - 1] == '\n')
  {
    hide SplitLines, Pass, Splice, Forward;
    var lines, rs := SplitLines(before), Replacements(body, candidate, literal);
    forall k | 0 <= k < |rs|
      ensures rs[k].text != ""
    {
      ReplacementsNonEmpty(body, candidate, literal, k);
    }
    JoinedLines(before, rs);
    SplicesAreOnePass(lines, body, candidate, literal, 0);
    if OneEach(body, candidate, literal) {
      ReplacementsOrdered(body, candidate, literal, |lines|);
      SortReverses(rs, 0, |lines|);
      BackToFrontIsForward(lines, rs, 0);
    }
  }

  /** How many of the lines behind a range the second splice takes. */
  function Lost(height: nat, first: nat, behind: nat): nat {
    Min(Max(height - first, 0), behind)
  }

  /** What a statement that binds both edited symbols becomes: its range is spliced twice, so the
      second text replaces as many lines of the first text and of what follows as the range had.
      The lines behind the range survive exactly when the first text is as tall as the range, or
      nothing follows. */
  lemma SharedRangeLoses(lines: seq<string>, first: Replacement, second: Replacement)
    requires 1 <= first.start <= first.end <= |lines| && second.start == first.start && second.end == first.end
    ensures var h, rest := first.end - first.start + 1, lines[first.end..];
            var t1, t2 := SplitLines(first.text), SplitLines(second.text);
            var lost := Lost(h, |t1|, |rest|);
            && SpliceAll(lines, [first, second])
               == lines[..first.start - 1] + (t2 + (t1[Min(h, |t1|)..] + rest[lost..]))
            && (lost == 0 <==> |t1| >= h || rest == [])
  {
    hide *;
    var pre, seg, h := lines[..first.start - 1], lines[first.start - 1..], first.end - first.start + 1;
    var t1, rest := SplitLines(first.text), lines[first.end..];
    LostNothingIff(h, |t1|, |rest|);
    assert lines == pre + seg && seg[Min(h, |seg|)..] == rest;
    SplicedTwice(pre, seg, first, second, h);
    OverlapTail(t1, rest, h);
  }

  lemma SplicedTwice(pre: seq<string>, seg: seq<string>, first: Replacement, second: Replacement, h: nat)
    requires first.start == second.start == |pre| + 1 && first.end == second.end == |pre| + h
    ensures var t1, t2, rest := SplitLines(first.text), SplitLines(second.text), seg[Min(h, |seg|)..];
            SpliceAll(pre + seg, [first, second]) == pre + (t2 + (t1 + rest)[Min(h, |t1 + rest|)..])
  {
    hide *;
    SpliceTwice(pre + seg, first, second);
    SpliceAtPrefix(pre, seg, first, h);
    SpliceAtPrefix(pre, SplitLines(first.text) + seg[Min(h, |seg|)..], second, h);
  }

  lemma LostNothingIff(height: nat, first: nat, behind: nat)
    ensures Lost(height, first, behind) == 0 <==> first >= height || behind == 0
    ensures Lost(height, first, behind) <= behind
  {
  }

  lemma SpliceTwice(lines: seq<string>, a: Replacement, b: Replacement)
    ensures SpliceAll(lines, [a, b]) == Splice(Splice(lines, a), b)
  {
    hide Splice;
    SpliceLast(lines, [], a);
    SpliceLast(lines, [a], b);
    assert [] + [a] == [a] && [a] + [b] == [a, b];
  }

  lemma OverlapTail(t1: seq<string>, rest: seq<string>, h: nat)
    ensures (t1 + rest)[Min(h, |t1 + rest|)..] == t1[Min(h, |t1|)..] + rest[Lost(h, |t1|, |rest|)..]
  {
    assert Min(h, |t1 + rest|) == Min(h, |t1|) + Lost(h, |t1|, |rest|);
  }
}
