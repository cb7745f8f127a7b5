/** Which rendered candidates pass the surface check, for every body: statements that bind both
    edited symbols are turned into one replacement each, and the condition is told from those. */
module DefenseOutcome {
  import opened Common
  import opened MemoryText
  import opened DefenseValidator
  import opened DefenseCandidate

  // ---------- what is left behind a splice ----------

  /** Some lines, and then the one-pass replacement from a position on. */
  datatype Rest = Rest(extra: seq<string>, from: nat, rs: seq<Replacement>)

  predicate Fits(lines: seq<string>, r: Rest) {
    Ordered(r.rs, r.from, |lines|)
  }

  function Meaning(lines: seq<string>, r: Rest): seq<string>
    requires Fits(lines, r)
  {
    r.extra + Forward(lines, r.rs, r.from)
  }

  /** The one-pass replacement without its first n lines. */
  function Drop(lines: seq<string>, rs: seq<Replacement>, from: nat, n: nat): (r: Rest)
    requires Ordered(rs, from, |lines|) && n <= |Forward(lines, rs, from)|
    ensures Fits(lines, r) && r.from >= from
  {
    if rs == [] then Rest([], from + n, [])
    else
      var gap := rs[0].start - 1 - from;
      var text := SplitLines(rs[0].text);
      if n <= gap then Rest([], from + n, rs)
      else if n - gap <= |text| then Rest(text[n - gap..], rs[0].end, rs[1..])
      else Drop(lines, rs[1..], rs[0].end, n - gap - |text|)
  }

  lemma {:induction false} DropMeans(lines: seq<string>, rs: seq<Replacement>, from: nat, n: nat)
    requires Ordered(rs, from, |lines|) && n <= |Forward(lines, rs, from)|
    ensures Meaning(lines, Drop(lines, rs, from, n)) == Forward(lines, rs, from)[n..]
  {
    hide SplitLines, Forward, Drop, Meaning;
    if rs == [] {
      ForwardNothing(lines, from);
      DropNothing(lines, from, n);
    } else {
      var head, text, tail := lines[from..rs[0].start - 1], SplitLines(rs[0].text), Forward(lines, rs[1..], rs[0].end);
      ForwardFirst(lines, rs, from);
      DropFirst(lines, rs, from, n);
      if n <= |head| {
        ForwardEarlier(lines, rs, from, from + n);
        JustMeans(lines, Rest([], from + n, rs));
        assert (lines[from..from + n] + Forward(lines, rs, from + n))[n..] == Forward(lines, rs, from + n);
      } else if n - |head| <= |text| {
        JustMeans(lines, Rest(text[n - |head|..], rs[0].end, rs[1..]));
        assert (head + text + tail)[n..] == text[n - |head|..] + tail;
      } else {
        DropMeans(lines, rs[1..], rs[0].end, n - |head| - |text|);
        assert (head + text + tail)[n..] == tail[n - |head| - |text|..];
      }
    }
  }

  lemma JustMeans(lines: seq<string>, r: Rest)
    requires Fits(lines, r)
    ensures Meaning(lines, r) == r.extra + Forward(lines, r.rs, r.from)
    ensures r.extra == [] ==> Meaning(lines, r) == Forward(lines, r.rs, r.from)
  {
    hide Forward;
    assert [] + Forward(lines, r.rs, r.from) == Forward(lines, r.rs, r.from);
  }

  lemma ForwardNothing(lines: seq<string>, from: nat)
    requires from <= |lines|
    ensures Forward(lines, [], from) == lines[from..]
  {
  }

  lemma DropFirst(lines: seq<string>, rs: seq<Replacement>, from: nat, n: nat)
    requires Ordered(rs, from, |lines|) && rs != [] && n <= |Forward(lines, rs, from)|
    ensures var gap, text := rs[0].start - 1 - from, SplitLines(rs[0].text);
            && (n - gap > |text| ==> n - gap - |text| <= |Forward(lines, rs[1..], rs[0].end)|)
            && Drop(lines, rs, from, n) ==
                 if n <= gap then Rest([], from + n, rs)
                 else if n - gap <= |text| then Rest(text[n - gap..], rs[0].end, rs[1..])
                 else Drop(lines, rs[1..], rs[0].end, n - gap - |text|)
  {
    hide SplitLines;
  }

  lemma DropNothing(lines: seq<string>, from: nat, n: nat)
    requires from <= |lines| && n <= |lines[from..]|
    ensures Meaning(lines, Drop(lines, [], from, n)) == Forward(lines, [], from)[n..]
  {
  }

  /** One text laid over the first h lines. */
  function LaidOver(lines: seq<string>, r: Rest, text: seq<string>, h: nat): (next: Rest)
    requires Fits(lines, r)
    ensures Fits(lines, next) && next.from >= r.from
  {
    if h <= |r.extra| then Rest(text + r.extra[h..], r.from, r.rs)
    else
      var d := Drop(lines, r.rs, r.from, Min(h - |r.extra|, |Forward(lines, r.rs, r.from)|));
      Rest(text + d.extra, d.from, d.rs)
  }

  lemma LaidOverMeans(lines: seq<string>, r: Rest, text: seq<string>, h: nat)
    requires Fits(lines, r)
    ensures var seg := Meaning(lines, r);
            Meaning(lines, LaidOver(lines, r, text, h)) == text + seg[Min(h, |seg|)..]
  {
    hide Forward, Drop, Ordered;
    var f := Forward(lines, r.rs, r.from);
    var seg := r.extra + f;
    if h <= |r.extra| {
      assert seg[h..] == r.extra[h..] + f;
    } else {
      var n := Min(h - |r.extra|, |f|);
      DropMeans(lines, r.rs, r.from, n);
      assert seg[|r.extra| + n..] == f[n..];
    }
  }

  function OverlayRest(lines: seq<string>, r: Rest, texts: seq<Replacement>, h: nat): (next: Rest)
    requires Fits(lines, r)
    ensures Fits(lines, next) && next.from >= r.from
    decreases |texts|
  {
    if texts == [] then r
    else OverlayRest(lines, LaidOver(lines, r, SplitLines(texts[0].text), h), texts[1..], h)
  }

  lemma {:induction false} OverlayMeans(lines: seq<string>, r: Rest, texts: seq<Replacement>, h: nat)
    requires Fits(lines, r)
    ensures Meaning(lines, OverlayRest(lines, r, texts, h)) == Overlay(Meaning(lines, r), texts, h)
    decreases |texts|
  {
    hide Meaning, LaidOver, SplitLines, Fits;
    if texts == [] {
    } else {
      var text := SplitLines(texts[0].text);
      LaidOverMeans(lines, r, text, h);
      OverlayMeans(lines, LaidOver(lines, r, text, h), texts[1..], h);
    }
  }

  // ---------- lines without breaks ----------

  predicate AllTextSafe(r: Rest) {
    AllSafe(r.extra)
  }

  lemma {:induction false} DropSafe(lines: seq<string>, rs: seq<Replacement>, from: nat, n: nat)
    requires Ordered(rs, from, |lines|) && n <= |Forward(lines, rs, from)|
    ensures AllTextSafe(Drop(lines, rs, from, n))
  {
    hide SplitLines, LineSafe;
    if rs == [] {
    } else {
      var gap := rs[0].start - 1 - from;
      var text := SplitLines(rs[0].text);
      TextSafe(rs[0].text);
      if n > gap && n - gap > |text| {
        DropSafe(lines, rs[1..], rs[0].end, n - gap - |text|);
      }
    }
  }

  lemma {:induction false} OverlaySafe(lines: seq<string>, r: Rest, texts: seq<Replacement>, h: nat)
    requires Fits(lines, r) && AllTextSafe(r)
    ensures AllTextSafe(OverlayRest(lines, r, texts, h))
    decreases |texts|
  {
    hide SplitLines, Drop, Forward, LineSafe, Ordered;
    if texts == [] {
    } else {
      var text := SplitLines(texts[0].text);
      TextSafe(texts[0].text);
      if h > |r.extra| {
        DropSafe(lines, r.rs, r.from, Min(h - |r.extra|, |Forward(lines, r.rs, r.from)|));
      }
      OverlaySafe(lines, LaidOver(lines, r, text, h), texts[1..], h);
    }
  }

  // ---------- the effective replacements ----------

  /** What the texts of one statement and of the later ones amount to. */
  function Merged(lines: seq<string>, a: Assign, edits: seq<Replacement>, later: seq<Replacement>): (rs: seq<Replacement>)
    requires 1 <= a.start <= a.end <= |lines| && Ordered(later, a.end, |lines|)
  {
    if edits == [] then later
    else
      var r := OverlayRest(lines, Rest(lines[a.start - 1..a.end], a.end, later), edits, a.end - a.start + 1);
      [Replacement(a.start, r.from, Unlines(r.extra))] + r.rs
  }

  lemma MergedOrdered(lines: seq<string>, a: Assign, edits: seq<Replacement>, later: seq<Replacement>, from: nat)
    requires from < a.start <= a.end <= |lines| && Ordered(later, a.end, |lines|)
    ensures Ordered(Merged(lines, a, edits, later), from, |lines|)
  {
    hide OverlayRest;
    if edits == [] {
      OrderedEarlier(later, from, a.end, |lines|);
    } else {
      var r := OverlayRest(lines, Rest(lines[a.start - 1..a.end], a.end, later), edits, a.end - a.start + 1);
      assert ([Replacement(a.start, r.from, Unlines(r.extra))] + r.rs)[1..] == r.rs;
    }
  }

  lemma OrderedEarlier(rs: seq<Replacement>, from: nat, to: nat, n: nat)
    requires Ordered(rs, to, n) && from <= to
    ensures Ordered(rs, from, n) && to <= n
  {
  }

  /** One replacement for each edited statement, whatever it binds, in the order of the file. */
  function Effective(lines: seq<string>, body: seq<Assign>, candidate: map<string, string>, literal: string -> string, from: nat):
    (rs: seq<Replacement>)
    requires WellParsed(body, |lines|) && from <= |lines| && (body != [] ==> from < body[0].start)
    ensures Ordered(rs, from, |lines|)
  {
    if body == [] then []
    else
      var a := body[0];
      var later := Effective(lines, body[1..], candidate, literal, a.end);
      MergedOrdered(lines, a, SortDown(Edits(a, candidate, literal)), later, from);
      Merged(lines, a, SortDown(Edits(a, candidate, literal)), later)
  }

  lemma ForwardEarlier(lines: seq<string>, rs: seq<Replacement>, from: nat, to: nat)
    requires Ordered(rs, to, |lines|) && from <= to
    ensures Ordered(rs, from, |lines|) && Forward(lines, rs, from) == lines[from..to] + Forward(lines, rs, to)
  {
    hide SplitLines, Ordered;
    OrderedEarlier(rs, from, to, |lines|);
    if rs == [] {
      NothingForward(lines, from, to);
    } else {
      OrderedTail(rs, to, |lines|);
      ForwardFirst(lines, rs, from);
      ForwardFirst(lines, rs, to);
      hide Forward;
      SplitHead(lines[from..to], lines[to..rs[0].start - 1], SplitLines(rs[0].text), Forward(lines, rs[1..], rs[0].end));
      assert lines[from..rs[0].start - 1] == lines[from..to] + lines[to..rs[0].start - 1];
    }
  }

  lemma NothingForward(lines: seq<string>, from: nat, to: nat)
    requires from <= to <= |lines|
    ensures Forward(lines, [], from) == lines[from..to] + Forward(lines, [], to)
  {
  }

  lemma ForwardFirst(lines: seq<string>, rs: seq<Replacement>, from: nat)
    requires Ordered(rs, from, |lines|) && rs != []
    ensures from < rs[0].start <= rs[0].end <= |lines| && Ordered(rs[1..], rs[0].end, |lines|)
    ensures Forward(lines, rs, from) ==
            lines[from..rs[0].start - 1] + SplitLines(rs[0].text) + Forward(lines, rs[1..], rs[0].end)
  {
    hide SplitLines;
  }

  lemma SplitHead(a: seq<string>, b: seq<string>, c: seq<string>, d: seq<string>)
    ensures a + b + c + d == a + (b + c + d)
  {
  }

  lemma MergedMeans(lines: seq<string>, a: Assign, edits: seq<Replacement>, later: seq<Replacement>, from: nat)
    requires from < a.start <= a.end <= |lines| && Ordered(later, a.end, |lines|) && AllSafe(lines)
    ensures Ordered(Merged(lines, a, edits, later), from, |lines|)
    ensures Forward(lines, Merged(lines, a, edits, later), from) ==
            lines[from..a.start - 1]
            + Overlay(lines[a.start - 1..a.end] + Forward(lines, later, a.end), edits, a.end - a.start + 1)
  {
    hide OverlayRest, SplitLines, LineSafe, Overlay;
    MergedOrdered(lines, a, edits, later, from);
    if edits == [] {
      NoOverlay(lines[a.start - 1..a.end] + Forward(lines, later, a.end), a.end - a.start + 1);
      ForwardEarlier(lines, later, from, a.end);
      assert lines[from..a.end] == lines[from..a.start - 1] + lines[a.start - 1..a.end];
    } else {
      var start := Rest(lines[a.start - 1..a.end], a.end, later);
      var r := OverlayRest(lines, start, edits, a.end - a.start + 1);
      OverlayMeans(lines, start, edits, a.end - a.start + 1);
      OverlaySafe(lines, start, edits, a.end - a.start + 1);
      SplitUnlined(r.extra);
      assert ([Replacement(a.start, r.from, Unlines(r.extra))] + r.rs)[1..] == r.rs;
    }
  }

  lemma NoOverlay(seg: seq<string>, h: nat)
    ensures Overlay(seg, [], h) == seg
  {
  }

  lemma SplitUnlined(ls: seq<string>)
    requires AllSafe(ls)
    ensures SplitLines(Unlines(ls)) == ls
  {
    SplitUnlines(ls, "");
    EmptySplit();
    assert Unlines(ls) + "" == Unlines(ls);
  }

  /** For every body the rendered lines are the one-pass replacement by the effective list. */
  lemma {:induction false} PassIsForward(lines: seq<string>, body: seq<Assign>, candidate: map<string, string>, literal: string -> string, from: nat)
    requires WellParsed(body, |lines|) && from <= |lines| && (body != [] ==> from < body[0].start) && AllSafe(lines)
    ensures Pass(lines, body, candidate, literal, from) == Forward(lines, Effective(lines, body, candidate, literal, from), from)
  {
    hide *;
    if body == [] {
      NothingEffective(lines, candidate, literal, from);
    } else {
      var a := body[0];
      PassUnfolds(lines, body, candidate, literal, from);
      PassIsForward(lines, body[1..], candidate, literal, a.end);
      var later := Effective(lines, body[1..], candidate, literal, a.end);
      MergedMeans(lines, a, SortDown(Edits(a, candidate, literal)), later, from);
      EffectiveUnfolds(lines, body, candidate, literal, from);
    }
  }

  lemma NothingEffective(lines: seq<string>, candidate: map<string, string>, literal: string -> string, from: nat)
    requires from <= |lines|
    ensures Pass(lines, [], candidate, literal, from) == Forward(lines, Effective(lines, [], candidate, literal, from), from)
  {
  }

  lemma EffectiveUnfolds(lines: seq<string>, body: seq<Assign>, candidate: map<string, string>, literal: string -> string, from: nat)
    requires WellParsed(body, |lines|) && body != [] && from < body[0].start
    requires WellParsed(body[1..], |lines|) && (body[1..] != [] ==> body[0].end < body[1..][0].start)
    ensures var a := body[0];
            var later := Effective(lines, body[1..], candidate, literal, a.end);
            Effective(lines, body, candidate, literal, from) == Merged(lines, a, SortDown(Edits(a, candidate, literal)), later)
  {
    hide Merged, SortDown, Edits, Ordered;
  }

  // ---------- which candidates pass ----------

  lemma MutableBounds(body: seq<Assign>, n: nat, allowed: set<nat>)
    requires WellParsed(body, n) && forall l: nat :: l in allowed <==> Allowed(body, l)
    ensures forall l :: l in allowed ==> 1 <= l <= n
  {
    forall l | l in allowed
      ensures 1 <= l <= n
    {
      assert Allowed(body, l);
      var i: nat :| i < |body| && AllowedBy(body[i], l);
    }
  }

  lemma RangesMutable(body: seq<Assign>, candidate: map<string, string>, literal: string -> string, allowed: set<nat>)
    requires forall n :: n in candidate ==> IsMutable(n)
    requires forall l: nat :: l in allowed <==> Allowed(body, l)
    ensures RangesIn(Replacements(body, candidate, literal), allowed)
  {
    var rs := Replacements(body, candidate, literal);
    forall i, l | 0 <= i < |rs| && rs[i].start <= l <= rs[i].end
      ensures l in allowed
    {
      assert Within(rs[i], l);
      ReplacementsAllowed(body, candidate, literal, i, l);
    }
  }

  lemma RenderedIsForward(before: string, body: seq<Assign>, candidate: map<string, string>, literal: string -> string)
    requires WellParsed(body, |SplitLines(before)|)
    ensures SplitLines(RenderedText(before, Replacements(body, candidate, literal))) ==
            Forward(SplitLines(before), Effective(SplitLines(before), body, candidate, literal, 0), 0)
  {
    hide SplitLines, Pass, Forward, Replacements, Effective;
    RenderedLines(before, body, candidate, literal);
    TextSafe(before);
    PassIsForward(SplitLines(before), body, candidate, literal, 0);
  }

  /** Exactly which candidates pass, for every body, told from the old file and the effective
      replacements: the file does not grow, the lines it loses at the end are mutable, every line
      lands on a mutable or an equal line, and something changes. */
  lemma RenderedPasses(before: string, body: seq<Assign>, candidate: map<string, string>, literal: string -> string, allowed: set<nat>)
    requires WellParsed(body, |SplitLines(before)|)
    requires forall l: nat :: l in allowed <==> Allowed(body, l)
    ensures var lines := SplitLines(before);
            var rs := Effective(lines, body, candidate, literal, 0);
            var after := SplitLines(RenderedText(before, Replacements(body, candidate, literal)));
            && |after| == |lines| + Growth(rs)
            && (SurfaceOnly(lines, after, allowed) <==>
                  && Growth(rs) <= 0 && TailMutable(lines, Growth(rs), allowed) && AllLand(lines, rs, allowed)
                  && !(Growth(rs) == 0 && AllLand(lines, rs, {})))
  {
    hide SplitLines, AllLand, Forward, SurfaceOnly, Replacements, Effective;
    var lines := SplitLines(before);
    var rs := Effective(lines, body, candidate, literal, 0);
    RenderedIsForward(before, body, candidate, literal);
    MutableBounds(body, |lines|, allowed);
    ForwardLength(lines, rs, 0);
    PassesIff(lines, rs, allowed);
  }

  /** In a file whose last line is not mutable, every candidate that shortens the file is refused,
      although it edits nothing but mutable symbols. */
  lemma ShorterEditRefused(before: string, body: seq<Assign>, candidate: map<string, string>, literal: string -> string, allowed: set<nat>)
    requires WellParsed(body, |SplitLines(before)|)
    requires forall l: nat :: l in allowed <==> Allowed(body, l)
    requires |SplitLines(before)| !in allowed
    requires |SplitLines(RenderedText(before, Replacements(body, candidate, literal)))| < |SplitLines(before)|
    ensures !SurfaceOnly(SplitLines(before), SplitLines(RenderedText(before, Replacements(body, candidate, literal))), allowed)
  {
    hide SplitLines, AllLand, SurfaceOnly, Replacements, Effective;
    RenderedPasses(before, body, candidate, literal, allowed);
    assert !MutableAt(allowed, |SplitLines(before)| - 1);
  }

  // ---------- statements that bind one edited symbol ----------

  predicate SameEffect(r: Replacement, e: Replacement) {
    r.start == e.start && r.end == e.end && SplitLines(r.text) == SplitLines(e.text)
  }

  predicate SameEffects(rs: seq<Replacement>, es: seq<Replacement>) {
    |rs| == |es| && forall i :: 0 <= i < |rs| ==> SameEffect(rs[i], es[i])
  }

  lemma SameEffectsConcat(a: seq<Replacement>, b: seq<Replacement>, c: seq<Replacement>, d: seq<Replacement>)
    requires SameEffects(a, c) && SameEffects(b, d)
    ensures SameEffects(a + b, c + d)
  {
    hide SameEffect;
  }

  /** While no statement binds two edited symbols, the effective replacements are the edits. */
  lemma {:induction false} EffectiveIsEdits(lines: seq<string>, body: seq<Assign>, candidate: map<string, string>, literal: string -> string, from: nat)
    requires WellParsed(body, |lines|) && from <= |lines| && (body != [] ==> from < body[0].start) && AllSafe(lines)
    requires OneEach(body, candidate, literal)
    ensures var rs, eff := Replacements(body, candidate, literal), Effective(lines, body, candidate, literal, from);
            SameEffects(eff, rs)
  {
    hide *;
    if body == [] {
      NoEffects(lines, candidate, literal, from);
    } else {
      var a := body[0];
      OneEachFirst(body, candidate, literal);
      PassUnfolds(lines, body, candidate, literal, from);
      EffectiveUnfolds(lines, body, candidate, literal, from);
      EffectiveIsEdits(lines, body[1..], candidate, literal, a.end);
      ReplacementsCons(body, candidate, literal);
      var edits, later := Edits(a, candidate, literal), Effective(lines, body[1..], candidate, literal, a.end);
      MergedOne(lines, a, edits, later);
      var rs := Merged(lines, a, SortDown(edits), later);
      assert rs == rs[..|edits|] + later;
      SameEffectsConcat(rs[..|edits|], later, edits, Replacements(body[1..], candidate, literal));
    }
  }

  lemma NoEffects(lines: seq<string>, candidate: map<string, string>, literal: string -> string, from: nat)
    requires from <= |lines|
    ensures SameEffects(Effective(lines, [], candidate, literal, from), Replacements([], candidate, literal))
  {
  }

  lemma OneEachFirst(body: seq<Assign>, candidate: map<string, string>, literal: string -> string)
    requires OneEach(body, candidate, literal) && body != []
    ensures OneEach(body[1..], candidate, literal) && |Edits(body[0], candidate, literal)| <= 1
    ensures forall k :: 0 <= k < |Edits(body[0], candidate, literal)| ==>
              Edits(body[0], candidate, literal)[k].start == body[0].start && Edits(body[0], candidate, literal)[k].end == body[0].end
  {
    hide StatementReplacements;
  }

  lemma MergedOne(lines: seq<string>, a: Assign, edits: seq<Replacement>, later: seq<Replacement>)
    requires 1 <= a.start <= a.end <= |lines| && Ordered(later, a.end, |lines|) && |edits| <= 1
    requires forall k :: 0 <= k < |edits| ==> edits[k].start == a.start && edits[k].end == a.end
    ensures var rs := Merged(lines, a, SortDown(edits), later);
            |rs| == |edits| + |later| && rs[|edits|..] == later && SameEffects(rs[..|edits|], edits)
  {
    hide SplitLines, Ordered, Drop, OverlayRest, SortDown;
    SortOne(edits);
    if edits != [] {
      TextSafe(edits[0].text);
      SplitUnlined(SplitLines(edits[0].text));
      OverlayOne(lines, a, edits, later);
    }
  }

  lemma OverlayOne(lines: seq<string>, a: Assign, edits: seq<Replacement>, later: seq<Replacement>)
    requires 1 <= a.start <= a.end <= |lines| && Ordered(later, a.end, |lines|) && |edits| == 1
    ensures OverlayRest(lines, Rest(lines[a.start - 1..a.end], a.end, later), edits, a.end - a.start + 1)
            == Rest(SplitLines(edits[0].text), a.end, later)
  {
    hide SplitLines, Ordered, Drop, Forward;
    var text, seg := SplitLines(edits[0].text), lines[a.start - 1..a.end];
    assert seg[a.end - a.start + 1..] == [] && text + [] == text && edits[1..] == [];
  }

  lemma SortOne(edits: seq<Replacement>)
    requires |edits| <= 1
    ensures SortDown(edits) == edits
  {
    if edits != [] {
      assert edits[1..] == [] && edits == [edits[0]];
    }
  }

  /** A candidate that keeps the height of every assignment passes exactly when it changes a line. */
  lemma SameHeightsRendered(before: string, body: seq<Assign>, candidate: map<string, string>, literal: string -> string, allowed: set<nat>)
    requires WellParsed(body, |SplitLines(before)|) && OneEach(body, candidate, literal)
    requires forall n :: n in candidate ==> IsMutable(n)
    requires forall l: nat :: l in allowed <==> Allowed(body, l)
    requires SameHeights(Replacements(body, candidate, literal))
    ensures var lines, after := SplitLines(before), SplitLines(RenderedText(before, Replacements(body, candidate, literal)));
            |after| == |lines| && (SurfaceOnly(lines, after, allowed) <==> lines != after)
  {
    hide SplitLines, Forward, SurfaceOnly, Replacements;
    var lines, rs := SplitLines(before), Replacements(body, candidate, literal);
    RenderedLines(before, body, candidate, literal);
    RangesMutable(body, candidate, literal, allowed);
    MutableBounds(body, |lines|, allowed);
    SameHeightsPass(lines, rs, allowed);
  }

  // ---------- a statement that binds both ----------

  lemma {:induction false} TextBelowAt(a: string, b: string, k: nat)
    requires k < |a| && k < |b| && a[..k] == b[..k] && a[k] < b[k]
    ensures TextBelow(a, b) && !TextBelow(b, a)
  {
    if k == 0 {
    } else {
      assert a[0] == a[..k][0] && b[0] == b[..k][0];
      assert a[1..][..k - 1] == a[..k][1..] && b[1..][..k - 1] == b[..k][1..];
      TextBelowAt(a[1..], b[1..], k - 1);
    }
  }

  function EditOf(a: Assign, name: string, candidate: map<string, string>, literal: string -> string): Replacement
    requires name in candidate
  {
    Replacement(a.start, a.end, Assignment(name, candidate[name], literal))
  }

  /** The statement edits both symbols, in either order of its targets. */
  predicate BindsBoth(rs: seq<Replacement>, a: Assign, candidate: map<string, string>, literal: string -> string) {
    && SYSTEM_PROMPT in candidate && USER_TEMPLATE in candidate
    && var s, u := EditOf(a, SYSTEM_PROMPT, candidate, literal), EditOf(a, USER_TEMPLATE, candidate, literal);
       rs == [s, u] || rs == [u, s]
  }

  /** The user template sorts above the system prompt whatever the values, so it is spliced first
      and the system prompt is laid over it. */
  lemma UserTemplateFirst(rs: seq<Replacement>, a: Assign, candidate: map<string, string>, literal: string -> string)
    requires BindsBoth(rs, a, candidate, literal)
    ensures SortDown(rs) == [EditOf(a, USER_TEMPLATE, candidate, literal), EditOf(a, SYSTEM_PROMPT, candidate, literal)]
  {
    var s, u := EditOf(a, SYSTEM_PROMPT, candidate, literal), EditOf(a, USER_TEMPLATE, candidate, literal);
    NamesOrdered(s.text, u.text, candidate, literal);
    SortTwo(rs, s, u);
  }

  lemma NamesOrdered(s: string, u: string, candidate: map<string, string>, literal: string -> string)
    requires SYSTEM_PROMPT in candidate && USER_TEMPLATE in candidate
    requires s == Assignment(SYSTEM_PROMPT, candidate[SYSTEM_PROMPT], literal)
    requires u == Assignment(USER_TEMPLATE, candidate[USER_TEMPLATE], literal)
    ensures TextBelow(s, u) && !TextBelow(u, s)
  {
    assert s[..18] == SYSTEM_PROMPT[..18] && u[..18] == USER_TEMPLATE[..18];
    assert SYSTEM_PROMPT[..18] == USER_TEMPLATE[..18] == "DEFENSE_ARCHITECT_";
    assert s[18] == SYSTEM_PROMPT[18] == 'S' && u[18] == USER_TEMPLATE[18] == 'U';
    TextBelowAt(s, u, 18);
  }

  lemma SortTwo(rs: seq<Replacement>, s: Replacement, u: Replacement)
    requires rs == [s, u] || rs == [u, s]
    requires s.start == u.start && s.end == u.end && TextBelow(s.text, u.text) && !TextBelow(u.text, s.text)
    ensures SortDown(rs) == [u, s]
  {
    hide TextBelow;
    SortOne(rs[1..]);
    assert Insert(s, []) == [s] && [u][1..] == [];
    assert Insert(s, [u]) == [u] + Insert(s, []);
  }

  /** A file in which one statement binds both edited symbols and nothing else is edited: the
      system prompt's text stands, behind it what its height leaves of the user template's text,
      and the lines behind the range survive exactly when the user template's text is as tall as
      the range, or nothing follows. */
  lemma SharedStatementLoses(before: string, body: seq<Assign>, a: Assign, candidate: map<string, string>, literal: string -> string)
    requires WellParsed(body, |SplitLines(before)|) && a in body
    requires BindsBoth(Replacements(body, candidate, literal), a, candidate, literal)
    ensures var lines := SplitLines(before);
            var h, rest := a.end - a.start + 1, lines[a.end..];
            var s := SplitLines(EditOf(a, SYSTEM_PROMPT, candidate, literal).text);
            var u := SplitLines(EditOf(a, USER_TEMPLATE, candidate, literal).text);
            var lost := Lost(h, |u|, |rest|);
            && SplitLines(RenderedText(before, Replacements(body, candidate, literal)))
               == lines[..a.start - 1] + (s + (u[Min(h, |u|)..] + rest[lost..]))
            && (lost == 0 <==> |u| >= h || rest == [])
  {
    hide SplitLines, SortDown, Replacements, RenderedText, SpliceAll;
    var rs := Replacements(body, candidate, literal);
    forall k | 0 <= k < |rs|
      ensures rs[k].text != ""
    {
      ReplacementsNonEmpty(body, candidate, literal, k);
    }
    JoinedLines(before, rs);
    UserTemplateFirst(rs, a, candidate, literal);
    SharedRangeLoses(SplitLines(before), EditOf(a, USER_TEMPLATE, candidate, literal), EditOf(a, SYSTEM_PROMPT, candidate, literal));
  }

  // ---------- an example ----------

  function ExampleBody(): seq<Assign> {
    [Assign([SYSTEM_PROMPT], 1, 2), Assign([USER_TEMPLATE], 3, 3)]
  }

  /** Such candidates exist: any four lines of which the first two assign the system prompt and
      the third the user template, and any one-line literal for the new system prompt. */
  lemma ShorterEditOccurs(file: seq<string>, value: string, literal: string -> string, allowed: set<nat>)
    requires |file| == 4 && AllSafe(file) && LineSafe(literal(value))
    requires forall l: nat :: l in allowed <==> Allowed(ExampleBody(), l)
    ensures var before, candidate := Unlines(file), map[SYSTEM_PROMPT := value];
            var after := RenderedText(before, Replacements(ExampleBody(), candidate, literal));
            && SplitLines(before) == file
            && SplitLines(after) == [SYSTEM_PROMPT + " = " + literal(value), file[2], file[3]]
            && !SurfaceOnly(file, SplitLines(after), allowed)
  {
    hide SplitLines, Unlines, Replacements, Edits, StatementReplacements, Pass, Forward, Assignment, LineSafe, SurfaceOnly;
    var candidate, text := map[SYSTEM_PROMPT := value], Assignment(SYSTEM_PROMPT, value, literal);
    AssignmentText(SYSTEM_PROMPT, value, literal);
    ExampleFile(file);
    ExampleEdit(ExampleBody(), value, literal);
    RenderedLines(Unlines(file), ExampleBody(), candidate, literal);
    ExampleText(value, literal);
    ExampleForward(file, text);
    assert !Allowed(ExampleBody(), 4);
    ShorterEditRefused(Unlines(file), ExampleBody(), candidate, literal, allowed);
  }

  lemma AssignmentText(name: string, value: string, literal: string -> string)
    ensures Assignment(name, value, literal) == name + " = " + literal(value)
  {
  }

  lemma ExampleFile(file: seq<string>)
    requires AllSafe(file)
    ensures SplitLines(Unlines(file)) == file
  {
    SplitUnlines(file, "");
    EmptySplit();
    assert Unlines(file) + "" == Unlines(file);
  }

  lemma ExampleEdit(body: seq<Assign>, value: string, literal: string -> string)
    requires body == ExampleBody()
    ensures var candidate := map[SYSTEM_PROMPT := value];
            && Replacements(body, candidate, literal) == [Replacement(1, 2, Assignment(SYSTEM_PROMPT, value, literal))]
            && OneEach(body, candidate, literal)
  {
    var candidate := map[SYSTEM_PROMPT := value];
    assert SYSTEM_PROMPT[18] != USER_TEMPLATE[18] || |SYSTEM_PROMPT| != |USER_TEMPLATE|;
    OneName(body[0], SYSTEM_PROMPT, candidate, literal);
    OneName(body[1], USER_TEMPLATE, candidate, literal);
    ReplacementsCons(body, candidate, literal);
    ReplacementsCons(body[1..], candidate, literal);
    assert body[1..][1..] == [] && Replacements([], candidate, literal) == [];
  }

  lemma OneName(a: Assign, name: string, candidate: map<string, string>, literal: string -> string)
    requires a.names == [name]
    ensures Edits(a, candidate, literal) ==
            if name in candidate then [Replacement(a.start, a.end, Assignment(name, candidate[name], literal))] else []
  {
    assert a.names[..0] == [];
    assert StatementReplacements(a, [], candidate, literal) == [];
  }

  lemma ExampleText(value: string, literal: string -> string)
    requires LineSafe(literal(value))
    ensures var text := Assignment(SYSTEM_PROMPT, value, literal); SplitLines(text) == [text]
  {
    var text := Assignment(SYSTEM_PROMPT, value, literal);
    assert LineSafe(SYSTEM_PROMPT);
    SplitJoin([text]);
  }

  lemma ExampleForward(file: seq<string>, text: string)
    requires |file| == 4 && SplitLines(text) == [text]
    ensures Ordered([Replacement(1, 2, text)], 0, 4) && Growth([Replacement(1, 2, text)]) == -1
    ensures Forward(file, [Replacement(1, 2, text)], 0) == [text, file[2], file[3]]
  {
    assert [Replacement(1, 2, text)][1..] == [];
  }
}
