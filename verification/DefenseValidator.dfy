/** The surface check of the defense prompt validator: which lines a candidate changed, and
    whether all of them belong to the mutable symbols. */
module DefenseValidator {
  import opened Common
  import opened MemoryText

  const SYSTEM_PROMPT := "DEFENSE_ARCHITECT_SYSTEM_PROMPT"
  const USER_TEMPLATE := "DEFENSE_ARCHITECT_USER_TEMPLATE"

  /** A top-level assignment: the plain names it binds and its first and last line, from 1. */
  datatype Assign = Assign(names: seq<string>, start: nat, end: nat)

  predicate IsMutable(name: string) {
    name == SYSTEM_PROMPT || name == USER_TEMPLATE
  }

  predicate Between(start: nat, line: nat, end: nat) {
    start <= line <= end
  }

  /** The line belongs to an assignment of a mutable symbol. */
  ghost predicate Allowed(body: seq<Assign>, line: nat) {
    exists i: nat :: i < |body| && AllowedBy(body[i], line)
  }

  ghost predicate AllowedBy(a: Assign, line: nat) {
    Between(a.start, line, a.end) && exists j: nat :: j < |a.names| && IsMutable(a.names[j])
  }

  ghost predicate Assigned(body: seq<Assign>, name: string) {
    exists i: nat :: i < |body| && name in body[i].names
  }

  /** range(start, end + 1) as a set. */
  function LineRange(start: nat, end: nat): (lines: set<nat>)
    ensures forall l: nat :: l in lines <==> Between(start, l, end)
  {
    set l: nat | l <= end && Between(start, l, end)
  }

  /** The mutable lines, or nothing when a mutable symbol is missing. */
  method ExtractRanges(body: seq<Assign>) returns (allowed: Option<set<nat>>)
    ensures allowed.Some? <==> Assigned(body, SYSTEM_PROMPT) && Assigned(body, USER_TEMPLATE)
    ensures allowed.Some? ==> forall l: nat :: l in allowed.value <==> Allowed(body, l)
  {
    var lines: set<nat>, found: set<string> := {}, {};
    for i := 0 to |body|
      invariant forall l: nat :: l in lines <==> Allowed(body[..i], l)
      invariant forall n :: n in found <==> IsMutable(n) && Assigned(body[..i], n)
    {
      var more, names := AssignRange(body[i]);
      ExtendAllowed(body, i);
      lines, found := lines + more, found + names;
    }
    assert body[..|body|] == body;
    allowed := if SYSTEM_PROMPT in found && USER_TEMPLATE in found then Some(lines) else None;
  }

  lemma ExtendAllowed(body: seq<Assign>, i: nat)
    requires i < |body|
    ensures forall l: nat :: Allowed(body[..i + 1], l) <==> Allowed(body[..i], l) || AllowedBy(body[i], l)
    ensures forall n :: Assigned(body[..i + 1], n) <==> Assigned(body[..i], n) || n in body[i].names
  {
    var was, now := body[..i], body[..i + 1];
    forall l: nat
      ensures Allowed(now, l) <==> Allowed(was, l) || AllowedBy(body[i], l)
    {
      if Allowed(was, l) {
        var k: nat :| k < i && AllowedBy(was[k], l);
        assert AllowedBy(now[k], l);
      }
      if AllowedBy(body[i], l) { assert AllowedBy(now[i], l); }
    }
    forall n
      ensures Assigned(now, n) <==> Assigned(was, n) || n in body[i].names
    {
      if Assigned(was, n) {
        var k: nat :| k < i && n in was[k].names;
        assert n in now[k].names;
      }
      if n in body[i].names { assert n in now[i].names; }
    }
  }

  /** What one assignment adds. */
  method AssignRange(a: Assign) returns (lines: set<nat>, names: set<string>)
    ensures forall l: nat :: l in lines <==> AllowedBy(a, l)
    ensures forall n :: n in names <==> IsMutable(n) && n in a.names
  {
    lines, names := {}, {};
    for j := 0 to |a.names|
      invariant forall n :: n in names <==> IsMutable(n) && n in a.names[..j]
      invariant lines == if names == {} then {} else LineRange(a.start, a.end)
    {
      if IsMutable(a.names[j]) {
        names := names + {a.names[j]};
        lines := lines + LineRange(a.start, a.end);
      }
    }
    assert forall n :: n in names ==> exists j: nat :: j < |a.names| && a.names[j] == n;
  }

  // ---------- changed lines ----------

  function LineAt(ls: seq<string>, i: nat): Option<string> {
    if 1 <= i <= |ls| then Some(ls[i - 1]) else None
  }

  /** Line i, from 1, differs or exists on one side only. */
  predicate Changed(before: seq<string>, after: seq<string>, i: nat) {
    LineAt(before, i) != LineAt(after, i)
  }

  method ChangedLineNumbers(before: string, after: string) returns (changed: seq<nat>)
    ensures forall i: nat :: i in changed <==> Changed(SplitLines(before), SplitLines(after), i)
    ensures forall k, l :: 0 <= k < l < |changed| ==> changed[k] < changed[l]
  {
    var b, a := SplitLines(before), SplitLines(after);
    changed := [];
    for k := 0 to Max(|b|, |a|)
      invariant forall i: nat :: i in changed <==> i <= k && Changed(b, a, i)
      invariant forall i, j :: 0 <= i < j < |changed| ==> changed[i] < changed[j]
      invariant forall i :: 0 <= i < |changed| ==> changed[i] <= k
    {
      var index: nat := k + 1;
      if LineAt(b, index) != LineAt(a, index) {
        changed := changed + [index];
      }
    }
  }

  /** Something changed, and only inside the allowed lines. */
  ghost predicate SurfaceOnly(before: seq<string>, after: seq<string>, allowed: set<nat>) {
    && (exists i: nat :: Changed(before, after, i))
    && forall i: nat :: Changed(before, after, i) ==> i in allowed
  }

  method SurfaceCheck(before: string, after: string, allowed: set<nat>) returns (passed: bool)
    ensures passed <==> SurfaceOnly(SplitLines(before), SplitLines(after), allowed)
  {
    var changed := ChangedLineNumbers(before, after);
    passed := changed != [] && forall k :: 0 <= k < |changed| ==> changed[k] in allowed;
    if changed != [] { assert changed[0] in changed; }
    assert forall k :: 0 <= k < |changed| ==> changed[k] in changed;
  }

  lemma SomeChange(before: seq<string>, after: seq<string>)
    ensures before != after <==> exists i: nat :: Changed(before, after, i)
  {
    if before != after {
      if |before| == |after| {
        var k :| 0 <= k < |before| && before[k] != after[k];
        assert Changed(before, after, k + 1);
      } else {
        assert Changed(before, after, Max(|before|, |after|));
      }
    }
  }

  /** The two files agree on a line, which both have. */
  predicate SameLine(before: seq<string>, after: seq<string>, k: nat) {
    k < |before| && k < |after| && before[k] == after[k]
  }

  /** Exactly when the check passes: the files differ, the new one is no longer than the old,
      and they agree, line number by line number, outside the allowed lines. */
  lemma SurfaceIff(before: seq<string>, after: seq<string>, allowed: set<nat>)
    requires forall l :: l in allowed ==> 1 <= l <= |before|
    ensures SurfaceOnly(before, after, allowed) <==>
            && before != after && |after| <= |before|
            && forall k: nat :: k < |before| && k + 1 !in allowed ==> SameLine(before, after, k)
  {
    SomeChange(before, after);
    if SurfaceOnly(before, after, allowed) {
      if |after| > |before| { assert Changed(before, after, |after|); }
      forall k: nat | k < |before| && k + 1 !in allowed
        ensures SameLine(before, after, k)
      {
        assert !Changed(before, after, k + 1);
      }
    }
    if before != after && |after| <= |before|
       && (forall k: nat :: k < |before| && k + 1 !in allowed ==> SameLine(before, after, k))
    {
      forall i: nat | Changed(before, after, i)
        ensures i in allowed
      {
        assert 1 <= i <= |before|;
        assert i in allowed || SameLine(before, after, i - 1);
      }
    }
  }
}
