/** What the legacy parser does with files that the printer did not write: entries without
    separators, indented lines, continued clauses, and entries that contradict themselves. */
module MemoryBlocks {
  import opened Common
  import opened MemoryText
  import opened MemoryFormat
  import opened MemoryIndex
  import opened MemoryNorm

  // ---------- where blocks end ----------

  /** A separator closes the block before it and belongs to none. */
  lemma {:induction false} BlocksAtSeparator(a: seq<string>, line: string, b: seq<string>, current: seq<string>)
    requires IsSeparator(line)
    ensures BlocksFrom(a + [line] + b, current) == BlocksFrom(a, current) + BlocksFrom(b, [])
  {
    hide IsSeparator, IsHeading;
    if a == [] {
      assert a + [line] + b == [line] + b && ([line] + b)[1..] == b;
      BlocksStep([line] + b, current);
    } else {
      var all := a + [line] + b;
      assert all[0] == a[0] && all[1..] == a[1..] + [line] + b;
      BlocksStep(all, current);
      BlocksStep(a, current);
      BlocksAtSeparator(a[1..], line, b, OpenAfter(a[0], current));
      Assoc(ClosedBy(a[0], current), BlocksFrom(a[1..], OpenAfter(a[0], current)), BlocksFrom(b, []));
    }
  }

  /** A heading closes the block before it and opens the next one. */
  lemma {:induction false} BlocksAtHeading(a: seq<string>, line: string, b: seq<string>, current: seq<string>)
    requires IsHeading(line) && !IsSeparator(line)
    ensures BlocksFrom(a + [line] + b, current) == BlocksFrom(a, current) + BlocksFrom(b, [line])
  {
    hide IsSeparator, IsHeading;
    if a == [] {
      assert a + [line] + b == [line] + b && ([line] + b)[1..] == b;
      BlocksStep([line] + b, current);
      assert [] + [line] == [line];
    } else {
      var all := a + [line] + b;
      assert all[0] == a[0] && all[1..] == a[1..] + [line] + b;
      BlocksStep(all, current);
      BlocksStep(a, current);
      BlocksAtHeading(a[1..], line, b, OpenAfter(a[0], current));
      Assoc(ClosedBy(a[0], current), BlocksFrom(a[1..], OpenAfter(a[0], current)), BlocksFrom(b, [line]));
    }
  }

  /** Any other lines stay together. */
  lemma PlainBlock(ls: seq<string>, current: seq<string>)
    requires forall k :: 0 <= k < |ls| ==> !IsSeparator(ls[k]) && !IsHeading(ls[k])
    ensures BlocksFrom(ls, current) == if current + ls == [] then [] else [current + ls]
  {
    hide IsSeparator, IsHeading;
    BlocksPlain(ls, [], current);
    assert ls + [] == ls;
  }

  // ---------- indentation ----------

  /** No recogniser minds white space in front of a line, and the separator none behind it. */
  lemma IndentIgnored(gap: string, line: string)
    requires AllSpace(gap)
    ensures MatchScope(gap + line) == MatchScope(line) && MatchValidated(gap + line) == MatchValidated(line)
    ensures MatchClause(gap + line) == MatchClause(line) && MatchQuote(gap + line) == MatchQuote(line)
    ensures IsHeading(gap + line) == IsHeading(line) && IsSeparator(gap + line) == IsSeparator(line)
  {
    hide IsSpace, AllSpace;
    LStripSpaces(gap);
    LStripOver(gap, line);
  }

  // ---------- continued clauses ----------

  function Quotes(parts: seq<string>): (ls: seq<string>)
    ensures |ls| == |parts| && forall k :: 0 <= k < |ls| ==> ls[k] == ">" + (" " + parts[k])
  {
    seq(|parts|, k requires 0 <= k < |parts| => ">" + (" " + parts[k]))
  }

  function NotBlank(part: string): Option<string> {
    if Strip(part) == "" then None else Some(Strip(part))
  }

  lemma QuoteRead(part: string)
    ensures MatchQuote(">" + (" " + part)) == Some(Strip(part))
  {
    WordHere(">", " " + part);
    StripSpaceFirst(part);
  }

  lemma {:induction false} ContinuationReads(parts: seq<string>, rest: seq<string>)
    requires rest == [] || MatchQuote(rest[0]) == None
    ensures Continuation(Quotes(parts) + rest) == Kept(parts, NotBlank)
  {
    hide MatchQuote, Strip, Kept;
    if parts == [] {
      assert Quotes(parts) + rest == rest;
      NothingKept();
    } else {
      var all := Quotes(parts) + rest;
      QuoteRead(parts[0]);
      assert all[0] == ">" + (" " + parts[0]) && all[1..] == Quotes(parts[1..]) + rest;
      ContinuationReads(parts[1..], rest);
      KeptFront(parts, NotBlank);
    }
  }

  lemma NothingKept()
    ensures Kept<string, string>([], NotBlank) == []
  {
  }

  /** The clause of a block is what follows its first marker and the quoted lines directly behind it:
      the parts that are not blank, stripped, and joined by single spaces. */
  lemma ContinuedClause(before: seq<string>, first: string, parts: seq<string>, rest: seq<string>) returns (ix: seq<nat>, said: seq<string>)
    requires forall k :: 0 <= k < |before| ==> MatchClause(before[k]) == None
    requires rest == [] || MatchQuote(rest[0]) == None
    ensures Picks([first] + parts, said, ix, (p: string) => if Strip(p) == "" then None else Some(Strip(p)))
    ensures FirstClause(before + ([ClauseLine(first)] + (Quotes(parts) + rest))) == Strip(JoinWords(said))
  {
    hide MatchClause, MatchQuote, Strip, JoinWords, ClauseLine, Kept, Continuation;
    said := Kept([first] + parts, NotBlank);
    ix := KeptPicks([first] + parts, NotBlank);
    var lines := [ClauseLine(first)] + (Quotes(parts) + rest);
    FirstClauseSkips(before, lines);
    ClauseOnly(first);
    assert lines[0] == ClauseLine(first) && lines[1..] == Quotes(parts) + rest;
    ContinuationReads(parts, rest);
    KeptFront([first] + parts, NotBlank);
    assert ([first] + parts)[1..] == parts;
  }

  // ---------- entries that count ----------

  /** Line k is the only one that is recognised, and it says v. */
  predicate OnlyAt<T(==)>(lines: seq<string>, k: nat, recognise: string -> Option<T>, v: T) {
    k < |lines| && forall i :: 0 <= i < |lines| ==> recognise(lines[i]) == if i == k then Some(v) else None
  }

  lemma {:induction false} ValidationsKept(lines: seq<string>)
    ensures Validations(lines) == Kept(lines, MatchValidated)
  {
    hide MatchValidated;
    if lines == [] {
    } else {
      ValidationsKept(lines[1..]);
      KeptFront(lines, MatchValidated);
    }
  }

  lemma {:induction false} ScopesKept(lines: seq<string>)
    ensures Scopes(lines) == Kept(lines, MatchScope)
  {
    hide MatchScope;
    if lines == [] {
    } else {
      ScopesKept(lines[1..]);
      KeptFront(lines, MatchScope);
    }
  }

  lemma KeptOneIff<T>(lines: seq<string>, recognise: string -> Option<T>, v: T)
    ensures Kept(lines, recognise) == [v] <==> exists k: nat :: OnlyAt(lines, k, recognise, v)
  {
    hide Kept;
    var ix := KeptPicks(lines, recognise);
    var out := Kept(lines, recognise);
    if out == [v] {
      assert ix[0] in ix;
      forall i | 0 <= i < |lines|
        ensures recognise(lines[i]) == if i == ix[0] then Some(v) else None
      {
        assert i in ix <==> i == ix[0];
      }
      assert OnlyAt(lines, ix[0], recognise, v);
    }
    if k: nat :| OnlyAt(lines, k, recognise, v) {
      assert Ascending([k], |lines|) && [k][0] == k;
      assert Picks(lines, [v], [k], recognise);
      PicksKept(lines, [v], [k], recognise);
    }
  }

  /** A block counts for a scope exactly when it has one verdict and one scope line, they say yes and
      that scope, and its clause is not blank: an entry that contradicts or repeats itself is left out. */
  lemma BlockContributes(lines: seq<string>, model: string, hash: string)
    ensures BlockClauses(lines, model, hash) ==
            var clause := FirstClause(SplitLines(Join(lines)));
            if (exists k: nat :: OnlyAt(lines, k, MatchValidated, YES))
               && (exists k: nat :: OnlyAt(lines, k, MatchScope, (model, hash))) && clause != ""
            then [clause] else []
  {
    hide Validations, Scopes, FirstClause, SplitLines, Join, OnlyAt, Kept;
    ValidationsKept(lines);
    ScopesKept(lines);
    KeptOneIff(lines, MatchValidated, YES);
    KeptOneIff(lines, MatchScope, (model, hash));
  }
}
