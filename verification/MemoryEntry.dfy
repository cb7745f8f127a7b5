/** What a reader of the Markdown file can get back from a printed entry. */
module MemoryEntry {
  import opened Common
  import opened MemoryText
  import opened MemoryFormat

  /** The parts of a text before and after the first occurrence of a mark. */
  function CutAt(s: string, mark: string): Option<(string, string)> {
    if mark <= s then Some(("", s[|mark|..]))
    else if s == "" then None
    else
      match CutAt(s[1..], mark)
      case None => None
      case Some((before, after)) => Some(([s[0]] + before, after))
  }

  predicate Lacks(s: string, c: char) {
    c !in s
  }

  /** A mark that starts with a blank and a bar is found behind any text without a bar. */
  lemma {:induction false} CutHere(a: string, mark: string, b: string)
    requires |mark| >= 2 && mark[0] == ' ' && mark[1] == '|' && Lacks(a, '|')
    ensures CutAt(a + mark + b, mark) == Some((a, b))
  {
    var s := a + mark + b;
    if a == "" {
      assert mark <= s && s[|mark|..] == b;
    } else {
      NotYet(a, mark, b);
      assert s[0] == a[0] && s[1..] == a[1..] + mark + b && [a[0]] + a[1..] == a;
      CutHere(a[1..], mark, b);
    }
  }

  lemma NotYet(a: string, mark: string, b: string)
    requires |mark| >= 2 && mark[0] == ' ' && mark[1] == '|' && a != "" && Lacks(a, '|')
    ensures !(mark <= a + mark + b)
  {
    var s := a + mark + b;
    if |a| == 1 {
      assert s[1] == ' ';
    } else {
      assert s[1] == a[1];
    }
  }

  /** The three fields of a heading. */
  function ReadHeading(line: string): Option<(string, string, string)> {
    match After("## ", line)
    case None => None
    case Some(t) =>
      match CutAt(t, " | ")
      case None => None
      case Some((timestamp, rest)) =>
        match CutAt(rest, " | ")
        case None => None
        case Some((category, severity)) => Some((timestamp, category, severity))
  }

  /** The two references. */
  function ReadReferences(line: string): Option<(string, string)> {
    match After("**OWASP ref:** ", line)
    case None => None
    case Some(t) => CutAt(t, " | **MITRE ATLAS:** ")
  }

  lemma AfterHere(prefix: string, rest: string)
    ensures After(prefix, prefix + rest) == Some(rest)
  {
  }

  lemma HeadingReads(e: Entry)
    requires Lacks(e.timestamp, '|') && Lacks(e.record.category, '|')
    ensures ReadHeading(HeadingLine(e)) == Some((e.timestamp, e.record.category, e.record.severity))
  {
    hide CutAt;
    var rest := e.record.category + " | " + e.record.severity;
    CutHere(e.timestamp, " | ", rest);
    CutHere(e.record.category, " | ", e.record.severity);
    AfterHere("## ", e.timestamp + " | " + rest);
    assert HeadingLine(e) == "## " + (e.timestamp + " | " + rest);
  }

  lemma ReferencesRead(r: Record)
    requires Lacks(r.owaspRef, '|')
    ensures ReadReferences(RefLine(r)) == Some((r.owaspRef, r.mitreRef))
  {
    hide CutAt;
    CutHere(r.owaspRef, " | **MITRE ATLAS:** ", r.mitreRef);
    AfterHere("**OWASP ref:** ", r.owaspRef + " | **MITRE ATLAS:** " + r.mitreRef);
    assert RefLine(r) == "**OWASP ref:** " + (r.owaspRef + " | **MITRE ATLAS:** " + r.mitreRef);
  }

  /** Every field of a record is read back from the lines of its printed entry, the trace id, the scope,
      the clause and the verdict by the recognisers of the parser: those in front of a bar if they
      have none of their own, the scope if it can be quoted, the clause without surrounding space. */
  lemma EntryReads(e: Entry)
    ensures |BodyLines(e)| == 10
    ensures var r, lines := e.record, BodyLines(e);
            && (Lacks(e.timestamp, '|') && Lacks(r.category, '|') ==>
                  ReadHeading(lines[0]) == Some((e.timestamp, r.category, r.severity)))
            && After("**Trace:** `", lines[1]) == Some(r.traceId + "`")
            && (Quotable(r.model) && Quotable(r.promptHash) ==> MatchScope(lines[2]) == Some((r.model, r.promptHash)))
            && After("**Attack vector:** ", lines[3]) == Some(if r.attackVector == "" then "N/A" else r.attackVector)
            && MatchClause(lines[5]) == Some(Strip(r.clause))
            && (Lacks(r.owaspRef, '|') ==> ReadReferences(lines[7]) == Some((r.owaspRef, r.mitreRef)))
            && MatchValidated(lines[8]) == Some(if r.passed then YES else NO)
            && After("**Validated:** " + (if r.passed then YES else NO), lines[8]) == Some(" (" + r.detail + ")")
            && lines[4] == lines[6] == lines[9] == ""
  {
    hide ReadHeading, ReadReferences, MatchScope, MatchClause, MatchValidated, HeadingLine, RefLine, ScopeLine, ClauseLine, After;
    var r := e.record;
    if Lacks(e.timestamp, '|') && Lacks(r.category, '|') { HeadingReads(e); }
    if Lacks(r.owaspRef, '|') { ReferencesRead(r); }
    AfterHere("**Trace:** `", r.traceId + "`");
    assert TraceLine(r.traceId) == "**Trace:** `" + (r.traceId + "`");
    AfterHere("**Attack vector:** ", if r.attackVector == "" then "N/A" else r.attackVector);
    ScopeOnly(r.model, r.promptHash);
    ClauseOnly(r.clause);
    ValidatedOnly(r);
    VerdictDetail(r);
  }

  lemma VerdictDetail(r: Record)
    ensures After("**Validated:** " + (if r.passed then YES else NO), ValidatedLine(r)) == Some(" (" + r.detail + ")")
  {
    var verdict := if r.passed then YES else NO;
    var rest := " (" + r.detail + ")";
    AfterHere("**Validated:** " + verdict, rest);
    assert ValidatedLine(r) == "**Validated:** " + verdict + rest;
  }
}
