/** The Defense Architect's output parser, and why its records suit both memory views. */
module DefenseParser {
  import opened Common
  import opened MemoryText
  import opened MemoryFormat
  import opened MemoryIndex

  /** The stripped rest of the first line that starts with `KEY:`, or nothing. */
  function Extract(lines: seq<string>, key: string): string {
    if lines == [] then ""
    else if key + ":" <= lines[0] then Strip(lines[0][|key| + 1..])
    else Extract(lines[1..], key)
  }

  function OrElse(s: string, default: string): string {
    if s == "" then default else s
  }

  datatype Proposal = Proposal(category: string, owaspRef: string, mitreRef: string, severity: string,
                               attackVector: string, clause: string, rationale: string)

  function ParseArchitectOutput(raw: string): Proposal {
    var lines := SplitLines(raw);
    Proposal(
      OrElse(Extract(lines, "CATEGORY"), "unknown"),
      OrElse(Extract(lines, "OWASP_REF"), "LLM01"),
      OrElse(Extract(lines, "MITRE_ATLAS_REF"), "AML.T0054"),
      OrElse(Extract(lines, "SEVERITY"), "HIGH"),
      Extract(lines, "ATTACK_VECTOR"),
      Extract(lines, "GUARDRAIL_CLAUSE"),
      Extract(lines, "RATIONALE"))
  }

  /** A field is read off the first line that starts with its key. */
  lemma {:induction false} ExtractAt(lines: seq<string>, key: string, k: nat)
    requires k < |lines| && key + ":" <= lines[k] && forall j :: 0 <= j < k ==> !(key + ":" <= lines[j])
    ensures Extract(lines, key) == Strip(lines[k][|key| + 1..])
  {
    hide Strip;
    if k > 0 { ExtractAt(lines[1..], key, k - 1); }
  }

  /** A field without such a line is empty. */
  lemma {:induction false} ExtractMissing(lines: seq<string>, key: string)
    requires forall j :: 0 <= j < |lines| ==> !(key + ":" <= lines[j])
    ensures Extract(lines, key) == ""
  {
    if lines == [] {
    } else {
      ExtractMissing(lines[1..], key);
    }
  }

  /** The reply that the architect is asked for, line by line. */
  function Reply(category: string, owasp: string, mitre: string, severity: string, vector: string, clause: string,
                 rationale: string): seq<string>
  {
    ["CATEGORY: " + category, "OWASP_REF: " + owasp, "MITRE_ATLAS_REF: " + mitre, "SEVERITY: " + severity,
     "ATTACK_VECTOR: " + vector, "GUARDRAIL_CLAUSE: " + clause, "RATIONALE: " + rationale]
  }

  lemma FieldAt(lines: seq<string>, key: string, k: nat, value: string)
    requires k < |lines| && key != "" && lines[k] == key + ": " + value
    requires forall j :: 0 <= j < k ==> lines[j] != "" && lines[j][0] != key[0]
    ensures Extract(lines, key) == Strip(value)
  {
    hide Strip;
    assert lines[k] == key + ":" + (" " + value) && lines[k][|key| + 1..] == " " + value;
    assert (key + ":")[0] == key[0];
    ExtractAt(lines, key, k);
    StripSpaceFirst(value);
  }

  /** A reply in the requested form, with each field on one line, is parsed into its stripped fields;
      the first four have a default for an empty one. */
  lemma ReplyParsed(category: string, owasp: string, mitre: string, severity: string, vector: string, clause: string,
                    rationale: string)
    requires AllSafe(Reply(category, owasp, mitre, severity, vector, clause, rationale))
    ensures var p := ParseArchitectOutput(Unlines(Reply(category, owasp, mitre, severity, vector, clause, rationale)));
            && p.category == (if Strip(category) == "" then "unknown" else Strip(category))
            && p.owaspRef == (if Strip(owasp) == "" then "LLM01" else Strip(owasp))
            && p.mitreRef == (if Strip(mitre) == "" then "AML.T0054" else Strip(mitre))
            && p.severity == (if Strip(severity) == "" then "HIGH" else Strip(severity))
            && p.attackVector == Strip(vector) && p.clause == Strip(clause) && p.rationale == Strip(rationale)
  {
    hide Strip, Extract, LineSafe, SplitLines, Unlines;
    var lines := Reply(category, owasp, mitre, severity, vector, clause, rationale);
    LinesBack(lines);
    ReplyKeys(category, owasp, mitre, severity, vector, clause, rationale);
    FieldAt(lines, "CATEGORY", 0, category);
    FieldAt(lines, "OWASP_REF", 1, owasp);
    FieldAt(lines, "MITRE_ATLAS_REF", 2, mitre);
    FieldAt(lines, "SEVERITY", 3, severity);
    FieldAt(lines, "ATTACK_VECTOR", 4, vector);
    FieldAt(lines, "GUARDRAIL_CLAUSE", 5, clause);
    FieldAt(lines, "RATIONALE", 6, rationale);
  }

  lemma LinesBack(lines: seq<string>)
    requires AllSafe(lines)
    ensures SplitLines(Unlines(lines)) == lines
  {
    SplitUnlines(lines, "");
    assert Unlines(lines) + "" == Unlines(lines) && SplitLines("") == [] && lines + [] == lines;
  }

  lemma ReplyKeys(category: string, owasp: string, mitre: string, severity: string, vector: string, clause: string,
                  rationale: string)
    ensures var lines := Reply(category, owasp, mitre, severity, vector, clause, rationale);
            && |lines| == 7 && (forall k :: 0 <= k < 7 ==> lines[k] != "")
            && lines[0][0] == 'C' && lines[1][0] == 'O' && lines[2][0] == 'M' && lines[3][0] == 'S'
            && lines[4][0] == 'A' && lines[5][0] == 'G' && lines[6][0] == 'R'
            && lines[0] == "CATEGORY" + ": " + category && lines[1] == "OWASP_REF" + ": " + owasp
            && lines[2] == "MITRE_ATLAS_REF" + ": " + mitre && lines[3] == "SEVERITY" + ": " + severity
            && lines[4] == "ATTACK_VECTOR" + ": " + vector && lines[5] == "GUARDRAIL_CLAUSE" + ": " + clause
            && lines[6] == "RATIONALE" + ": " + rationale
  {
  }

  lemma {:induction false} ExtractClean(lines: seq<string>, key: string)
    requires AllSafe(lines)
    ensures LineSafe(Extract(lines, key)) && Stripped(Extract(lines, key))
  {
    hide IsSpace, IsBreak;
    if lines == [] {
    } else {
      if key + ":" <= lines[0] {
        StripIdempotent(lines[0][|key| + 1..]);
        StripSafe(lines[0][|key| + 1..]);
      } else {
        ExtractClean(lines[1..], key);
      }
    }
  }

  lemma DefaultsSafe()
    ensures LineSafe("unknown") && LineSafe("LLM01") && LineSafe("AML.T0054") && LineSafe("HIGH") && LineSafe("")
  {
  }

  /** Every field of a parsed proposal is a single line, and the clause is stripped. */
  lemma ProposalClean(raw: string)
    ensures var p := ParseArchitectOutput(raw);
            && LineSafe(p.category) && LineSafe(p.owaspRef) && LineSafe(p.mitreRef) && LineSafe(p.severity)
            && LineSafe(p.attackVector) && LineSafe(p.clause) && Stripped(p.clause)
  {
    hide IsSpace, IsBreak, SplitLines, Extract, LineSafe, Stripped;
    DefaultsSafe();
    var lines := SplitLines(raw);
    forall k | 0 <= k < |lines|
      ensures LineSafe(lines[k])
    {
      SplitLinesSafe(raw, k);
    }
    ExtractClean(lines, "CATEGORY");
    ExtractClean(lines, "OWASP_REF");
    ExtractClean(lines, "MITRE_ATLAS_REF");
    ExtractClean(lines, "SEVERITY");
    ExtractClean(lines, "ATTACK_VECTOR");
    ExtractClean(lines, "GUARDRAIL_CLAUSE");
  }

  /** An append of an active guardrail that a proposal with a clause gave rise to; the fields
      that do not come from the architect stay on their lines. */
  ghost predicate FromProposal(op: Op, raw: string) {
    var p, r := ParseArchitectOutput(raw), op.record;
    && op.status == ACTIVE && p.clause != "" && r.clause == p.clause
    && r.category == p.category && r.severity == p.severity && r.attackVector == p.attackVector
    && r.owaspRef == p.owaspRef && r.mitreRef == p.mitreRef
    && LineSafe(op.timestamp) && LineSafe(r.traceId) && LineSafe(r.model) && LineSafe(r.promptHash) && LineSafe(r.detail)
  }

  lemma FromProposalRegular(op: Op, raw: string)
    requires FromProposal(op, raw)
    ensures Regular(op) && Stripped(op.record.clause)
  {
    hide IsSpace, IsBreak, Extract, LineSafe;
    ProposalClean(raw);
    StripIdempotent(op.record.clause);
  }

  lemma {:induction false} ViewKeepsStripped(ops: seq<Op>, model: string, hash: string)
    requires forall k :: 0 <= k < |ops| ==> Stripped(ops[k].record.clause)
    ensures var view := StructuredView(Run(ops).deployments, model, hash);
            forall k :: 0 <= k < |view| ==> Stripped(view[k])
  {
    hide Norm, Stripped, FormatEntry, DuplicateTrace, DuplicateClause, StructuredView;
    if ops == [] {
      NothingScoped(model, hash);
    } else {
      var rest := ops[..|ops| - 1];
      ViewKeepsStripped(rest, model, hash);
      ViewGrows(Run(rest).deployments, Stamped(ops[|ops| - 1]), model, hash);
    }
  }

  lemma ViewGrows(ds: seq<Record>, r: Record, model: string, hash: string)
    ensures var view := StructuredView(ds, model, hash);
            var more := StructuredView(ds + [r], model, hash);
            more == view || more == view + [r.clause]
  {
    hide Norm;
    var scoped := ScopedClauses(ds, model, hash);
    assert (ds + [r])[..|ds|] == ds;
    assert (scoped + [r.clause])[..|scoped|] == scoped && scoped + [] == scoped;
  }

  /** For records made from architect proposals the legacy and the structured view of every
      printable scope are the same list. */
  lemma ProposalViewsEqual(ops: seq<Op>, raws: seq<string>, model: string, hash: string)
    requires |raws| == |ops| && forall k :: 0 <= k < |ops| ==> FromProposal(ops[k], raws[k])
    requires Quotable(model) && Quotable(hash)
    ensures LegacyView(Run(ops).markdown, model, hash) == StructuredView(Run(ops).deployments, model, hash)
  {
    forall k | 0 <= k < |ops|
      ensures Regular(ops[k]) && Stripped(ops[k].record.clause)
    {
      FromProposalRegular(ops[k], raws[k]);
    }
    ViewKeepsStripped(ops, model, hash);
    ViewsAgree(ops, model, hash);
    var view := StructuredView(Run(ops).deployments, model, hash);
    forall k | 0 <= k < |view|
      ensures StripAll(view)[k] == view[k]
    {
      StripIdempotent(view[k]);
    }
  }
}
