/** The printed memory entry, and the theorem that the legacy parser inverts the printer. */
module MemoryFormat {
  import opened Common
  import opened MemoryText

  /** A deployment record. `detail` is the text printed in parentheses after the verdict:
      residual score and benign-pack counts. `status` is metadata["guardrail_status"]. */
  datatype Record = Record(
    traceId: string, clause: string, category: string, severity: string, attackVector: string,
    owaspRef: string, mitreRef: string, passed: bool, detail: string,
    model: string, promptHash: string, status: Option<string>)

  /** A record as printed at some time. */
  datatype Entry = Entry(record: Record, timestamp: string)

  const TITLE := "# RedThread Threat " + "Knowledge Base"
  const NOTE := "This file is auto-" + ("generated by the " + ("Defense Synthesis " + "Engine."))
  const PURPOSE := "Each entry represents " + ("a confirmed jailbreak " + ("and its validated " + "guardrail fix."))

  const HEADER_LINES: seq<string> := [TITLE, "", NOTE, PURPOSE, "", "---", ""]

  function HeadingLine(e: Entry): string {
    "## " + e.timestamp + " | " + e.record.category + " | " + e.record.severity
  }

  function TraceLine(traceId: string): string {
    "**Trace:** `" + traceId + "`"
  }

  /** A name, an equals sign and a back-quoted value. */
  function FieldText(name: string, value: string, rest: string): string {
    name + ("=" + ("`" + (value + "`" + rest)))
  }

  function ScopeLine(model: string, hash: string): string {
    "**Scope:**" + (" " + FieldText("model", model, " " + ("|" + (" " + FieldText("prompt_hash", hash, "")))))
  }

  function VectorLine(r: Record): string {
    "**Attack vector:** " + if r.attackVector == "" then "N/A" else r.attackVector
  }

  function ClauseLine(clause: string): string {
    ">" + (" " + ("**Guardrail clause:**" + (" " + clause)))
  }

  function RefLine(r: Record): string {
    "**OWASP ref:** " + r.owaspRef + " | **MITRE ATLAS:** " + r.mitreRef
  }

  function ValidatedLine(r: Record): string {
    "**Validated:**" + (" " + ((if r.passed then YES else NO) + (" (" + r.detail + ")")))
  }

  function BodyLines(e: Entry): seq<string> {
    var r := e.record;
    [HeadingLine(e), TraceLine(r.traceId), ScopeLine(r.model, r.promptHash), VectorLine(r), "",
     ClauseLine(r.clause), "", RefLine(r), ValidatedLine(r), ""]
  }

  /** format_entry */
  function FormatEntry(e: Entry): string {
    Unlines(BodyLines(e) + ["---", ""])
  }

  function Entries(es: seq<Entry>): string {
    if es == [] then "" else FormatEntry(es[0]) + Entries(es[1..])
  }

  /** The Markdown file: the header followed by the entries in the order they were appended. */
  function Markdown(es: seq<Entry>): string {
    Unlines(HEADER_LINES) + Entries(es)
  }

  /** Every printed field stays on its line. */
  predicate EntrySafe(e: Entry) {
    var r := e.record;
    && LineSafe(e.timestamp) && LineSafe(r.category) && LineSafe(r.severity) && LineSafe(r.traceId)
    && LineSafe(r.model) && LineSafe(r.promptHash) && LineSafe(r.attackVector) && LineSafe(r.clause)
    && LineSafe(r.owaspRef) && LineSafe(r.mitreRef) && LineSafe(r.detail)
  }

  // ---------- scope line ----------

  predicate TickFree(s: string) {
    forall k :: 0 <= k < |s| ==> s[k] != '`'
  }

  /** A scope field that the scope pattern can read back. */
  predicate Quotable(s: string) {
    s != "" && TickFree(s)
  }

  lemma WordHere(word: string, rest: string)
    requires word != "" && !IsSpace(word[0])
    ensures Word(word, word + rest) == Some(rest)
    ensures Word(word, " " + (word + rest)) == Some(rest)
  {
    var s := word + rest;
    assert s[|word|..] == rest;
    assert (" " + s)[1..] == s;
  }

  lemma {:induction false} TickLengthHere(g: string, rest: string)
    requires TickFree(g)
    ensures TickLength(g + "`" + rest) == |g|
  {
    var s := g + "`" + rest;
    if g == "" {
    } else {
      assert s[1..] == g[1..] + "`" + rest;
      TickLengthHere(g[1..], rest);
    }
  }

  lemma QuotedHere(g: string, rest: string)
    requires TickFree(g)
    ensures Quoted("`" + (g + "`" + rest)) == if g == "" then None else Some((g, rest))
  {
    var t := g + "`" + rest;
    TickLengthHere(g, rest);
    assert ("`" + t)[1..] == t;
    assert t[..|g|] == g && t[|g| + 1..] == rest;
  }

  lemma FieldHere(name: string, value: string, rest: string)
    requires TickFree(value) && name != "" && !IsSpace(name[0])
    ensures Field(name, " " + FieldText(name, value, rest)) == if value == "" then None else Some((value, rest))
  {
    var q := "`" + (value + "`" + rest);
    WordHere(name, "=" + q);
    WordHere("=", q);
    assert LStrip(q) == q;
    QuotedHere(value, rest);
  }

  function Ticks(s: string): nat {
    if s == "" then 0 else (if s[0] == '`' then 1 else 0) + Ticks(s[1..])
  }

  lemma {:induction false} TicksConcat(a: string, b: string)
    ensures Ticks(a + b) == Ticks(a) + Ticks(b)
  {
    if a == "" {
      assert a + b == b;
    } else {
      assert (a + b)[1..] == a[1..] + b;
      TicksConcat(a[1..], b);
    }
  }

  lemma {:induction false} TicksZero(s: string)
    ensures Ticks(s) == 0 <==> TickFree(s)
  {
    if s == "" {
    } else {
      TicksZero(s[1..]);
    }
  }

  lemma {:induction false} TicksLStrip(s: string)
    ensures Ticks(LStrip(s)) == Ticks(s)
  {
    if s != "" && IsSpace(s[0]) { TicksLStrip(s[1..]); }
  }

  lemma TicksWord(word: string, s: string)
    requires Word(word, s).Some? && TickFree(word)
    ensures Ticks(Word(word, s).value) == Ticks(s)
  {
    hide IsSpace, Ticks, TickFree, LStrip;
    var rest := Word(word, s).value;
    assert LStrip(s) == word + rest;
    TicksConcat(word, rest);
    TicksZero(word);
    TicksLStrip(s);
  }

  lemma TicksQuoted(s: string)
    requires Quoted(s).Some?
    ensures Ticks(s) == 2 + Ticks(Quoted(s).value.1)
  {
    hide IsSpace;
    var t := s[1..];
    var g, u := t[..TickLength(t)], t[TickLength(t)..];
    assert t == g + u;
    TicksConcat(g, u);
    TicksZero(g);
    assert u[1..] == Quoted(s).value.1;
  }

  lemma TicksField(name: string, s: string)
    requires Field(name, s).Some? && TickFree(name)
    ensures Ticks(s) == 2 + Ticks(Field(name, s).value.1)
  {
    hide IsSpace;
    var t := Word(name, s).value;
    TicksWord(name, s);
    TicksWord("=", t);
    TicksLStrip(Word("=", t).value);
    TicksQuoted(LStrip(Word("=", t).value));
  }

  lemma TicksHashField(s: string)
    requires HashField(s).Some?
    ensures Ticks(s) == 2
  {
    hide IsSpace;
    var t := Word("|", s).value;
    TicksWord("|", s);
    TicksField("prompt_hash", t);
    TicksLStrip(Field("prompt_hash", t).value.1);
  }

  lemma ScopeNeedsFourTicks(line: string)
    requires MatchScope(line).Some?
    ensures Ticks(line) == 4
  {
    hide IsSpace, Ticks, HashField, Word, Field;
    var t := Word("**Scope:**", line).value;
    TicksWord("**Scope:**", line);
    TicksField("model", t);
    TicksHashField(Field("model", t).value.1);
  }

  lemma TicksFieldText(name: string, value: string, rest: string)
    requires TickFree(name)
    ensures Ticks(FieldText(name, value, rest)) == 2 + Ticks(value) + Ticks(rest)
  {
    var u := value + "`" + rest;
    TicksConcat(name, "=" + ("`" + u));
    TicksZero(name);
    TicksConcat("=", "`" + u);
    TicksZero("=");
    TicksConcat("`", u);
    TicksConcat(value + "`", rest);
    TicksConcat(value, "`");
    assert "`"[1..] == "";
  }

  lemma ScopeLineTicks(model: string, hash: string)
    ensures Ticks(ScopeLine(model, hash)) == 4 + Ticks(model) + Ticks(hash)
  {
    hide Ticks;
    var h := FieldText("prompt_hash", hash, "");
    var t := " " + ("|" + (" " + h));
    TicksFieldText("prompt_hash", hash, "");
    TicksConcat(" ", h);
    TicksConcat("|", " " + h);
    TicksConcat(" ", "|" + (" " + h));
    TicksFieldText("model", model, t);
    TicksConcat(" ", FieldText("model", model, t));
    TicksConcat("**Scope:**", " " + FieldText("model", model, t));
    TicksZero("**Scope:**");
    TicksZero(" ");
    TicksZero("|");
    TicksZero("");
  }

  lemma ScopeReadBack(model: string, hash: string)
    requires TickFree(model) && TickFree(hash)
    ensures MatchScope(ScopeLine(model, hash)) == if model != "" && hash != "" then Some((model, hash)) else None
  {
    hide FieldText, Field, HashField, Word, TickFree;
    var t := " " + ("|" + (" " + FieldText("prompt_hash", hash, "")));
    WordHere("**Scope:**", " " + FieldText("model", model, t));
    FieldHere("model", model, t);
    HashHere(hash);
  }

  lemma HashHere(hash: string)
    requires TickFree(hash)
    ensures HashField(" " + ("|" + (" " + FieldText("prompt_hash", hash, "")))) == if hash == "" then None else Some(hash)
  {
    hide FieldText, Field, Word, TickFree;
    WordHere("|", " " + FieldText("prompt_hash", hash, ""));
    FieldHere("prompt_hash", hash, "");
  }

  /** The scope pattern reads back exactly the scopes whose two fields are non-empty and free
      of backticks, and matches no other printed scope at all. */
  lemma ScopeRoundTrip(model: string, hash: string)
    ensures MatchScope(ScopeLine(model, hash)) ==
            if Quotable(model) && Quotable(hash) then Some((model, hash)) else None
  {
    if TickFree(model) && TickFree(hash) {
      ScopeReadBack(model, hash);
    } else {
      ScopeLineTicks(model, hash);
      TicksZero(model);
      TicksZero(hash);
      if MatchScope(ScopeLine(model, hash)).Some? { ScopeNeedsFourTicks(ScopeLine(model, hash)); }
    }
  }

  // ---------- what each printed line matches ----------

  lemma WordMiss(word: string, line: string, k: nat)
    requires line != "" && !IsSpace(line[0]) && k < |word| && (k < |line| ==> line[k] != word[k])
    ensures Word(word, line) == None
  {
    assert LStrip(line) == line;
  }

  lemma {:induction false} RStripKeepsHead(s: string)
    requires s != "" && !IsSpace(s[0])
    ensures RStrip(s) != "" && RStrip(s)[0] == s[0]
  {
    if IsSpace(s[|s| - 1]) { RStripKeepsHead(s[..|s| - 1]); }
  }

  lemma NotSeparator(line: string)
    requires line == "" || (!IsSpace(line[0]) && line[0] != '-')
    ensures !IsSeparator(line)
  {
    if line != "" { RStripKeepsHead(line); }
  }

  /** A line that starts in two asterisks and a capital letter matches at most the one
      pattern whose third character is that letter. */
  lemma BoldLine(line: string)
    requires |line| > 2 && line[0] == '*' && line[1] == '*'
    ensures !IsSeparator(line) && !IsHeading(line) && MatchClause(line) == None
    ensures line[2] != 'S' ==> MatchScope(line) == None
    ensures line[2] != 'V' ==> MatchValidated(line) == None
  {
    NotSeparator(line);
    WordMiss("##", line, 0);
    WordMiss(">", line, 0);
    if line[2] != 'S' { WordMiss("**Scope:**", line, 2); }
    if line[2] != 'V' { WordMiss("**Validated:**", line, 2); }
  }

  lemma EmptyLine()
    ensures !IsSeparator("") && !IsHeading("") && MatchClause("") == None && MatchQuote("") == None
    ensures MatchScope("") == None && MatchValidated("") == None
  {
  }

  lemma HeadingOnly(e: Entry)
    ensures var line := HeadingLine(e);
            && IsHeading(line) && !IsSeparator(line) && MatchClause(line) == None
            && MatchScope(line) == None && MatchValidated(line) == None
  {
    var line := HeadingLine(e);
    var rest := " " + e.timestamp + " | " + e.record.category + " | " + e.record.severity;
    assert line == "##" + rest;
    WordHere("##", rest);
    NotSeparator(line);
    WordMiss(">", line, 0);
    WordMiss("**Scope:**", line, 0);
    WordMiss("**Validated:**", line, 0);
  }

  lemma StripSpaceFirst(s: string)
    ensures Strip(" " + s) == Strip(s)
  {
    assert (" " + s)[1..] == s;
  }

  lemma ClauseOnly(clause: string)
    ensures var line := ClauseLine(clause);
            && MatchClause(line) == Some(Strip(clause)) && !IsSeparator(line) && !IsHeading(line)
            && MatchScope(line) == None && MatchValidated(line) == None
  {
    var line := ClauseLine(clause);
    WordHere(">", " " + ("**Guardrail clause:**" + (" " + clause)));
    WordHere("**Guardrail clause:**", " " + clause);
    StripSpaceFirst(clause);
    NotSeparator(line);
    WordMiss("##", line, 0);
    WordMiss("**Scope:**", line, 0);
    WordMiss("**Validated:**", line, 0);
  }

  lemma ScopeOnly(model: string, hash: string)
    ensures var line := ScopeLine(model, hash);
            && !IsSeparator(line) && !IsHeading(line) && MatchClause(line) == None && MatchValidated(line) == None
            && MatchScope(line) == if Quotable(model) && Quotable(hash) then Some((model, hash)) else None
  {
    hide IsSpace, MatchScope, MatchClause, MatchValidated, IsSeparator, IsHeading;
    BoldLine(ScopeLine(model, hash));
    ScopeRoundTrip(model, hash);
  }

  lemma VerdictHere(sign: string, word: string, rest: string)
    requires |sign| == 1 && word != "" && !IsSpace(word[0]) && rest != "" && IsSpace(rest[0])
    ensures MatchVerdict(sign, word, sign + " " + word + rest) == Some(sign + " " + word)
  {
    var group := sign + " " + word;
    var s := group + rest;
    assert s[1..] == " " + (word + rest);
    WordHere(word, rest);
    assert s[..|s| - |rest|] == group;
  }

  lemma YesText(rest: string)
    requires rest != "" && IsSpace(rest[0])
    ensures MatchVerdict(CHECK, "YES", YES + rest) == Some(YES)
  {
    VerdictHere(CHECK, "YES", rest);
    assert CHECK + " " + "YES" == YES;
  }

  lemma NoText(rest: string)
    requires rest != "" && IsSpace(rest[0])
    ensures MatchVerdict(CROSS, "NO", NO + rest) == Some(NO) && MatchVerdict(CHECK, "YES", NO + rest) == None
  {
    VerdictHere(CROSS, "NO", rest);
    assert CROSS + " " + "NO" == NO;
    assert (NO + rest)[0] != CHECK[0];
  }

  lemma ValidatedOnly(r: Record)
    ensures var line := ValidatedLine(r);
            && MatchValidated(line) == Some(if r.passed then YES else NO)
            && !IsSeparator(line) && !IsHeading(line) && MatchClause(line) == None && MatchScope(line) == None
  {
    hide MatchValidated, MatchScope, MatchClause, IsSeparator, IsHeading;
    BoldLine(ValidatedLine(r));
    VerdictRead(r);
  }

  lemma VerdictRead(r: Record)
    ensures MatchValidated(ValidatedLine(r)) == Some(if r.passed then YES else NO)
  {
    hide MatchVerdict, Word;
    var rest := " (" + r.detail + ")";
    var verdict := (if r.passed then YES else NO) + rest;
    WordHere("**Validated:**", " " + verdict);
    LStripGap(verdict);
    if r.passed { YesText(rest); } else { NoText(rest); }
  }

  lemma LStripGap(s: string)
    requires s != "" && !IsSpace(s[0])
    ensures LStrip(" " + s) == s
  {
    assert (" " + s)[1..] == s && LStrip(s) == s;
  }

  // ---------- what a printed entry contributes ----------

  lemma {:induction false} BlocksPlain(ls: seq<string>, rest: seq<string>, current: seq<string>)
    requires forall k :: 0 <= k < |ls| ==> !IsSeparator(ls[k]) && !IsHeading(ls[k])
    ensures BlocksFrom(ls + rest, current) == BlocksFrom(rest, current + ls)
  {
    hide IsSeparator, IsHeading;
    if ls == [] {
      assert ls + rest == rest && current + ls == current;
    } else {
      assert (ls + rest)[0] == ls[0] && (ls + rest)[1..] == ls[1..] + rest;
      BlocksPlain(ls[1..], rest, current + [ls[0]]);
      assert current + [ls[0]] + ls[1..] == current + ls;
    }
  }

  lemma {:induction false} ValidationsConcat(a: seq<string>, b: seq<string>)
    ensures Validations(a + b) == Validations(a) + Validations(b)
  {
    hide MatchValidated;
    if a == [] {
      assert a + b == b;
    } else {
      assert (a + b)[1..] == a[1..] + b;
      ValidationsConcat(a[1..], b);
    }
  }

  lemma {:induction false} NoValidations(ls: seq<string>)
    requires forall k :: 0 <= k < |ls| ==> MatchValidated(ls[k]) == None
    ensures Validations(ls) == []
  {
    if ls == [] {
    } else {
      NoValidations(ls[1..]);
    }
  }

  lemma {:induction false} ScopesConcat(a: seq<string>, b: seq<string>)
    ensures Scopes(a + b) == Scopes(a) + Scopes(b)
  {
    hide MatchScope;
    if a == [] {
      assert a + b == b;
    } else {
      assert (a + b)[1..] == a[1..] + b;
      ScopesConcat(a[1..], b);
    }
  }

  lemma {:induction false} NoScopes(ls: seq<string>)
    requires forall k :: 0 <= k < |ls| ==> MatchScope(ls[k]) == None
    ensures Scopes(ls) == []
  {
    if ls == [] {
    } else {
      NoScopes(ls[1..]);
    }
  }

  lemma {:induction false} FirstClauseSkips(ls: seq<string>, rest: seq<string>)
    requires forall k :: 0 <= k < |ls| ==> MatchClause(ls[k]) == None
    ensures FirstClause(ls + rest) == FirstClause(rest)
  {
    if ls == [] {
      assert ls + rest == rest;
    } else {
      assert (ls + rest)[0] == ls[0] && (ls + rest)[1..] == ls[1..] + rest;
      FirstClauseSkips(ls[1..], rest);
    }
  }

  /** The body lines before the clause, and those after it up to the verdict. */
  function Opening(e: Entry): seq<string> {
    [HeadingLine(e), TraceLine(e.record.traceId), ScopeLine(e.record.model, e.record.promptHash),
     VectorLine(e.record), ""]
  }

  function Closing(e: Entry): seq<string> {
    ["", RefLine(e.record), ValidatedLine(e.record)]
  }

  lemma BodyParts(e: Entry)
    ensures BodyLines(e) == Opening(e) + [ClauseLine(e.record.clause)] + Closing(e) + [""]
  {
  }

  lemma OpeningLines(e: Entry)
    ensures forall k :: 0 <= k < 5 ==> MatchClause(Opening(e)[k]) == None && MatchValidated(Opening(e)[k]) == None
    ensures forall k :: 0 <= k < 5 ==> !IsSeparator(Opening(e)[k])
    ensures forall k :: 1 <= k < 5 ==> !IsHeading(Opening(e)[k])
    ensures forall k :: 0 <= k < 5 && k != 2 ==> MatchScope(Opening(e)[k]) == None
  {
    hide IsSeparator, IsHeading, MatchScope, MatchValidated, MatchClause;
    HeadingOnly(e);
    BoldLine(TraceLine(e.record.traceId));
    ScopeOnly(e.record.model, e.record.promptHash);
    BoldLine(VectorLine(e.record));
    EmptyLine();
  }

  lemma ClosingLines(e: Entry)
    ensures forall k :: 0 <= k < 3 ==>
              MatchClause(Closing(e)[k]) == None && MatchScope(Closing(e)[k]) == None
              && !IsSeparator(Closing(e)[k]) && !IsHeading(Closing(e)[k])
    ensures forall k :: 0 <= k < 2 ==> MatchValidated(Closing(e)[k]) == None
  {
    hide IsSeparator, IsHeading, MatchScope, MatchValidated, MatchClause;
    EmptyLine();
    BoldLine(RefLine(e.record));
    ValidatedOnly(e.record);
  }

  lemma NoEarlyValidations(e: Entry)
    ensures Validations(Opening(e) + [ClauseLine(e.record.clause)] + Closing(e)[..2]) == []
  {
    hide IsSeparator, IsHeading, MatchScope, MatchValidated, MatchClause;
    OpeningLines(e);
    ClauseOnly(e.record.clause);
    ClosingLines(e);
    NoValidations(Opening(e) + [ClauseLine(e.record.clause)] + Closing(e)[..2]);
  }

  lemma BodyValidations(e: Entry)
    ensures Validations(BodyLines(e)) == [if e.record.passed then YES else NO]
  {
    hide IsSeparator, IsHeading, MatchScope, MatchValidated, MatchClause;
    var a := Opening(e) + [ClauseLine(e.record.clause)] + Closing(e)[..2];
    var line := ValidatedLine(e.record);
    assert BodyLines(e) == a + ([line] + [""]);
    NoEarlyValidations(e);
    ValidationsConcat(a, [line] + [""]);
    ValidationsConcat([line], [""]);
    ValidatedOnly(e.record);
    EmptyLine();
  }

  lemma BodyScopes(e: Entry)
    ensures Scopes(BodyLines(e)) ==
            if Quotable(e.record.model) && Quotable(e.record.promptHash)
            then [(e.record.model, e.record.promptHash)] else []
  {
    hide IsSeparator, IsHeading, MatchScope, MatchValidated, MatchClause;
    var line := ScopeLine(e.record.model, e.record.promptHash);
    var a := Opening(e)[..2];
    var b := Opening(e)[3..] + [ClauseLine(e.record.clause)] + Closing(e) + [""];
    assert BodyLines(e) == a + ([line] + b);
    OpeningLines(e);
    ClauseOnly(e.record.clause);
    ClosingLines(e);
    EmptyLine();
    ScopesConcat(a, [line] + b);
    NoScopes(a);
    ScopesConcat([line], b);
    NoScopes(b);
    ScopeOnly(e.record.model, e.record.promptHash);
  }

  lemma SafeConcat(a: string, b: string)
    requires LineSafe(a) && LineSafe(b)
    ensures LineSafe(a + b)
  {
  }

  lemma SafeFieldText(name: string, value: string, rest: string)
    requires LineSafe(name) && LineSafe(value) && LineSafe(rest)
    ensures LineSafe(FieldText(name, value, rest))
  {
  }

  lemma SafeScope(model: string, hash: string)
    requires LineSafe(model) && LineSafe(hash)
    ensures LineSafe(ScopeLine(model, hash))
  {
    var h := FieldText("prompt_hash", hash, "");
    SafeFieldText("prompt_hash", hash, "");
    var t := " " + ("|" + (" " + h));
    assert LineSafe(t);
    SafeFieldText("model", model, t);
    assert LineSafe("**Scope:**");
    SafeConcat("**Scope:**", " " + FieldText("model", model, t));
  }

  lemma SafeHeading(e: Entry)
    requires EntrySafe(e)
    ensures LineSafe(HeadingLine(e))
  {
    var a := "## " + e.timestamp;
    assert LineSafe(a);
    var b := a + " | " + e.record.category;
    assert LineSafe(b);
    assert HeadingLine(e) == b + " | " + e.record.severity;
  }

  lemma SafeValidated(r: Record)
    requires LineSafe(r.detail)
    ensures LineSafe(ValidatedLine(r))
  {
    var t := " (" + r.detail + ")";
    assert LineSafe(t);
    var v := if r.passed then YES else NO;
    assert LineSafe(v);
    SafeConcat(v, t);
    SafeConcat(" ", v + t);
    SafeConcat("**Validated:**", " " + (v + t));
  }

  lemma BodySafe(e: Entry)
    requires EntrySafe(e)
    ensures AllSafe(BodyLines(e))
  {
    hide IsBreak;
    var r := e.record;
    SafeHeading(e);
    SafeScope(r.model, r.promptHash);
    SafeValidated(r);
    SafeTrace(r);
  }

  lemma SafeTrace(r: Record)
    requires LineSafe(r.traceId) && LineSafe(r.attackVector) && LineSafe(r.clause) && LineSafe(r.owaspRef) && LineSafe(r.mitreRef)
    ensures LineSafe(TraceLine(r.traceId)) && LineSafe(VectorLine(r)) && LineSafe(RefLine(r)) && LineSafe(ClauseLine(r.clause))
  {
    hide *;
    SafeTraceLine(r.traceId);
    SafeVectorLine(r);
    SafeClauseLine(r.clause);
    SafeRefLine(r);
  }

  lemma SafeTraceLine(traceId: string)
    requires LineSafe(traceId)
    ensures LineSafe(TraceLine(traceId))
  {
    SafeConcat("**Trace:** `", traceId);
  }

  lemma SafeVectorLine(r: Record)
    requires LineSafe(r.attackVector)
    ensures LineSafe(VectorLine(r))
  {
    SafeConcat("**Attack vector:** ", r.attackVector);
  }

  lemma SafeClauseLine(clause: string)
    requires LineSafe(clause)
    ensures LineSafe(ClauseLine(clause))
  {
    SafeConcat(" ", clause);
    SafeConcat("**Guardrail clause:**", " " + clause);
    SafeConcat(">", " " + ("**Guardrail clause:**" + (" " + clause)));
  }

  lemma SafeRefLine(r: Record)
    requires LineSafe(r.owaspRef) && LineSafe(r.mitreRef)
    ensures LineSafe(RefLine(r))
  {
    SafeConcat("**OWASP ref:** ", r.owaspRef);
    SafeConcat("**OWASP ref:** " + r.owaspRef, " | **MITRE ATLAS:** ");
    SafeConcat("**OWASP ref:** " + r.owaspRef + " | **MITRE ATLAS:** ", r.mitreRef);
  }

  lemma BodySplits(e: Entry)
    requires EntrySafe(e)
    ensures SplitLines(Join(BodyLines(e))) == Opening(e) + ([ClauseLine(e.record.clause)] + Closing(e))
  {
    hide SplitLines, Join, ClauseLine, LineSafe, Opening, Closing;
    BodySafe(e);
    BodyParts(e);
    SplitJoin(BodyLines(e));
    assert BodyLines(e)[..|BodyLines(e)| - 1] == Opening(e) + ([ClauseLine(e.record.clause)] + Closing(e));
  }

  lemma ClauseAlone(line: string, rest: seq<string>)
    requires MatchClause(line).Some? && rest != [] && MatchQuote(rest[0]) == None
    ensures FirstClause([line] + rest) == Strip(MatchClause(line).value)
  {
    hide MatchClause, MatchQuote, Strip;
    var all := [line] + rest;
    assert all[0] == line && all[1..] == rest;
    assert Continuation(rest) == [];
    NothingLeft();
  }

  lemma NothingLeft()
    ensures Strip("") == ""
  {
  }

  lemma BodyClause(e: Entry)
    requires EntrySafe(e)
    ensures FirstClause(SplitLines(Join(BodyLines(e)))) == Strip(e.record.clause)
  {
    hide *;
    BodySplits(e);
    var rest := [ClauseLine(e.record.clause)] + Closing(e);
    OpeningLines(e);
    OpeningLength(e);
    FirstClauseSkips(Opening(e), rest);
    ClauseOnly(e.record.clause);
    EmptyLine();
    ClosingStarts(e);
    ClauseAlone(ClauseLine(e.record.clause), Closing(e));
    StripIdempotent(e.record.clause);
  }

  lemma OpeningLength(e: Entry)
    ensures |Opening(e)| == 5
  {
  }

  lemma ClosingStarts(e: Entry)
    ensures Closing(e) != [] && Closing(e)[0] == ""
  {
  }

  /** A record is loadable for a scope: validated, in that scope, and with a clause left. */
  predicate Loads(r: Record, model: string, hash: string) {
    && r.passed && r.model == model && r.promptHash == hash
    && Quotable(model) && Quotable(hash) && Strip(r.clause) != ""
  }

  lemma BodyContributes(e: Entry, model: string, hash: string)
    requires EntrySafe(e)
    ensures BlockClauses(BodyLines(e), model, hash) ==
            if Loads(e.record, model, hash) then [Strip(e.record.clause)] else []
  {
    BodyValidations(e);
    BodyScopes(e);
    BodyClause(e);
    assert YES != NO;
  }

  /** The clauses of the loadable records, stripped, in order. */
  function LoadedClauses(es: seq<Entry>, model: string, hash: string): seq<string> {
    if es == [] then []
    else
      (if Loads(es[0].record, model, hash) then [Strip(es[0].record.clause)] else []) +
      LoadedClauses(es[1..], model, hash)
  }

  lemma HeadingOpens(e: Entry, rest: seq<string>)
    ensures BlocksFrom([HeadingLine(e)] + rest, [""]) == [[""]] + BlocksFrom(rest, [HeadingLine(e)])
  {
    hide IsSeparator, IsHeading;
    HeadingOnly(e);
    assert ([HeadingLine(e)] + rest)[1..] == rest;
    assert [] + [HeadingLine(e)] == [HeadingLine(e)];
  }

  lemma BodyStays(e: Entry, rest: seq<string>)
    ensures BlocksFrom(BodyLines(e)[1..] + rest, [HeadingLine(e)]) == BlocksFrom(rest, BodyLines(e))
  {
    hide IsSeparator, IsHeading, MatchScope, MatchValidated, MatchClause;
    OpeningLines(e);
    ClauseOnly(e.record.clause);
    ClosingLines(e);
    EmptyLine();
    assert BodyLines(e)[1..] == Opening(e)[1..] + [ClauseLine(e.record.clause)] + Closing(e) + [""];
    BlocksPlain(BodyLines(e)[1..], rest, [HeadingLine(e)]);
    assert [HeadingLine(e)] + BodyLines(e)[1..] == BodyLines(e);
  }

  lemma SeparatorCloses(body: seq<string>, rest: seq<string>)
    requires body != []
    ensures BlocksFrom(["---", ""] + rest, body) == [body] + BlocksFrom(rest, [""])
  {
    var tail := ["---", ""] + rest;
    assert LStrip("---") == "---" && RStrip("---") == "---";
    assert IsSeparator("---");
    EmptyLine();
    hide IsSeparator, IsHeading;
    var noLines: seq<string> := [];
    assert tail[1..] == [""] + rest && ([""] + rest)[1..] == rest;
    assert BlocksFrom([""] + rest, noLines) == BlocksFrom(rest, [""]) by { assert noLines + [""] == [""]; }
    assert BlocksFrom(tail, body) == [body] + BlocksFrom([""] + rest, noLines);
  }

  lemma EntryBlocks(e: Entry, rest: seq<string>)
    ensures BlocksFrom(BodyLines(e) + ["---", ""] + rest, [""]) == [[""], BodyLines(e)] + BlocksFrom(rest, [""])
  {
    hide BodyLines, BlocksFrom;
    var body := BodyLines(e);
    var tail := ["---", ""] + rest;
    BodyParts(e);
    assert body[0] == HeadingLine(e);
    HeadingOpens(e, body[1..] + tail);
    assert [HeadingLine(e)] + (body[1..] + tail) == body + ["---", ""] + rest;
    BodyStays(e, tail);
    SeparatorCloses(body, rest);
    assert [[""]] + ([body] + BlocksFrom(rest, [""])) == [[""], body] + BlocksFrom(rest, [""]);
  }

  // ---------- the parser inverts the printer ----------

  function EntryLines(es: seq<Entry>): seq<string> {
    if es == [] then [] else BodyLines(es[0]) + ["---", ""] + EntryLines(es[1..])
  }

  predicate AllEntriesSafe(es: seq<Entry>) {
    forall k :: 0 <= k < |es| ==> EntrySafe(es[k])
  }

  lemma {:induction false} EntriesAreLines(es: seq<Entry>)
    requires AllEntriesSafe(es)
    ensures Entries(es) == Unlines(EntryLines(es)) && AllSafe(EntryLines(es))
  {
    hide EntrySafe, BodyLines, LineSafe;
    if es == [] {
    } else {
      var first := BodyLines(es[0]) + ["---", ""];
      EntriesAreLines(es[1..]);
      UnlinesConcat(first, EntryLines(es[1..]));
      BodySafe(es[0]);
      assert LineSafe("---") && LineSafe("") by { SafeSeparators(); }
    }
  }

  lemma SafeSeparators()
    ensures LineSafe("---") && LineSafe("")
  {
  }

  lemma HeaderSafe()
    ensures AllSafe(HEADER_LINES)
  {
    hide IsBreak;
    assert LineSafe(TITLE) && LineSafe(NOTE) && LineSafe(PURPOSE) by { ProseSafe(); }
    SafeSeparators();
  }

  lemma ProseSafe()
    ensures LineSafe(TITLE) && LineSafe(NOTE) && LineSafe(PURPOSE)
  {
    hide *;
    TitleSafe();
    NoteSafe();
    PurposeSafe();
  }

  lemma TitleSafe()
    ensures LineSafe(TITLE)
  {
    SafeConcat("# RedThread Threat ", "Knowledge Base");
  }

  lemma NoteSafe()
    ensures LineSafe(NOTE)
  {
    SafeConcat("Defense Synthesis ", "Engine.");
    SafeConcat("generated by the ", "Defense Synthesis " + "Engine.");
    SafeConcat("This file is auto-", "generated by the " + ("Defense Synthesis " + "Engine."));
  }

  lemma PurposeSafe()
    ensures LineSafe(PURPOSE)
  {
    SafeConcat("and its validated ", "guardrail fix.");
    SafeConcat("a confirmed jailbreak ", "and its validated " + "guardrail fix.");
    SafeConcat("Each entry represents ", "a confirmed jailbreak " + ("and its validated " + "guardrail fix."));
  }

  lemma ProseLine(line: string)
    requires line != "" && !IsSpace(line[0]) && line[0] != '-' && line[0] != '*'
    requires |line| > 1 && (line[0] != '#' || line[1] != '#')
    ensures !IsSeparator(line) && !IsHeading(line) && MatchValidated(line) == None
  {
    NotSeparator(line);
    WordMiss("##", line, if line[0] != '#' then 0 else 1);
    WordMiss("**Validated:**", line, 0);
  }

  lemma HeaderLinesPlain()
    ensures forall k :: 0 <= k < 5 ==> !IsSeparator(HEADER_LINES[k]) && !IsHeading(HEADER_LINES[k])
    ensures forall k :: 0 <= k < 5 ==> MatchValidated(HEADER_LINES[k]) == None
  {
    hide IsSeparator, IsHeading, MatchValidated;
    assert TITLE[0] == '#' && TITLE[1] == ' ' && NOTE[0] == 'T' && PURPOSE[0] == 'E';
    EmptyLine();
    ProseLine(TITLE);
    ProseLine(NOTE);
    ProseLine(PURPOSE);
  }

  lemma HeaderBlocks(rest: seq<string>)
    ensures BlocksFrom(HEADER_LINES + rest, []) == [HEADER_LINES[..5]] + BlocksFrom(rest, [""])
  {
    hide IsSeparator, IsHeading, BlocksFrom;
    var head := HEADER_LINES[..5];
    HeaderLinesPlain();
    assert HEADER_LINES + rest == head + (["---", ""] + rest);
    BlocksPlain(head, ["---", ""] + rest, []);
    assert [] + head == head;
    SeparatorCloses(head, rest);
  }

  lemma {:induction false} ClausesConcat(a: seq<seq<string>>, b: seq<seq<string>>, model: string, hash: string)
    ensures ClausesOf(a + b, model, hash) == ClausesOf(a, model, hash) + ClausesOf(b, model, hash)
  {
    hide BlockClauses;
    if a == [] {
      assert a + b == b;
    } else {
      assert (a + b)[0] == a[0] && (a + b)[1..] == a[1..] + b;
      ClausesConcat(a[1..], b, model, hash);
    }
  }

  lemma UnvalidatedBlock(lines: seq<string>, model: string, hash: string)
    requires forall k :: 0 <= k < |lines| ==> MatchValidated(lines[k]) == None
    ensures ClausesOf([lines], model, hash) == []
  {
    NoValidations(lines);
  }

  lemma {:induction false} ClausesOfEntries(es: seq<Entry>, model: string, hash: string)
    requires AllEntriesSafe(es)
    ensures ClausesOf(BlocksFrom(EntryLines(es), [""]), model, hash) == LoadedClauses(es, model, hash)
  {
    hide EntrySafe, BodyLines, Loads, BlockClauses;
    EmptyLine();
    UnvalidatedBlock([""], model, hash);
    if es == [] {
      assert BlocksFrom([], [""]) == [[""]];
    } else {
      var rest := EntryLines(es[1..]);
      EntryBlocks(es[0], rest);
      ClausesConcat([[""], BodyLines(es[0])], BlocksFrom(rest, [""]), model, hash);
      ClausesConcat([[""]], [BodyLines(es[0])], model, hash);
      assert [[""]] + [BodyLines(es[0])] == [[""], BodyLines(es[0])];
      BodyContributes(es[0], model, hash);
      ClausesOfEntries(es[1..], model, hash);
    }
  }

  /** The header contributes no clause: what follows it is parsed as if it were not there. */
  lemma HeaderContributesNothing(rest: seq<string>, model: string, hash: string)
    ensures ClausesOf(BlocksFrom(HEADER_LINES + rest, []), model, hash) == ClausesOf(BlocksFrom(rest, [""]), model, hash)
  {
    hide BlocksFrom, ClausesOf;
    HeaderBlocks(rest);
    ClausesConcat([HEADER_LINES[..5]], BlocksFrom(rest, [""]), model, hash);
    HeaderLinesPlain();
    UnvalidatedBlock(HEADER_LINES[..5], model, hash);
  }

  /** Parsing the header and any entries whose fields stay on their lines gives back exactly
      the clauses of the validated records of the scope, stripped, in order. */
  lemma ParserInvertsPrinter(es: seq<Entry>, model: string, hash: string)
    requires AllEntriesSafe(es)
    ensures LoadLegacy(Markdown(es), model, hash) == LoadedClauses(es, model, hash)
  {
    hide EntrySafe, BlocksFrom, EntryLines, Entries;
    var lines := HEADER_LINES + EntryLines(es);
    EntriesAreLines(es);
    HeaderSafe();
    UnlinesConcat(HEADER_LINES, EntryLines(es));
    SplitUnlines(lines, "");
    assert Unlines(lines) + "" == Unlines(lines) && lines + SplitLines("") == lines;
    SplitNormalize(Markdown(es));
    HeaderContributesNothing(EntryLines(es), model, hash);
    ClausesOfEntries(es, model, hash);
  }
}
