/** Line-level text handling of the Markdown memory file: splitting, stripping, the printed
    entry, the anchored line recognisers of the legacy parser, and the parser itself. */
module MemoryText {
  import opened Common

  // ---------- characters and lines ----------

  /** The characters at which str.splitlines breaks. */
  predicate IsBreak(c: char) {
    '\n' <= c <= '\r' || '\U{1C}' <= c <= '\U{1E}' || c == '\U{85}' || c == '\U{2028}' || c == '\U{2029}'
  }

  /** The characters that str.strip and the regular expressions' \s take. */
  predicate IsSpace(c: char) {
    || '\t' <= c <= '\r' || '\U{1C}' <= c <= ' ' || c == '\U{85}' || c == '\U{A0}' || c == '\U{1680}'
    || '\U{2000}' <= c <= '\U{200A}' || c == '\U{2028}' || c == '\U{2029}' || c == '\U{202F}'
    || c == '\U{205F}' || c == '\U{3000}'
  }

  /** str.lower on one ASCII character; other characters are left alone. */
  function LowerChar(c: char): (l: char)
    ensures IsSpace(l) == IsSpace(c)
  {
    if 'A' <= c <= 'Z' then (c as int + 32) as char else c
  }

  function Lower(s: string): (l: string)
    ensures |l| == |s|
    ensures forall k :: 0 <= k < |s| ==> l[k] == LowerChar(s[k])
  {
    seq(|s|, k requires 0 <= k < |s| => LowerChar(s[k]))
  }

  predicate LineSafe(s: string) {
    forall k :: 0 <= k < |s| ==> !IsBreak(s[k])
  }

  function LineLength(s: string): (n: nat)
    ensures n <= |s| && LineSafe(s[..n])
    ensures n < |s| ==> IsBreak(s[n])
  {
    if s == "" || IsBreak(s[0]) then 0 else 1 + LineLength(s[1..])
  }

  /** Where the next line starts: a carriage return and a line feed count as one break. */
  function NextLine(s: string, n: nat): (m: nat)
    requires n < |s|
    ensures n < m <= |s|
  {
    if s[n] == '\r' && n + 1 < |s| && s[n + 1] == '\n' then n + 2 else n + 1
  }

  function SplitLines(s: string): seq<string>
    decreases |s|
  {
    if s == "" then []
    else
      var n := LineLength(s);
      [s[..n]] + if n == |s| then [] else SplitLines(s[NextLine(s, n)..])
  }

  lemma {:induction false} SplitLinesSafe(s: string, k: nat)
    requires k < |SplitLines(s)|
    ensures LineSafe(SplitLines(s)[k])
    decreases |s|
  {
    hide LineSafe, LineLength, NextLine;
    if k == 0 {
    } else {
      SplitLinesSafe(s[NextLine(s, LineLength(s))..], k - 1);
    }
  }

  /** Every line followed by a line feed. */
  function Unlines(ls: seq<string>): string {
    if ls == [] then "" else ls[0] + "\n" + Unlines(ls[1..])
  }

  predicate AllSafe(ls: seq<string>) {
    forall k :: 0 <= k < |ls| ==> LineSafe(ls[k])
  }

  lemma {:induction false} LineLengthAt(a: string, c: char, rest: string)
    requires LineSafe(a) && IsBreak(c)
    ensures LineLength(a + [c] + rest) == |a|
  {
    if a == "" {
    } else {
      assert (a + [c] + rest)[1..] == a[1..] + [c] + rest;
      LineLengthAt(a[1..], c, rest);
    }
  }

  /** The first line of a text, up to a break that is not the first half of a longer one. */
  lemma SplitFirst(a: string, c: char, tail: string)
    requires LineSafe(a) && IsBreak(c) && c != '\r'
    ensures SplitLines(a + [c] + tail) == [a] + SplitLines(tail)
  {
    var s := a + [c] + tail;
    LineLengthAt(a, c, tail);
    assert s[..|a|] == a && s[NextLine(s, |a|)..] == tail;
  }

  lemma UnlinesStep(ls: seq<string>, rest: string)
    requires ls != []
    ensures Unlines(ls) + rest == ls[0] + ['\n'] + (Unlines(ls[1..]) + rest)
  {
  }

  lemma {:induction false} SplitUnlines(ls: seq<string>, rest: string)
    requires AllSafe(ls)
    ensures SplitLines(Unlines(ls) + rest) == ls + SplitLines(rest)
  {
    if ls == [] {
      assert Unlines(ls) + rest == rest;
    } else {
      UnlinesStep(ls, rest);
      SplitFirst(ls[0], '\n', Unlines(ls[1..]) + rest);
      SplitUnlines(ls[1..], rest);
      HeadTail(ls, SplitLines(rest));
    }
  }

  lemma {:induction false} UnlinesConcat(a: seq<string>, b: seq<string>)
    ensures Unlines(a + b) == Unlines(a) + Unlines(b)
  {
    if a == [] {
      assert a + b == b;
    } else {
      assert (a + b)[1..] == a[1..] + b;
      UnlinesConcat(a[1..], b);
    }
  }

  /** "\n".join(ls) */
  function Join(ls: seq<string>): string {
    if ls == [] then "" else if |ls| == 1 then ls[0] else ls[0] + "\n" + Join(ls[1..])
  }

  /** Joining lines and splitting again loses one empty last line and nothing else. */
  lemma {:induction false} SplitJoin(ls: seq<string>)
    requires AllSafe(ls)
    ensures SplitLines(Join(ls)) == if ls != [] && ls[|ls| - 1] == "" then ls[..|ls| - 1] else ls
  {
    if |ls| == 1 {
      var s := ls[0];
      if s != "" {
        assert LineLength(s) == |s| && s[..|s|] == s;
      }
    } else if ls != [] {
      SplitFirst(ls[0], '\n', Join(ls[1..]));
      assert Join(ls) == ls[0] + ['\n'] + Join(ls[1..]);
      SplitJoin(ls[1..]);
    }
  }

  /** content.replace("\r\n", "\n").replace("\r", "\n") */
  function Normalize(s: string): string {
    if s == "" then ""
    else if s[0] != '\r' then [s[0]] + Normalize(s[1..])
    else if |s| > 1 && s[1] == '\n' then "\n" + Normalize(s[2..])
    else "\n" + Normalize(s[1..])
  }

  /** Normalising the line ends changes nothing that splitlines can see. */
  lemma {:induction false} SplitNormalize(s: string)
    ensures SplitLines(Normalize(s)) == SplitLines(s)
    decreases |s|
  {
    if s == "" {
    } else {
      var n := LineLength(s);
      NormalizeFirstLine(s, n);
      if n < |s| {
        SplitNormalize(s[NextLine(s, n)..]);
        SplitAfterBreak(s, n);
      }
    }
  }

  lemma SplitAfterBreak(s: string, n: nat)
    requires n == LineLength(s) < |s|
    ensures SplitLines(s[..n] + AfterBreak(s, n)) == [s[..n]] + SplitLines(Normalize(s[NextLine(s, n)..]))
  {
    hide Normalize, SplitLines, LineLength, LineSafe, NextLine;
    var head, c, rest := s[..n], if s[n] == '\r' then '\n' else s[n], Normalize(s[NextLine(s, n)..]);
    SplitFirst(head, c, rest);
    assert head + ([c] + rest) == head + [c] + rest;
  }

  /** What normalising leaves of a text from its first break on. */
  function AfterBreak(s: string, n: nat): string
    requires n <= |s|
  {
    if n == |s| then "" else [if s[n] == '\r' then '\n' else s[n]] + Normalize(s[NextLine(s, n)..])
  }

  lemma AfterBreakTail(s: string, n: nat)
    requires 0 < n <= |s|
    ensures AfterBreak(s[1..], n - 1) == AfterBreak(s, n)
  {
    hide Normalize;
    if n < |s| { assert s[1..][NextLine(s[1..], n - 1)..] == s[NextLine(s, n)..]; }
  }

  lemma NormalizeAtBreak(s: string)
    requires s != "" && IsBreak(s[0])
    ensures Normalize(s) == AfterBreak(s, 0)
  {
  }

  lemma {:induction false} NormalizeFirstLine(s: string, n: nat)
    requires n == LineLength(s)
    ensures Normalize(s) == s[..n] + AfterBreak(s, n)
  {
    if n > 0 {
      hide AfterBreak;
      NormalizeFirstLine(s[1..], n - 1);
      AfterBreakTail(s, n);
      assert Normalize(s) == [s[0]] + Normalize(s[1..]);
      assert s[..n] == [s[0]] + s[1..][..n - 1];
    } else if s != "" {
      NormalizeAtBreak(s);
    }
  }

  // ---------- stripping ----------

  function LStrip(s: string): (r: string)
    ensures |r| <= |s|
    ensures r != "" ==> !IsSpace(r[0])
  {
    if s == "" || !IsSpace(s[0]) then s else LStrip(s[1..])
  }

  function RStrip(s: string): (r: string)
    ensures |r| <= |s|
    ensures r != "" ==> !IsSpace(r[|r| - 1])
  {
    if s == "" || !IsSpace(s[|s| - 1]) then s else RStrip(s[..|s| - 1])
  }

  function Strip(s: string): (r: string)
    ensures |r| <= |s|
  {
    RStrip(LStrip(s))
  }

  lemma {:induction false} LStripSuffix(s: string)
    ensures LStrip(s) == s[|s| - |LStrip(s)|..]
  {
    if s != "" && IsSpace(s[0]) { LStripSuffix(s[1..]); }
  }

  lemma {:induction false} RStripPrefix(s: string)
    ensures RStrip(s) == s[..|RStrip(s)|]
  {
    if s != "" && IsSpace(s[|s| - 1]) { RStripPrefix(s[..|s| - 1]); }
  }

  /** A text without surrounding white space. */
  predicate Stripped(s: string) {
    s == "" || (!IsSpace(s[0]) && !IsSpace(s[|s| - 1]))
  }

  lemma StripIdempotent(s: string)
    ensures Stripped(Strip(s)) && Strip(Strip(s)) == Strip(s) && Strip(LStrip(s)) == Strip(s)
    ensures Stripped(s) <==> Strip(s) == s
  {
    hide IsSpace;
    LStripSuffix(s);
    RStripPrefix(LStrip(s));
    assert Stripped(Strip(s));
  }

  lemma StripSafe(s: string)
    requires LineSafe(s)
    ensures LineSafe(Strip(s))
  {
    hide IsSpace, IsBreak, LStrip, RStrip, LineSafe;
    var l := LStrip(s);
    LStripSuffix(s);
    RStripPrefix(l);
    assert s[|s| - |l|..|s|] == l && l[0..|RStrip(l)|] == RStrip(l);
    PartSafe(s, |s| - |l|, |s|);
    PartSafe(l, 0, |RStrip(l)|);
  }

  lemma PartSafe(s: string, from: nat, to: nat)
    requires LineSafe(s) && from <= to <= |s|
    ensures LineSafe(s[from..to])
  {
    hide IsBreak;
  }

  // ---------- line recognisers ----------

  function After(prefix: string, s: string): Option<string> {
    if prefix <= s then Some(s[|prefix|..]) else None
  }

  function TickLength(s: string): (n: nat)
    ensures n <= |s|
    ensures forall k :: 0 <= k < n ==> s[k] != '`'
    ensures n < |s| ==> s[n] == '`'
  {
    if s == "" || s[0] == '`' then 0 else 1 + TickLength(s[1..])
  }

  /** A back-quoted, non-empty group at the start of s, and what follows it. */
  function Quoted(s: string): Option<(string, string)> {
    match After("`", s)
    case None => None
    case Some(t) =>
      var n := TickLength(t);
      if n == 0 || n == |t| then None else Some((t[..n], t[n + 1..]))
  }

  /** \s*word */
  function Word(word: string, s: string): Option<string> {
    After(word, LStrip(s))
  }

  /** \s*=\s*`group` */
  function Assigned(s: string): Option<(string, string)> {
    match Word("=", s)
    case None => None
    case Some(t) => Quoted(LStrip(t))
  }

  /** \s*name\s*=\s*`group` */
  function Field(name: string, s: string): Option<(string, string)> {
    match Word(name, s)
    case None => None
    case Some(t) => Assigned(t)
  }

  /** \s*\|\s*prompt_hash\s*=\s*`g2`\s*$ */
  function HashField(s: string): Option<string> {
    match Word("|", s)
    case None => None
    case Some(t) =>
      match Field("prompt_hash", t)
      case None => None
      case Some((hash, rest)) => if LStrip(rest) == "" then Some(hash) else None
  }

  /** ^\s*\*\*Scope:\*\*\s*model\s*=\s*`g1`\s*\|\s*prompt_hash\s*=\s*`g2`\s*$ */
  function MatchScope(line: string): Option<(string, string)> {
    match Word("**Scope:**", line)
    case None => None
    case Some(t) =>
      match Field("model", t)
      case None => None
      case Some((model, rest)) =>
        match HashField(rest)
        case None => None
        case Some(hash) => Some((model, hash))
  }

  const CHECK := "\U{2705}"
  const CROSS := "\U{274C}"
  const YES := "\U{2705} YES"
  const NO := "\U{274C} NO"

  function MatchVerdict(sign: string, word: string, s: string): Option<string> {
    match After(sign, s)
    case None => None
    case Some(a) =>
      match Word(word, a)
      case None => None
      case Some(b) =>
        if b == "" || IsSpace(b[0]) then
          assert |b| <= |LStrip(a)| <= |a| <= |s|;
          Some(s[..|s| - |b|])
        else None
  }

  /** ^\s*\*\*Validated:\*\*\s*(check\s*YES|cross\s*NO)(?:\s|$), the group */
  function MatchValidated(line: string): Option<string> {
    match Word("**Validated:**", line)
    case None => None
    case Some(a) =>
      var t := LStrip(a);
      if MatchVerdict(CHECK, "YES", t).Some? then MatchVerdict(CHECK, "YES", t) else MatchVerdict(CROSS, "NO", t)
  }

  /** ^\s*##\s+ */
  predicate IsHeading(line: string) {
    match Word("##", line)
    case None => false
    case Some(a) => a != "" && IsSpace(a[0])
  }

  /** ^\s*---\s*$ */
  predicate IsSeparator(line: string) {
    Strip(line) == "---"
  }

  /** ^\s*>\s*\*\*Guardrail clause:\*\*\s*(.*)$, the group stripped */
  function MatchClause(line: string): Option<string> {
    match Word(">", line)
    case None => None
    case Some(a) =>
      match Word("**Guardrail clause:**", a)
      case None => None
      case Some(b) => Some(Strip(b))
  }

  /** ^\s*>\s?(.*)$, the group stripped */
  function MatchQuote(line: string): Option<string> {
    match Word(">", line)
    case None => None
    case Some(a) => Some(Strip(a))
  }

  // ---------- the parser ----------

  /** What _entry_blocks makes of the remaining lines when `current` is the open block. */
  function BlocksFrom(lines: seq<string>, current: seq<string>): seq<seq<string>> {
    if lines == [] then if current == [] then [] else [current]
    else
      var line := lines[0];
      var flush := (IsSeparator(line) || IsHeading(line)) && current != [];
      var kept := if flush then [] else current;
      (if flush then [current] else []) +
      BlocksFrom(lines[1..], if IsSeparator(line) then kept else kept + [line])
  }

  function Validations(lines: seq<string>): seq<string> {
    if lines == [] then []
    else (match MatchValidated(lines[0]) case None => [] case Some(g) => [g]) + Validations(lines[1..])
  }

  function Scopes(lines: seq<string>): seq<(string, string)> {
    if lines == [] then []
    else (match MatchScope(lines[0]) case None => [] case Some(g) => [g]) + Scopes(lines[1..])
  }

  /** The quoted continuation lines of a clause, blank ones left out. */
  function Continuation(lines: seq<string>): seq<string> {
    if lines == [] then []
    else
      match MatchQuote(lines[0])
      case None => []
      case Some(v) => (if v != "" then [v] else []) + Continuation(lines[1..])
  }

  function JoinWords(words: seq<string>): string {
    if words == [] then "" else if |words| == 1 then words[0] else words[0] + " " + JoinWords(words[1..])
  }

  /** The clause of a block: its first clause marker with its continuation lines. */
  function FirstClause(lines: seq<string>): string {
    if lines == [] then ""
    else
      match MatchClause(lines[0])
      case None => FirstClause(lines[1..])
      case Some(first) =>
        Strip(JoinWords((if first != "" then [first] else []) + Continuation(lines[1..])))
  }

  /** The clause a block contributes to a scope: a list of length at most one. */
  function BlockClauses(lines: seq<string>, model: string, hash: string): seq<string> {
    if Validations(lines) != [YES] || Scopes(lines) != [(model, hash)] then []
    else
      var clause := FirstClause(SplitLines(Join(lines)));
      if clause == "" then [] else [clause]
  }

  function ClausesOf(blocks: seq<seq<string>>, model: string, hash: string): seq<string> {
    if blocks == [] then [] else BlockClauses(blocks[0], model, hash) + ClausesOf(blocks[1..], model, hash)
  }

  function LoadLegacy(content: string, model: string, hash: string): seq<string> {
    ClausesOf(BlocksFrom(SplitLines(Normalize(content)), []), model, hash)
  }

  /** One step of the block loop: the blocks closed by a line and the block left open. */
  function ClosedBy(line: string, current: seq<string>): seq<seq<string>> {
    if (IsSeparator(line) || IsHeading(line)) && current != [] then [current] else []
  }

  function OpenAfter(line: string, current: seq<string>): seq<string> {
    (if ClosedBy(line, current) != [] then [] else current) + if IsSeparator(line) then [] else [line]
  }

  lemma BlocksStep(lines: seq<string>, current: seq<string>)
    requires lines != []
    ensures BlocksFrom(lines, current) == ClosedBy(lines[0], current) + BlocksFrom(lines[1..], OpenAfter(lines[0], current))
  {
    hide IsSeparator, IsHeading;
    var kept := if ClosedBy(lines[0], current) != [] then [] else current;
    assert kept + [] == kept;
  }

  /** _entry_blocks */
  method EntryBlocks(content: string) returns (blocks: seq<seq<string>>)
    ensures blocks == BlocksFrom(SplitLines(content), [])
  {
    hide BlocksFrom, IsSeparator, IsHeading, SplitLines;
    var lines := SplitLines(content);
    var current: seq<string> := [];
    blocks := [];
    assert lines[0..] == lines;
    for k := 0 to |lines|
      invariant blocks + BlocksFrom(lines[k..], current) == BlocksFrom(lines, [])
    {
      var line := lines[k];
      DropOne(lines, k);
      BlocksStep(lines[k..], current);
      Assoc(blocks, ClosedBy(line, current), BlocksFrom(lines[k + 1..], OpenAfter(line, current)));
      ghost var closed, open := ClosedBy(line, current), OpenAfter(line, current);
      ghost var before := blocks;
      if (IsSeparator(line) || IsHeading(line)) && current != [] {
        blocks, current := blocks + [current], [];
      }
      if !IsSeparator(line) {
        current := current + [line];
      }
      assert current == open && blocks == before + closed;
    }
    BlocksEnd(current);
    assert lines[|lines|..] == [];
    if current != [] {
      blocks := blocks + [current];
    }
  }

  lemma BlocksEnd(current: seq<string>)
    ensures BlocksFrom([], current) == if current == [] then [] else [current]
  {
  }

  function Matched<T>(m: Option<T>): seq<T> {
    match m case None => [] case Some(g) => [g]
  }

  method CollectValidations(lines: seq<string>) returns (groups: seq<string>)
    ensures groups == Validations(lines)
  {
    hide MatchValidated;
    groups := [];
    assert lines[0..] == lines;
    for k := 0 to |lines|
      invariant groups + Validations(lines[k..]) == Validations(lines)
    {
      DropOne(lines, k);
      var m := MatchValidated(lines[k]);
      Assoc(groups, Matched(m), Validations(lines[k + 1..]));
      if m.Some? { groups := groups + [m.value]; }
    }
  }

  method CollectScopes(lines: seq<string>) returns (groups: seq<(string, string)>)
    ensures groups == Scopes(lines)
  {
    hide MatchScope;
    groups := [];
    assert lines[0..] == lines;
    for k := 0 to |lines|
      invariant groups + Scopes(lines[k..]) == Scopes(lines)
    {
      DropOne(lines, k);
      var m := MatchScope(lines[k]);
      Assoc(groups, Matched(m), Scopes(lines[k + 1..]));
      if m.Some? { groups := groups + [m.value]; }
    }
  }

  /** The quoted lines that continue a clause. */
  method ReadContinuation(lines: seq<string>) returns (parts: seq<string>)
    ensures parts == Continuation(lines)
  {
    hide MatchQuote;
    parts := [];
    assert lines[0..] == lines;
    for k := 0 to |lines|
      invariant parts + Continuation(lines[k..]) == Continuation(lines)
    {
      DropOne(lines, k);
      var quoted := MatchQuote(lines[k]);
      if quoted.None? { break; }
      Assoc(parts, if quoted.value != "" then [quoted.value] else [], Continuation(lines[k + 1..]));
      if quoted.value != "" { parts := parts + [quoted.value]; }
    }
  }

  /** The first clause marker with its quoted continuation lines. */
  method ReadClause(lines: seq<string>) returns (clause: string)
    ensures clause == FirstClause(lines)
  {
    hide MatchClause, Strip, JoinWords, Continuation;
    assert lines[0..] == lines;
    for k := 0 to |lines|
      invariant FirstClause(lines[k..]) == FirstClause(lines)
    {
      DropOne(lines, k);
      var marker := MatchClause(lines[k]);
      if marker.Some? {
        var more := ReadContinuation(lines[k + 1..]);
        return Strip(JoinWords((if marker.value != "" then [marker.value] else []) + more));
      }
    }
    clause := "";
  }

  method ReadBlock(block: seq<string>, model: string, hash: string) returns (clauses: seq<string>)
    ensures clauses == BlockClauses(block, model, hash)
  {
    hide Validations, Scopes, FirstClause, SplitLines, Join;
    clauses := [];
    var validations := CollectValidations(block);
    if validations != [YES] { return; }
    var scopes := CollectScopes(block);
    if scopes != [(model, hash)] { return; }
    var clause := ReadClause(SplitLines(Join(block)));
    if clause != "" { clauses := [clause]; }
  }

  method LoadLegacyGuardrails(content: string, model: string, hash: string) returns (clauses: seq<string>)
    ensures clauses == LoadLegacy(content, model, hash)
  {
    hide BlockClauses, BlocksFrom, SplitLines, Normalize;
    var blocks := EntryBlocks(Normalize(content));
    clauses := [];
    assert blocks[0..] == blocks;
    for k := 0 to |blocks|
      invariant clauses + ClausesOf(blocks[k..], model, hash) == ClausesOf(blocks, model, hash)
    {
      DropOne(blocks, k);
      var found := ReadBlock(blocks[k], model, hash);
      Assoc(clauses, found, ClausesOf(blocks[k + 1..], model, hash));
      clauses := clauses + found;
    }
  }
}
