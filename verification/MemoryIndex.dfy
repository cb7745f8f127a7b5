/** The memory index: a JSONL store and a Markdown store kept side by side, the appends that
    fill both, and the agreement of the two guardrail views they give. */
module MemoryIndex {
  import opened Common
  import opened MemoryText
  import opened MemoryFormat

  // ---------- clause normalisation ----------

  function WordLength(s: string): (n: nat)
    ensures n <= |s|
    ensures s != "" && !IsSpace(s[0]) ==> n > 0
  {
    if s == "" || IsSpace(s[0]) then 0 else 1 + WordLength(s[1..])
  }

  /** str.split() */
  function Words(s: string): seq<string>
    decreases |s|
  {
    var t := LStrip(s);
    if t == "" then [] else [t[..WordLength(t)]] + Words(t[WordLength(t)..])
  }

  /** " ".join(clause.lower().split()) */
  function Norm(s: string): string {
    JoinWords(Words(Lower(s)))
  }

  lemma {:induction false} LStripAppendSpace(s: string, c: char)
    requires IsSpace(c)
    ensures LStrip(s + [c]) == if LStrip(s) == "" then "" else LStrip(s) + [c]
  {
    if s == "" {
      assert (s + [c])[1..] == "";
    } else if IsSpace(s[0]) {
      assert (s + [c])[1..] == s[1..] + [c];
      LStripAppendSpace(s[1..], c);
    }
  }

  lemma {:induction false} WordLengthAppendSpace(s: string, c: char)
    requires IsSpace(c)
    ensures WordLength(s + [c]) == WordLength(s)
  {
    if s != "" && !IsSpace(s[0]) {
      assert (s + [c])[1..] == s[1..] + [c];
      WordLengthAppendSpace(s[1..], c);
    }
  }

  lemma {:induction false} WordsAppendSpace(s: string, c: char)
    requires IsSpace(c)
    ensures Words(s + [c]) == Words(s)
    decreases |s|
  {
    var t := LStrip(s);
    LStripAppendSpace(s, c);
    if t == "" {
    } else {
      var n := WordLength(t);
      WordLengthAppendSpace(t, c);
      assert (t + [c])[..n] == t[..n] && (t + [c])[n..] == t[n..] + [c];
      WordsAppendSpace(t[n..], c);
    }
  }

  lemma {:induction false} WordsRStrip(s: string)
    ensures Words(RStrip(s)) == Words(s)
  {
    if s != "" && IsSpace(s[|s| - 1]) {
      WordsRStrip(s[..|s| - 1]);
      WordsAppendSpace(s[..|s| - 1], s[|s| - 1]);
      assert s[..|s| - 1] + [s[|s| - 1]] == s;
    }
  }

  lemma {:induction false} LowerLStrip(s: string)
    ensures Lower(LStrip(s)) == LStrip(Lower(s))
  {
    hide IsSpace;
    if s != "" && IsSpace(s[0]) {
      LowerLStrip(s[1..]);
      assert Lower(s)[1..] == Lower(s[1..]);
    }
  }

  lemma {:induction false} LowerRStrip(s: string)
    ensures Lower(RStrip(s)) == RStrip(Lower(s))
  {
    hide IsSpace;
    if s != "" && IsSpace(s[|s| - 1]) {
      LowerRStrip(s[..|s| - 1]);
      assert Lower(s)[..|s| - 1] == Lower(s[..|s| - 1]);
    }
  }

  /** Surrounding white space does not change what a clause counts as. */
  lemma NormStrip(s: string)
    ensures Norm(Strip(s)) == Norm(s)
  {
    LowerLStrip(s);
    LowerRStrip(LStrip(s));
    WordsRStrip(LStrip(Lower(s)));
  }

  lemma NormEmpty(s: string)
    ensures Norm(s) == "" <==> Strip(s) == ""
  {
    var t := LStrip(Lower(s));
    LowerLStrip(s);
    if LStrip(s) != "" {
      RStripKeepsHead(LStrip(s));
      assert Words(Lower(s))[0] == t[..WordLength(t)];
    }
  }

  // ---------- deduplication ----------

  predicate NormIn(clause: string, items: seq<string>) {
    exists k :: 0 <= k < |items| && Norm(items[k]) == Norm(clause)
  }

  /** The first occurrence of every clause, compared by its norm. */
  function Dedup(items: seq<string>): seq<string> {
    if items == [] then []
    else
      var kept := Dedup(items[..|items| - 1]);
      if NormIn(items[|items| - 1], kept) then kept else kept + [items[|items| - 1]]
  }

  predicate DistinctNorms(items: seq<string>) {
    forall i, j :: 0 <= i < j < |items| ==> Norm(items[i]) != Norm(items[j])
  }

  lemma {:induction false} DedupDistinct(items: seq<string>)
    ensures DistinctNorms(Dedup(items))
  {
    hide Norm;
    if items == [] {
    } else {
      DedupDistinct(items[..|items| - 1]);
    }
  }

  function StripAll(items: seq<string>): (out: seq<string>)
    ensures |out| == |items|
    ensures forall k :: 0 <= k < |items| ==> out[k] == Strip(items[k])
  {
    seq(|items|, k requires 0 <= k < |items| => Strip(items[k]))
  }

  /** dedup_clauses */
  method DedupClauses(items: seq<string>) returns (out: seq<string>)
    ensures out == Dedup(items)
  {
    hide Norm;
    var seen: set<string> := {};
    out := [];
    for k := 0 to |items|
      invariant out == Dedup(items[..k])
      invariant forall n :: n in seen <==> exists j :: 0 <= j < |out| && Norm(out[j]) == n
    {
      assert items[..k + 1][..k] == items[..k];
      var norm := Norm(items[k]);
      if norm !in seen {
        ghost var before := out;
        seen, out := seen + {norm}, out + [items[k]];
        assert Norm(out[|before|]) == norm;
        assert forall j :: 0 <= j < |before| ==> out[j] == before[j];
      }
    }
    assert items[..|items|] == items;
  }

  // ---------- the two stores ----------

  const ACTIVE := "active_guardrail"

  datatype Store = Store(deployments: seq<Record>, markdown: string)

  predicate Scoped(r: Record, model: string, hash: string) {
    && r.model == model && r.promptHash == hash && r.passed
    && (r.status.None? || r.status.value == ACTIVE)
  }

  function ScopedClauses(ds: seq<Record>, model: string, hash: string): seq<string> {
    if ds == [] then []
    else
      var r := ds[|ds| - 1];
      ScopedClauses(ds[..|ds| - 1], model, hash) + if Scoped(r, model, hash) then [r.clause] else []
  }

  function ScopedPick(model: string, hash: string): Record -> Option<string> {
    (r: Record) => if Scoped(r, model, hash) then Some(r.clause) else None
  }

  lemma {:induction false} ScopedKept(ds: seq<Record>, model: string, hash: string)
    ensures ScopedClauses(ds, model, hash) == Kept(ds, ScopedPick(model, hash))
  {
    hide Scoped;
    if ds == [] {
    } else {
      ScopedKept(ds[..|ds| - 1], model, hash);
    }
  }

  /** A scope sees, in order, the clauses of the stored records that name it, were validated, and are
      active or carry no status. */
  lemma ScopedTells(ds: seq<Record>, model: string, hash: string) returns (ix: seq<nat>)
    ensures Picks(ds, ScopedClauses(ds, model, hash), ix, (r: Record) =>
              if r.model == model && r.promptHash == hash && r.passed
                 && (r.status.None? || r.status.value == "active_guardrail") then Some(r.clause) else None)
  {
    hide ScopedClauses, Kept;
    ScopedKept(ds, model, hash);
    ix := KeptPicks(ds, ScopedPick(model, hash));
  }

  function StructuredView(ds: seq<Record>, model: string, hash: string): seq<string> {
    Dedup(ScopedClauses(ds, model, hash))
  }

  function LegacyView(markdown: string, model: string, hash: string): seq<string> {
    Dedup(LoadLegacy(markdown, model, hash))
  }

  function LoadScoped(st: Store, model: string, hash: string): seq<string> {
    if st.deployments != [] then StructuredView(st.deployments, model, hash)
    else LegacyView(st.markdown, model, hash)
  }

  function RemoveAll(s: string, what: string): string
    requires what != ""
    decreases |s|
  {
    if s == "" then ""
    else if what <= s then RemoveAll(s[|what|..], what)
    else [s[0]] + RemoveAll(s[1..], what)
  }

  /** str.strip("`") */
  function StripTicks(s: string): string
    decreases |s|
  {
    if s == "" then ""
    else if s[0] == '`' then StripTicks(s[1..])
    else if s[|s| - 1] == '`' then StripTicks(s[..|s| - 1])
    else s
  }

  predicate TracePrinted(lines: seq<string>, traceId: string) {
    exists k :: 0 <= k < |lines| && "**Trace:**" <= lines[k]
                && StripTicks(Strip(RemoveAll(lines[k], "**Trace:**"))) == traceId
  }

  predicate HasTrace(ds: seq<Record>, traceId: string) {
    exists k :: 0 <= k < |ds| && ds[k].traceId == traceId
  }

  /** _is_duplicate: the JSONL store decides, and the Markdown file only while it is empty. */
  predicate DuplicateTrace(st: Store, traceId: string) {
    if st.deployments != [] then HasTrace(st.deployments, traceId)
    else TracePrinted(SplitLines(st.markdown), traceId)
  }

  /** _is_duplicate_clause */
  predicate DuplicateClause(st: Store, r: Record) {
    Norm(r.clause) != "" && NormIn(r.clause, LoadScoped(st, r.model, r.promptHash))
  }

  /** One call of append: the record, the status argument, the canary decision, the clock. */
  datatype Op = Op(record: Record, status: string, blocked: bool, timestamp: string)

  function Stamped(op: Op): Record {
    op.record.(status := Some(op.status))
  }

  predicate Accepts(st: Store, op: Op) {
    !op.blocked && !DuplicateTrace(st, op.record.traceId)
  }

  function Appended(st: Store, op: Op): Store {
    if !Accepts(st, op) then st
    else
      Store(st.deployments + [Stamped(op)],
            if DuplicateClause(st, Stamped(op)) then st.markdown
            else st.markdown + FormatEntry(Entry(Stamped(op), op.timestamp)))
  }

  function AppendedAll(st: Store, ops: seq<Op>): Store {
    if ops == [] then st else Appended(AppendedAll(st, ops[..|ops| - 1]), ops[|ops| - 1])
  }

  const FRESH := Store([], Unlines(HEADER_LINES))

  /** Fresh files after a sequence of appends. */
  function Run(ops: seq<Op>): Store {
    AppendedAll(FRESH, ops)
  }

  /** The index object: both files behind their locks. */
  class Index {
    var deployments: seq<Record>
    var markdown: string

    ghost function State(): Store
      reads this
    {
      Store(deployments, markdown)
    }

    constructor ()
      ensures State() == FRESH
    {
      deployments, markdown := [], Unlines(HEADER_LINES);
    }

    method LoadScopedGuardrails(model: string, hash: string) returns (clauses: seq<string>)
      ensures clauses == LoadScoped(State(), model, hash)
    {
      if deployments != [] {
        var scoped: seq<string> := [];
        for k := 0 to |deployments|
          invariant scoped == ScopedClauses(deployments[..k], model, hash)
        {
          assert deployments[..k + 1][..k] == deployments[..k];
          var r := deployments[k];
          if r.model == model && r.promptHash == hash && r.passed && (r.status.None? || r.status.value == ACTIVE) {
            scoped := scoped + [r.clause];
          }
        }
        assert deployments[..|deployments|] == deployments;
        clauses := DedupClauses(scoped);
      } else {
        var legacy := LoadLegacyGuardrails(markdown, model, hash);
        clauses := DedupClauses(legacy);
      }
    }

    method IsDuplicateClause(r: Record) returns (dup: bool)
      ensures dup == DuplicateClause(State(), r)
    {
      hide Norm, LoadScoped;
      var incoming := Norm(r.clause);
      if incoming == "" { return false; }
      var existing := LoadScopedGuardrails(r.model, r.promptHash);
      dup := false;
      for k := 0 to |existing|
        invariant dup == exists j :: 0 <= j < k && Norm(existing[j]) == incoming
      {
        if Norm(existing[k]) == incoming { dup := true; }
      }
    }

    /** Returns whether the record was written, and the record with its new metadata. */
    method Append(op: Op) returns (written: bool, record: Record)
      modifies this
      ensures written == Accepts(old(State()), op)
      ensures record == if written then Stamped(op) else op.record
      ensures State() == Appended(old(State()), op)
    {
      record := op.record;
      if op.blocked || DuplicateTrace(Store(deployments, markdown), op.record.traceId) {
        return false, record;
      }
      record := record.(status := Some(op.status));
      var dup := IsDuplicateClause(record);
      if !dup {
        markdown := markdown + FormatEntry(Entry(record, op.timestamp));
      }
      deployments := deployments + [record];
      written := true;
    }

    method AppendRecords(ops: seq<Op>) returns (written: seq<string>)
      modifies this
      ensures State() == AppendedAll(old(State()), ops)
      ensures written == WrittenIds(old(State()), ops)
    {
      written := [];
      for k := 0 to |ops|
        invariant State() == AppendedAll(old(State()), ops[..k])
        invariant written == WrittenIds(old(State()), ops[..k])
      {
        assert ops[..k + 1][..k] == ops[..k];
        var ok, record := Append(ops[k]);
        if ok { written := written + [record.traceId]; }
      }
      assert ops[..|ops|] == ops;
    }
  }

  function WrittenIds(st: Store, ops: seq<Op>): seq<string> {
    if ops == [] then []
    else
      var last := ops[|ops| - 1];
      WrittenIds(st, ops[..|ops| - 1]) +
      if Accepts(AppendedAll(st, ops[..|ops| - 1]), last) then [last.record.traceId] else []
  }

  /** The ids returned are those of the records that joined the JSONL store, in order. */
  lemma {:induction false} WrittenAreStored(st: Store, ops: seq<Op>)
    ensures var before, after, ids := |st.deployments|, AppendedAll(st, ops).deployments, WrittenIds(st, ops);
            && st.deployments <= after && |after| == before + |ids|
            && forall k :: 0 <= k < |ids| ==> after[before + k].traceId == ids[k]
  {
    hide Accepts, FormatEntry, DuplicateClause;
    if ops == [] {
    } else {
      WrittenAreStored(st, ops[..|ops| - 1]);
    }
  }

  // ---------- trace ids ----------

  predicate DistinctTraces(ds: seq<Record>) {
    forall i, j :: 0 <= i < j < |ds| ==> ds[i].traceId != ds[j].traceId
  }

  lemma FreshHasNoTrace(traceId: string)
    ensures !DuplicateTrace(FRESH, traceId)
  {
    HeaderSafe();
    SplitUnlines(HEADER_LINES, "");
    assert Unlines(HEADER_LINES) + "" == Unlines(HEADER_LINES);
    assert HEADER_LINES + SplitLines("") == HEADER_LINES;
    assert TITLE[0] == '#' && NOTE[0] == 'T' && PURPOSE[0] == 'E';
    assert forall k :: 0 <= k < 7 ==> !("**Trace:**" <= HEADER_LINES[k]);
  }

  /** From fresh files, trace ids stay unique, and an append is refused exactly when it is
      blocked or its trace id is already in the JSONL store. */
  lemma {:induction false} TracesStayUnique(ops: seq<Op>, next: Op)
    ensures DistinctTraces(Run(ops).deployments)
    ensures Accepts(Run(ops), next) <==> !next.blocked && !HasTrace(Run(ops).deployments, next.record.traceId)
  {
    FreshHasNoTrace(next.record.traceId);
    if ops == [] {
    } else {
      var before, last := ops[..|ops| - 1], ops[|ops| - 1];
      TracesStayUnique(before, last);
      OnlyHeaderWhileEmpty(before);
      OnlyHeaderWhileEmpty(ops);
    }
  }

  lemma {:induction false} OnlyHeaderWhileEmpty(ops: seq<Op>)
    ensures Run(ops).deployments == [] ==> Run(ops) == FRESH
  {
    if ops == [] {
    } else {
      OnlyHeaderWhileEmpty(ops[..|ops| - 1]);
    }
  }

  /** The JSONL store only ever grows at its end. */
  lemma {:induction false} StoreOnlyGrows(ops: seq<Op>, k: nat)
    requires k <= |ops|
    ensures Run(ops[..k]).deployments <= Run(ops).deployments
  {
    if k < |ops| {
      StoreOnlyGrows(ops[..|ops| - 1], k);
      assert ops[..|ops| - 1][..k] == ops[..k];
    } else {
      assert ops[..k] == ops;
    }
  }

  // ---------- the two views agree ----------

  /** The entries that a sequence of appends prints. */
  ghost function Printed(ops: seq<Op>): seq<Entry> {
    if ops == [] then []
    else
      var before, op := Run(ops[..|ops| - 1]), ops[|ops| - 1];
      Printed(ops[..|ops| - 1]) +
      if Accepts(before, op) && !DuplicateClause(before, Stamped(op)) then [Entry(Stamped(op), op.timestamp)] else []
  }

  lemma {:induction false} EntriesSnoc(es: seq<Entry>, e: Entry)
    ensures Entries(es + [e]) == Entries(es) + FormatEntry(e)
  {
    if es == [] {
      assert es + [e] == [e] && Entries([e][1..]) == "";
    } else {
      assert (es + [e])[0] == es[0] && (es + [e])[1..] == es[1..] + [e];
      EntriesSnoc(es[1..], e);
    }
  }

  lemma {:induction false} LoadedSnoc(es: seq<Entry>, e: Entry, model: string, hash: string)
    ensures LoadedClauses(es + [e], model, hash) ==
            LoadedClauses(es, model, hash) + if Loads(e.record, model, hash) then [Strip(e.record.clause)] else []
  {
    hide Loads;
    if es == [] {
      assert es + [e] == [e] && LoadedClauses([e][1..], model, hash) == [];
    } else {
      assert (es + [e])[0] == es[0] && (es + [e])[1..] == es[1..] + [e];
      LoadedSnoc(es[1..], e, model, hash);
    }
  }

  lemma {:induction false} MarkdownIsPrinted(ops: seq<Op>)
    ensures Run(ops).markdown == Markdown(Printed(ops))
  {
    hide FormatEntry, Accepts, DuplicateClause;
    if ops == [] {
      assert Unlines(HEADER_LINES) + Entries([]) == Unlines(HEADER_LINES);
    } else {
      var before, op := ops[..|ops| - 1], ops[|ops| - 1];
      MarkdownIsPrinted(before);
      EntriesSnoc(Printed(before), Entry(Stamped(op), op.timestamp));
      assert Printed(before) + [] == Printed(before);
    }
  }

  lemma ViewBeforeAppend(ops: seq<Op>, model: string, hash: string)
    ensures LoadScoped(Run(ops), model, hash) == StructuredView(Run(ops).deployments, model, hash)
  {
    if Run(ops).deployments == [] {
      OnlyHeaderWhileEmpty(ops);
      ParserInvertsPrinter([], model, hash);
      assert Unlines(HEADER_LINES) + Entries([]) == Unlines(HEADER_LINES);
    }
  }

  // ---------- the legacy view of any run ----------

  /** The record passed validation and belongs to the scope, whatever its status. */
  predicate InScope(r: Record, model: string, hash: string) {
    r.passed && r.model == model && r.promptHash == hash
  }

  predicate Blank(clause: string) {
    Strip(clause) == ""
  }

  /** The stripped clauses of the validated records of a scope that are not blank: what a reader
      of the Markdown file can find. */
  function StoredClauses(ds: seq<Record>, model: string, hash: string): seq<string> {
    if ds == [] then []
    else
      var r := ds[|ds| - 1];
      StoredClauses(ds[..|ds| - 1], model, hash)
      + if InScope(r, model, hash) && !Blank(r.clause) then [Strip(r.clause)] else []
  }

  predicate Printable(model: string, hash: string) {
    Quotable(model) && Quotable(hash)
  }

  lemma {:induction false} DedupKeepsNorms(items: seq<string>, c: string)
    ensures NormIn(c, Dedup(items)) <==> NormIn(c, items)
  {
    hide Norm;
    if items == [] {
    } else {
      var init, last := items[..|items| - 1], items[|items| - 1];
      DedupKeepsNorms(init, c);
      DedupKeepsNorms(init, last);
      NormInSnoc(init, last, c);
      NormInSnoc(Dedup(init), last, c);
      assert items == init + [last];
    }
  }

  lemma NormInSnoc(items: seq<string>, last: string, c: string)
    ensures NormIn(c, items + [last]) <==> NormIn(c, items) || Norm(last) == Norm(c)
  {
    hide Norm;
    var all := items + [last];
    assert forall k :: 0 <= k < |items| ==> all[k] == items[k];
    assert all[|items|] == last;
  }

  lemma DedupSnoc(items: seq<string>, c: string)
    ensures Dedup(items + [c]) == if NormIn(c, Dedup(items)) then Dedup(items) else Dedup(items) + [c]
  {
    hide Norm;
    assert (items + [c])[..|items|] == items;
  }

  /** A clause that the structured view already has is found in the Markdown file too. */
  lemma {:induction false} ScopedIsStored(ds: seq<Record>, model: string, hash: string, c: string)
    requires NormIn(c, ScopedClauses(ds, model, hash)) && !Blank(c)
    ensures NormIn(c, StoredClauses(ds, model, hash))
  {
    hide Norm, Strip;
    if ds == [] {
    } else {
      var init, r := ds[..|ds| - 1], ds[|ds| - 1];
      var scoped, stored := ScopedClauses(init, model, hash), StoredClauses(init, model, hash);
      NormInSnoc(scoped, r.clause, c);
      NormInSnoc(stored, Strip(r.clause), c);
      assert scoped + [] == scoped && stored + [] == stored;
      if NormIn(c, scoped) {
        ScopedIsStored(init, model, hash, c);
      } else {
        NormStrip(r.clause);
        NormEmpty(r.clause);
        NormEmpty(c);
      }
    }
  }

  /** Deduplicated, the printed clauses of a scope are the stored ones. */
  lemma {:induction false} PrintedIsStored(ops: seq<Op>, model: string, hash: string)
    requires Printable(model, hash)
    ensures Dedup(LoadedClauses(Printed(ops), model, hash)) == Dedup(StoredClauses(Run(ops).deployments, model, hash))
  {
    hide *;
    if ops == [] {
      NothingStored(model, hash);
    } else {
      var rest, op := ops[..|ops| - 1], ops[|ops| - 1];
      PrintedIsStored(rest, model, hash);
      if Accepts(Run(rest), op) {
        AcceptedStep(ops);
        AppendStores(rest, op, model, hash);
      } else {
        RefusedStep(ops);
      }
    }
  }

  lemma NothingStored(model: string, hash: string)
    ensures LoadedClauses(Printed([]), model, hash) == StoredClauses(Run([]).deployments, model, hash) == []
  {
  }

  lemma RefusedStep(ops: seq<Op>)
    requires ops != [] && !Accepts(Run(ops[..|ops| - 1]), ops[|ops| - 1])
    ensures Printed(ops) == Printed(ops[..|ops| - 1]) && Run(ops) == Run(ops[..|ops| - 1])
  {
    hide Accepts;
  }

  /** The entries printed once one more append was accepted. */
  ghost function NowPrinted(rest: seq<Op>, op: Op): seq<Entry> {
    Printed(rest) + if DuplicateClause(Run(rest), Stamped(op)) then [] else [Entry(Stamped(op), op.timestamp)]
  }

  lemma AcceptedStep(ops: seq<Op>)
    requires ops != [] && Accepts(Run(ops[..|ops| - 1]), ops[|ops| - 1])
    ensures Printed(ops) == NowPrinted(ops[..|ops| - 1], ops[|ops| - 1])
    ensures Run(ops).deployments == Run(ops[..|ops| - 1]).deployments + [Stamped(ops[|ops| - 1])]
  {
    hide Accepts, DuplicateClause, FormatEntry, Run, Printed;
    RunUnfolds(ops);
    PrintedUnfolds(ops);
  }

  lemma RunUnfolds(ops: seq<Op>)
    requires ops != []
    ensures Run(ops) == Appended(Run(ops[..|ops| - 1]), ops[|ops| - 1])
  {
    hide Appended;
  }

  lemma PrintedUnfolds(ops: seq<Op>)
    requires ops != []
    ensures var before, op := Run(ops[..|ops| - 1]), ops[|ops| - 1];
            Printed(ops) == Printed(ops[..|ops| - 1]) +
              if Accepts(before, op) && !DuplicateClause(before, Stamped(op)) then [Entry(Stamped(op), op.timestamp)] else []
  {
    hide Run, Accepts, DuplicateClause;
  }

  lemma AppendStores(rest: seq<Op>, op: Op, model: string, hash: string)
    requires Printable(model, hash)
    requires Dedup(LoadedClauses(Printed(rest), model, hash)) == Dedup(StoredClauses(Run(rest).deployments, model, hash))
    ensures Dedup(LoadedClauses(NowPrinted(rest, op), model, hash))
            == Dedup(StoredClauses(Run(rest).deployments + [Stamped(op)], model, hash))
  {
    hide Norm, Strip, Quotable, LoadedClauses, Printed, Run, Dedup, LoadScoped, StructuredView;
    var r, ds := Stamped(op), Run(rest).deployments;
    var loaded, stored := LoadedClauses(Printed(rest), model, hash), StoredClauses(ds, model, hash);
    LoadedSnoc(Printed(rest), Entry(r, op.timestamp), model, hash);
    assert Printed(rest) + [] == Printed(rest) && loaded + [] == loaded && stored + [] == stored;
    assert (ds + [r])[..|ds|] == ds;
    if Loads(r, model, hash) {
      var c := Strip(r.clause);
      DedupSnoc(loaded, c);
      DedupSnoc(stored, c);
      if DuplicateClause(Run(rest), r) {
        DuplicateIsStored(rest, r, model, hash);
      }
    }
  }

  lemma DuplicateIsStored(rest: seq<Op>, r: Record, model: string, hash: string)
    requires Loads(r, model, hash) && DuplicateClause(Run(rest), r)
    ensures NormIn(Strip(r.clause), Dedup(StoredClauses(Run(rest).deployments, model, hash)))
  {
    hide Norm, Strip, Run, Dedup, LoadScoped;
    var ds := Run(rest).deployments;
    ViewBeforeAppend(rest, model, hash);
    DedupKeepsNorms(ScopedClauses(ds, model, hash), r.clause);
    ScopedIsStored(ds, model, hash, r.clause);
    NormStrip(r.clause);
    DedupKeepsNorms(StoredClauses(ds, model, hash), Strip(r.clause));
  }

  /** Every field of the appended record stays on its line. */
  predicate PrintsSafely(op: Op) {
    EntrySafe(Entry(Stamped(op), op.timestamp))
  }

  lemma {:induction false} PrintedSafe(ops: seq<Op>)
    requires forall k :: 0 <= k < |ops| ==> PrintsSafely(ops[k])
    ensures AllEntriesSafe(Printed(ops))
  {
    hide EntrySafe, Accepts, DuplicateClause;
    if ops == [] {
    } else {
      PrintedSafe(ops[..|ops| - 1]);
      assert PrintsSafely(ops[|ops| - 1]);
    }
  }

  lemma {:induction false} NothingLoads(es: seq<Entry>, model: string, hash: string)
    requires !Printable(model, hash)
    ensures LoadedClauses(es, model, hash) == []
  {
    if es == [] {
    } else {
      NothingLoads(es[1..], model, hash);
    }
  }

  /** The legacy view after any appends to fresh files, of any status, blank clauses included: the
      stored validated clauses of the scope, stripped and deduplicated, the status ignored. A
      scope with an empty or back-quoted field has no legacy view. */
  lemma LegacyViewIsStored(ops: seq<Op>, model: string, hash: string)
    requires forall k :: 0 <= k < |ops| ==> PrintsSafely(ops[k])
    ensures LegacyView(Run(ops).markdown, model, hash) ==
            if Printable(model, hash) then Dedup(StoredClauses(Run(ops).deployments, model, hash)) else []
  {
    hide PrintsSafely, LoadedClauses, StoredClauses, Printed, Run, Norm;
    MarkdownIsPrinted(ops);
    PrintedSafe(ops);
    ParserInvertsPrinter(Printed(ops), model, hash);
    if Printable(model, hash) {
      PrintedIsStored(ops, model, hash);
    } else {
      NothingLoads(Printed(ops), model, hash);
    }
  }

  // ---------- regular appends ----------

  /** Active guardrails with clauses that are not blank and fields that stay on their lines. */
  predicate Regular(op: Op) {
    op.status == ACTIVE && PrintsSafely(op) && !Blank(op.record.clause)
  }

  lemma StripAllSnoc(items: seq<string>, c: string)
    ensures StripAll(items + [c]) == StripAll(items) + [Strip(c)]
  {
  }

  lemma {:induction false} DedupStripAll(items: seq<string>)
    ensures Dedup(StripAll(items)) == StripAll(Dedup(items))
  {
    hide Norm, Strip;
    if items == [] {
    } else {
      var init, c := items[..|items| - 1], items[|items| - 1];
      DedupStripAll(init);
      assert items == init + [c];
      StripAllSnoc(init, c);
      DedupSnoc(init, c);
      DedupSnoc(StripAll(init), Strip(c));
      NormInStripped(Dedup(init), c);
      StripAllSnoc(Dedup(init), c);
    }
  }

  lemma NormInStripped(items: seq<string>, c: string)
    ensures NormIn(Strip(c), StripAll(items)) <==> NormIn(c, items)
  {
    hide Norm, Strip;
    NormStrip(c);
    forall k | 0 <= k < |items|
      ensures Norm(StripAll(items)[k]) == Norm(items[k])
    {
      NormStrip(items[k]);
    }
  }

  lemma NothingScoped(model: string, hash: string)
    ensures StructuredView([], model, hash) == [] && StoredClauses([], model, hash) == []
  {
  }

  lemma {:induction false} RegularStored(ops: seq<Op>, model: string, hash: string)
    requires forall k :: 0 <= k < |ops| ==> Regular(ops[k])
    ensures var ds := Run(ops).deployments; StoredClauses(ds, model, hash) == StripAll(ScopedClauses(ds, model, hash))
  {
    hide Norm, Strip, PrintsSafely, Accepts, DuplicateClause, FormatEntry;
    if ops == [] {
    } else {
      var rest, op := ops[..|ops| - 1], ops[|ops| - 1];
      RegularStored(rest, model, hash);
      if Accepts(Run(rest), op) {
        assert Regular(op);
        RegularStep(Run(rest).deployments, Stamped(op), model, hash);
      }
    }
  }

  lemma RegularStep(ds: seq<Record>, r: Record, model: string, hash: string)
    requires r.status == Some(ACTIVE) && !Blank(r.clause)
    requires StoredClauses(ds, model, hash) == StripAll(ScopedClauses(ds, model, hash))
    ensures StoredClauses(ds + [r], model, hash) == StripAll(ScopedClauses(ds + [r], model, hash))
  {
    hide Strip;
    assert (ds + [r])[..|ds|] == ds;
    var scoped := ScopedClauses(ds, model, hash);
    StripAllSnoc(scoped, r.clause);
    assert scoped + [] == scoped && StripAll(scoped) + [] == StripAll(scoped);
  }

  /** After any sequence of regular appends the legacy view of a printable scope is the structured
      view with every clause stripped, although duplicates were written only to the JSONL store. */
  lemma ViewsAgree(ops: seq<Op>, model: string, hash: string)
    requires forall k :: 0 <= k < |ops| ==> Regular(ops[k])
    ensures var st := Run(ops);
            LegacyView(st.markdown, model, hash) ==
            if Printable(model, hash) then StripAll(StructuredView(st.deployments, model, hash)) else []
  {
    hide Run, Dedup, PrintsSafely, StoredClauses;
    LegacyViewIsStored(ops, model, hash);
    RegularStored(ops, model, hash);
    DedupStripAll(ScopedClauses(Run(ops).deployments, model, hash));
  }
}
