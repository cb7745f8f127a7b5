/** What crashes between the two writes of an append leave behind: entries that only the Markdown
    file has, which the legacy view shows and which can refuse a later append. */
module MemoryCrashes {
  import opened Common
  import opened MemoryText
  import opened MemoryFormat
  import opened MemoryIndex
  import opened MemoryLocks

  // ---------- replayed logs ----------

  function EntryOf(op: Op): Entry {
    Entry(Stamped(op), op.timestamp)
  }

  /** The entries that a log has printed. */
  function PrintedBy(log: seq<Event>): seq<Entry> {
    if log == [] then []
    else
      var before, e := log[..|log| - 1], log[|log| - 1];
      PrintedBy(before) + if Prints(Replay(before), e) then [EntryOf(e.op)] else []
  }

  predicate Prints(st: Store, e: Event) {
    e.Orphaned? || (Accepts(st, e.op) && !DuplicateClause(st, Stamped(e.op)))
  }

  lemma {:induction false} ReplayIsPrinted(log: seq<Event>)
    ensures Replay(log).markdown == Markdown(PrintedBy(log))
  {
    hide *;
    if log == [] {
      NothingReplayed();
    } else {
      var before, e := log[..|log| - 1], log[|log| - 1];
      ReplayIsPrinted(before);
      EventPrints(log);
      MarkdownSnoc(PrintedBy(before), EntryOf(e.op));
      var md, es := Replay(before).markdown, PrintedBy(before);
      assert md + "" == md && es + [] == es;
    }
  }

  lemma NothingReplayed()
    ensures Replay([]) == FRESH && PrintedBy([]) == [] && Replay([]).markdown == Markdown(PrintedBy([]))
  {
    assert Unlines(HEADER_LINES) + Entries([]) == Unlines(HEADER_LINES);
  }

  lemma MarkdownSnoc(es: seq<Entry>, e: Entry)
    ensures Markdown(es + [e]) == Markdown(es) + FormatEntry(e)
  {
    hide FormatEntry;
    EntriesSnoc(es, e);
  }

  lemma EventPrints(log: seq<Event>)
    requires log != []
    ensures var before, e := log[..|log| - 1], log[|log| - 1];
            && Replay(log).markdown == Replay(before).markdown + (if Prints(Replay(before), e) then FormatEntry(EntryOf(e.op)) else "")
            && PrintedBy(log) == PrintedBy(before) + (if Prints(Replay(before), e) then [EntryOf(e.op)] else [])
  {
    hide Accepts, DuplicateClause, FormatEntry;
  }

  /** The log's committed appends are exactly what its replay stores. */
  ghost predicate Faithful(log: seq<Event>) {
    Replay(log).deployments == CommittedRecords(log)
  }

  lemma {:induction false} ReplayStoresFew(log: seq<Event>)
    ensures |Replay(log).deployments| <= |CommittedRecords(log)|
  {
    if log == [] {
    } else {
      hide Accepts, DuplicateClause, FormatEntry;
      ReplayStoresFew(log[..|log| - 1]);
    }
  }

  lemma FaithfulBefore(log: seq<Event>)
    requires Faithful(log) && log != []
    ensures Faithful(log[..|log| - 1])
    ensures log[|log| - 1].Committed? ==> Accepts(Replay(log[..|log| - 1]), log[|log| - 1].op)
  {
    hide Accepts, DuplicateClause, FormatEntry;
    var before, e := log[..|log| - 1], log[|log| - 1];
    ReplayStoresFew(before);
    var stored, committed := Replay(before).deployments, CommittedRecords(before);
    if e.Committed? {
      assert Replay(log).deployments == committed + [Stamped(e.op)];
      assert (committed + [Stamped(e.op)])[..|committed|] == committed;
      assert Accepts(Replay(before), e.op) ==> (stored + [Stamped(e.op)])[..|stored|] == stored;
    } else {
      assert committed + [] == committed;
    }
  }

  // ---------- the legacy view after crashes ----------

  /** The stripped clauses of a scope that a log brought, committed or orphaned, blank ones left out. */
  function EventClauses(log: seq<Event>, model: string, hash: string): seq<string> {
    if log == [] then []
    else
      var r := Stamped(log[|log| - 1].op);
      EventClauses(log[..|log| - 1], model, hash)
      + if InScope(r, model, hash) && !Blank(r.clause) then [Strip(r.clause)] else []
  }

  lemma {:induction false} StoredInEvents(log: seq<Event>, model: string, hash: string, c: string)
    requires NormIn(c, StoredClauses(CommittedRecords(log), model, hash))
    ensures NormIn(c, EventClauses(log, model, hash))
  {
    hide Norm, Strip;
    if log == [] {
    } else {
      hide CommittedRecords, NormIn, StoredClauses, EventClauses, InScope, Blank;
      var before, e := log[..|log| - 1], log[|log| - 1];
      var clause := Strip(e.op.record.clause);
      var stored, brought := StoredClauses(CommittedRecords(before), model, hash), EventClauses(before, model, hash);
      LastEvent(log, model, hash);
      NormInSnoc(stored, clause, c);
      NormInSnoc(brought, clause, c);
      if NormIn(c, stored) { StoredInEvents(before, model, hash, c); }
    }
  }

  /** What the last event adds to the stored clauses and to the clauses brought. */
  lemma LastEvent(log: seq<Event>, model: string, hash: string)
    requires log != []
    ensures var before, e := log[..|log| - 1], log[|log| - 1];
            var stored, brought := StoredClauses(CommittedRecords(before), model, hash), EventClauses(before, model, hash);
            var clause, offered := Strip(e.op.record.clause), InScope(Stamped(e.op), model, hash) && !Blank(e.op.record.clause);
            && StoredClauses(CommittedRecords(log), model, hash) == (if e.Committed? && offered then stored + [clause] else stored)
            && EventClauses(log, model, hash) == (if offered then brought + [clause] else brought)
  {
    hide Strip;
    var records, e := CommittedRecords(log[..|log| - 1]), log[|log| - 1];
    assert (records + [Stamped(e.op)])[..|records|] == records && records + [] == records;
  }

  /** Deduplicated, the entries a log has printed have the clauses it brought. */
  lemma {:induction false} PrintedIsBrought(log: seq<Event>, model: string, hash: string)
    requires Faithful(log) && Printable(model, hash) && AllPrintSafely(log)
    ensures Dedup(LoadedClauses(PrintedBy(log), model, hash)) == Dedup(EventClauses(log, model, hash))
  {
    hide *;
    if log == [] {
      NothingBrought(model, hash);
    } else {
      FaithfulBefore(log);
      SafeBefore(log);
      PrintedIsBrought(log[..|log| - 1], model, hash);
      EventPrints(log);
      EventBrings(log, model, hash);
    }
  }

  predicate AllPrintSafely(log: seq<Event>) {
    forall k :: 0 <= k < |log| ==> PrintsSafely(log[k].op)
  }

  lemma SafeBefore(log: seq<Event>)
    requires AllPrintSafely(log) && log != []
    ensures AllPrintSafely(log[..|log| - 1])
  {
    hide PrintsSafely;
  }

  lemma NothingBrought(model: string, hash: string)
    ensures LoadedClauses(PrintedBy([]), model, hash) == EventClauses([], model, hash) == []
  {
  }

  lemma EventBrings(log: seq<Event>, model: string, hash: string)
    requires log != [] && Printable(model, hash) && Faithful(log[..|log| - 1]) && AllPrintSafely(log[..|log| - 1])
    requires var before, e := log[..|log| - 1], log[|log| - 1];
             && (e.Committed? ==> Accepts(Replay(before), e.op))
             && Dedup(LoadedClauses(PrintedBy(before), model, hash)) == Dedup(EventClauses(before, model, hash))
             && PrintedBy(log) == PrintedBy(before) + (if Prints(Replay(before), e) then [EntryOf(e.op)] else [])
    ensures Dedup(LoadedClauses(PrintedBy(log), model, hash)) == Dedup(EventClauses(log, model, hash))
  {
    hide Norm, Strip, Quotable, LoadedClauses, PrintedBy, Replay, Dedup, DuplicateClause, Accepts, Faithful, AllPrintSafely;
    var before, e := log[..|log| - 1], log[|log| - 1];
    var r := Stamped(e.op);
    var loaded, brought := LoadedClauses(PrintedBy(before), model, hash), EventClauses(before, model, hash);
    LoadedSnoc(PrintedBy(before), EntryOf(e.op), model, hash);
    assert PrintedBy(before) + [] == PrintedBy(before) && loaded + [] == loaded && brought + [] == brought;
    if Loads(r, model, hash) {
      var c := Strip(r.clause);
      DedupSnoc(loaded, c);
      DedupSnoc(brought, c);
      if !Prints(Replay(before), e) {
        DuplicateWasBrought(before, r, model, hash);
      }
    }
  }

  /** A clause that counts as a duplicate was brought before, by a stored record or an orphan. */
  lemma DuplicateWasBrought(log: seq<Event>, r: Record, model: string, hash: string)
    requires Faithful(log) && AllPrintSafely(log) && Loads(r, model, hash) && DuplicateClause(Replay(log), r)
    requires Dedup(LoadedClauses(PrintedBy(log), model, hash)) == Dedup(EventClauses(log, model, hash))
    ensures NormIn(Strip(r.clause), Dedup(EventClauses(log, model, hash)))
  {
    hide Norm, Strip, Dedup, Replay, CommittedRecords, AllPrintSafely, LoadLegacy, LoadedClauses, PrintedBy;
    var ds := Replay(log).deployments;
    NormStrip(r.clause);
    if ds != [] {
      DedupKeepsNorms(ScopedClauses(ds, model, hash), r.clause);
      ScopedIsStored(ds, model, hash, r.clause);
      StoredInEvents(log, model, hash, r.clause);
      DedupKeepsNorms(EventClauses(log, model, hash), Strip(r.clause));
      NormInStripped(EventClauses(log, model, hash), r.clause);
      SameNormIn(r.clause, EventClauses(log, model, hash));
    } else {
      LoadsPrinted(log, model, hash);
      SameNormIn(r.clause, Dedup(EventClauses(log, model, hash)));
    }
  }

  lemma SameNormIn(c: string, items: seq<string>)
    ensures NormIn(Strip(c), items) <==> NormIn(c, items)
  {
    hide Norm, Strip;
    NormStrip(c);
  }

  lemma {:induction false} PrintedBySafe(log: seq<Event>)
    requires AllPrintSafely(log)
    ensures AllEntriesSafe(PrintedBy(log))
  {
    hide EntrySafe, Prints;
    if log == [] {
    } else {
      PrintedBySafe(log[..|log| - 1]);
      assert PrintsSafely(log[|log| - 1].op);
    }
  }

  lemma LoadsPrinted(log: seq<Event>, model: string, hash: string)
    requires AllPrintSafely(log)
    ensures LegacyView(Replay(log).markdown, model, hash) == Dedup(LoadedClauses(PrintedBy(log), model, hash))
  {
    hide Replay, PrintedBy, AllPrintSafely, Markdown, LoadLegacy, Dedup, LoadedClauses;
    ReplayIsPrinted(log);
    PrintedBySafe(log);
    ParserInvertsPrinter(PrintedBy(log), model, hash);
  }

  /** The log as it would read if the holder of the lock died now. */
  ghost function LogIfKilled(s: System): seq<Event>
    requires s.storeLock.Some? ==> s.storeLock.value < |s.processes|
  {
    if HalfWritten(s) then s.log + [Orphaned(s.processes[s.storeLock.value].op)] else s.log
  }

  /** In every state of every interleaving, crashes included, the legacy view of a printable scope
      is the deduplicated list of the stripped clauses that committed and orphaned appends brought. */
  lemma LegacyViewAfterCrashes(states: seq<System>, moves: seq<(nat, Action)>, k: nat, model: string, hash: string)
    requires IsRun(states, moves) && k < |states| && Printable(model, hash)
    ensures states[k].storeLock.Some? ==> states[k].storeLock.value < |states[k].processes|
    ensures AllPrintSafely(LogIfKilled(states[k])) ==>
              LegacyView(states[k].store.markdown, model, hash) == Dedup(EventClauses(LogIfKilled(states[k]), model, hash))
  {
    hide Replay, CommittedRecords, AllPrintSafely, EventClauses, LegacyView, Dedup, FormatEntry, Established;
    var s := states[k];
    RunKeepsInv(states, moves, k);
    NoCommitRefused(states, moves, k);
    var log := LogIfKilled(s);
    if HalfWritten(s) {
      OrphanFaithful(s.log, s.processes[s.storeLock.value].op);
    }
    if AllPrintSafely(log) {
      LoadsPrinted(log, model, hash);
      PrintedIsBrought(log, model, hash);
    }
  }

  lemma OrphanFaithful(log: seq<Event>, op: Op)
    requires Faithful(log)
    ensures Faithful(log + [Orphaned(op)]) && Replay(log + [Orphaned(op)]) == Print(Replay(log), op)
  {
    hide FormatEntry;
    ReplaySnoc(log, Orphaned(op));
    assert (log + [Orphaned(op)])[..|log|] == log;
    assert CommittedRecords(log) + [] == CommittedRecords(log);
  }

  // ---------- reading a trace line back ----------

  const TRACE := "**Trace:**"

  /** What the duplicate check reads off a printed trace line. */
  function ReadTrace(traceId: string): string {
    StripTicks(Strip(RemoveAll(TraceLine(traceId), TRACE)))
  }

  lemma {:induction false} RemoveAllTick(s: string)
    ensures RemoveAll(s + "`", TRACE) == RemoveAll(s, TRACE) + "`"
    decreases |s|
  {
    var t := s + "`";
    if s == "" {
      assert t[1..] == "";
    } else if TRACE <= t {
      MarkerBeforeTick(s);
      assert t[|TRACE|..] == s[|TRACE|..] + "`";
      RemoveAllTick(s[|TRACE|..]);
    } else {
      MarkerBeforeTick(s);
      assert t[1..] == s[1..] + "`";
      RemoveAllTick(s[1..]);
    }
  }

  lemma MarkerBeforeTick(s: string)
    ensures TRACE <= s + "`" <==> TRACE <= s
  {
    var t := s + "`";
    if TRACE <= t {
      assert TRACE[|TRACE| - 1] == t[|TRACE| - 1] == '*';
      assert t[|s|] == '`';
      assert s == t[..|s|];
    }
    if TRACE <= s {
      assert t[..|TRACE|] == s[..|TRACE|];
    }
  }

  lemma {:induction false} StripTicksTail(s: string)
    ensures StripTicks(s + "`") == StripTicks(s)
    decreases |s|
  {
    var t := s + "`";
    if s == "" {
      assert t[1..] == "";
    } else if s[0] == '`' {
      assert t[1..] == s[1..] + "`";
      StripTicksTail(s[1..]);
    } else {
      assert t[..|t| - 1] == s;
    }
  }

  lemma ReadTraceIs(traceId: string)
    ensures ReadTrace(traceId) == StripTicks(RemoveAll(traceId, TRACE))
  {
    var id := RemoveAll(traceId, TRACE);
    TraceLineWithout(traceId);
    var quoted := "`" + (id + "`");
    StripQuoted(id);
    assert quoted[1..] == id + "`";
    StripTicksTail(id);
  }

  lemma TraceLineWithout(traceId: string)
    ensures RemoveAll(TraceLine(traceId), TRACE) == " `" + (RemoveAll(traceId, TRACE) + "`")
  {
    hide RemoveAll;
    var tail := traceId + "`";
    var rest := [' '] + (['`'] + tail);
    assert TraceLine(traceId) == TRACE + rest;
    SkipMarker(rest);
    SkipChar(' ', ['`'] + tail);
    SkipChar('`', tail);
    RemoveAllTick(traceId);
  }

  lemma SkipMarker(s: string)
    ensures RemoveAll(TRACE + s, TRACE) == RemoveAll(s, TRACE)
  {
    assert (TRACE + s)[|TRACE|..] == s;
  }

  lemma SkipChar(c: char, s: string)
    requires c != '*'
    ensures RemoveAll([c] + s, TRACE) == [c] + RemoveAll(s, TRACE)
  {
    assert TRACE[0] == '*' && ([c] + s)[0] == c && ([c] + s)[1..] == s;
  }

  lemma StripQuoted(id: string)
    ensures Strip(" `" + (id + "`")) == "`" + (id + "`")
  {
    var quoted := "`" + (id + "`");
    var line := " `" + (id + "`");
    assert line[0] == ' ' && line[1..] == quoted;
    assert quoted[0] == '`' && quoted[|quoted| - 1] == '`';
    assert LStrip(line) == LStrip(quoted) == quoted && RStrip(quoted) == quoted;
  }

  /** The trace ids that a printed line gives back: those without the marker and without a
      backtick at either end. */
  lemma ReadsBackIff(traceId: string)
    ensures ReadTrace(traceId) == traceId <==>
            RemoveAll(traceId, TRACE) == traceId
            && (traceId != "" ==> traceId[0] != '`' && traceId[|traceId| - 1] != '`')
  {
    hide RemoveAll, StripTicks, ReadTrace;
    ReadTraceIs(traceId);
    RemoveAllShorter(traceId);
    StripTicksShorter(RemoveAll(traceId, TRACE));
    KeepsTicksIff(traceId);
  }

  lemma KeepsTicksIff(s: string)
    ensures StripTicks(s) == s <==> (s != "" ==> s[0] != '`' && s[|s| - 1] != '`')
  {
    if s == "" {
    } else if s[0] == '`' {
      StripTicksShorter(s[1..]);
    } else if s[|s| - 1] == '`' {
      StripTicksShorter(s[..|s| - 1]);
    }
  }

  lemma {:induction false} RemoveAllShorter(s: string)
    ensures |RemoveAll(s, TRACE)| <= |s| && (|RemoveAll(s, TRACE)| == |s| ==> RemoveAll(s, TRACE) == s)
    decreases |s|
  {
    if s == "" {
    } else if TRACE <= s {
      RemoveAllShorter(s[|TRACE|..]);
    } else {
      RemoveAllShorter(s[1..]);
    }
  }

  lemma {:induction false} StripTicksShorter(s: string)
    ensures |StripTicks(s)| <= |s| && (|StripTicks(s)| == |s| ==> StripTicks(s) == s)
    decreases |s|
  {
    if s == "" {
    } else if s[0] == '`' {
      StripTicksShorter(s[1..]);
    } else if s[|s| - 1] == '`' {
      StripTicksShorter(s[..|s| - 1]);
    }
  }

  // ---------- which lines are trace lines ----------

  lemma TracePrintedConcat(a: seq<string>, b: seq<string>, id: string)
    ensures TracePrinted(a + b, id) <==> TracePrinted(a, id) || TracePrinted(b, id)
  {
    hide RemoveAll, StripTicks, Strip;
    var all := a + b;
    assert forall k :: 0 <= k < |a| ==> all[k] == a[k];
    assert forall k :: 0 <= k < |b| ==> all[|a| + k] == b[k];
  }

  lemma BodyTrace(e: Entry, id: string)
    ensures TracePrinted(BodyLines(e) + ["---", ""], id) <==> ReadTrace(e.record.traceId) == id
  {
    hide RemoveAll, StripTicks, Strip;
    var lines := BodyLines(e) + ["---", ""];
    assert TRACE[2] == 'T' && TRACE[0] == '*';
    OtherLines(e);
    assert lines[1] == TraceLine(e.record.traceId);
    assert TRACE <= lines[1] by { assert lines[1] == TRACE + (" `" + e.record.traceId + "`"); }
  }

  lemma OtherLines(e: Entry)
    ensures var lines := BodyLines(e) + ["---", ""];
            forall k :: 0 <= k < |lines| && k != 1 ==> !(TRACE <= lines[k])
  {
    var lines := BodyLines(e) + ["---", ""];
    assert TRACE[0] == '*' && TRACE[2] == 'T';
    assert lines[0][0] == '#' && lines[5][0] == '>';
    assert lines[2][2] == 'S' && lines[3][2] == 'A' && lines[7][2] == 'O' && lines[8][2] == 'V';
    assert lines[4] == "" && lines[6] == "" && lines[9] == "" && lines[10] == "---" && lines[11] == "";
  }

  predicate PrintedTrace(es: seq<Entry>, id: string) {
    exists k :: 0 <= k < |es| && ReadTrace(es[k].record.traceId) == id
  }

  lemma {:induction false} EntriesTrace(es: seq<Entry>, id: string)
    ensures TracePrinted(EntryLines(es), id) <==> PrintedTrace(es, id)
  {
    hide ReadTrace, BodyLines, TracePrinted;
    if es == [] {
      NoTrace(id);
    } else {
      EntriesTrace(es[1..], id);
      BodyTrace(es[0], id);
      TracePrintedConcat(BodyLines(es[0]) + ["---", ""], EntryLines(es[1..]), id);
      assert forall k :: 0 < k < |es| ==> es[1..][k - 1] == es[k];
      if PrintedTrace(es[1..], id) {
        var k :| 0 <= k < |es[1..]| && ReadTrace(es[1..][k].record.traceId) == id;
        assert ReadTrace(es[k + 1].record.traceId) == id;
      }
    }
  }

  lemma NoTrace(id: string)
    ensures !TracePrinted([], id)
  {
  }

  lemma MarkdownTrace(es: seq<Entry>, id: string)
    requires AllEntriesSafe(es)
    ensures TracePrinted(SplitLines(Markdown(es)), id) <==> PrintedTrace(es, id)
  {
    hide EntrySafe, SplitLines, TracePrinted, EntryLines, AllEntriesSafe, LineSafe, PrintedTrace, Unlines;
    var lines := HEADER_LINES + EntryLines(es);
    EntriesAreLines(es);
    HeaderSafe();
    UnlinesConcat(HEADER_LINES, EntryLines(es));
    SplitUnlines(lines, "");
    assert Unlines(lines) + "" == Unlines(lines) && SplitLines("") == [] by { NoLines(); }
    assert lines + [] == lines;
    HeaderNoTrace(id);
    TracePrintedConcat(HEADER_LINES, EntryLines(es), id);
    EntriesTrace(es, id);
  }

  lemma NoLines()
    ensures SplitLines("") == []
  {
  }

  lemma HeaderNoTrace(id: string)
    ensures !TracePrinted(HEADER_LINES, id)
  {
    hide RemoveAll, StripTicks, Strip;
    assert TITLE[0] == '#' && NOTE[0] == 'T' && PURPOSE[0] == 'E' && TRACE[0] == '*';
    assert forall k :: 0 <= k < 7 ==> !(TRACE <= HEADER_LINES[k]);
  }

  // ---------- when an append is refused ----------

  /** An append that died between its two writes left an entry with this trace id. */
  ghost predicate OrphanTrace(log: seq<Event>, id: string) {
    exists k :: 0 <= k < |log| && log[k].Orphaned? && ReadTrace(log[k].op.record.traceId) == id
  }

  /** While nothing was committed, the printed entries are the orphans. */
  lemma {:induction false} OnlyOrphans(log: seq<Event>, id: string)
    requires CommittedRecords(log) == []
    ensures PrintedTrace(PrintedBy(log), id) <==> OrphanTrace(log, id)
  {
    hide ReadTrace, Replay, DuplicateClause, Accepts;
    if log == [] {
    } else {
      var before, e := log[..|log| - 1], log[|log| - 1];
      OnlyOrphans(before, id);
      assert e.Orphaned?;
      var es := PrintedBy(before);
      assert forall k :: 0 <= k < |es| ==> (es + [EntryOf(e.op)])[k] == es[k];
      assert (es + [EntryOf(e.op)])[|es|] == EntryOf(e.op);
      assert forall k :: 0 <= k < |before| ==> before[k] == log[k];
    }
  }

  /** In every interleaving, crashes included, an append that has taken the lock is refused exactly
      when its trace id is stored, or nothing is stored and an orphaned entry shows it. */
  lemma RefusedIff(states: seq<System>, moves: seq<(nat, Action)>, k: nat, p: nat)
    requires IsRun(states, moves) && k < |states| && p < |states[k].processes| && states[k].processes[p].Checking?
    requires AllPrintSafely(states[k].log)
    ensures Advanced(states[k], p).Some?
    ensures var s, op := states[k], states[k].processes[p].op;
            Advanced(s, p).value.processes[p].Idle? <==>
            || HasTrace(s.store.deployments, op.record.traceId)
            || (s.store.deployments == [] && OrphanTrace(s.log, op.record.traceId))
  {
    hide Replay, CommittedRecords, AllPrintSafely, FormatEntry, Established, TracePrinted, SplitLines, PrintedTrace, OrphanTrace, DuplicateClause;
    var s := states[k];
    var id := s.processes[p].op.record.traceId;
    RunKeepsInv(states, moves, k);
    assert s.processes[p].HoldsStore() && s.storeLock == Some(p) && s.store == Replay(s.log);
    NoCommitRefused(states, moves, k);
    ReplayIsPrinted(s.log);
    PrintedBySafe(s.log);
    MarkdownTrace(PrintedBy(s.log), id);
    if s.store.deployments == [] {
      OnlyOrphans(s.log, id);
    }
  }

  // ---------- a run in which a retry is refused ----------

  function Alone(p: Process, lock: Option<nat>, markdownLock: Option<nat>, st: Store, log: seq<Event>): System {
    System([p], lock, markdownLock, st, log, [])
  }

  lemma FreshAccepts(op: Op)
    ensures !DuplicateTrace(FRESH, op.record.traceId) && !DuplicateClause(FRESH, Stamped(op))
  {
    hide Norm, LoadScoped, StructuredView;
    var none: seq<Op> := [];
    var r := Stamped(op);
    assert Run(none) == FRESH;
    FreshHasNoTrace(op.record.traceId);
    ViewBeforeAppend(none, r.model, r.promptHash);
    NothingScoped(r.model, r.promptHash);
  }

  function RetryMoves(op: Op): seq<(nat, Action)> {
    [(0, Begin(Append(op))), (0, Advance), (0, Advance), (0, Advance), (0, Advance), (0, Crash), (0, Begin(Append(op))), (0, Advance)]
  }

  function RetryStates(op: Op): seq<System> {
    var printed := Print(FRESH, op);
    [Alone(Idle, None, None, FRESH, []),
     Alone(AppendWaiting(op), None, None, FRESH, []),
     Alone(Checking(op), Some(0), None, FRESH, []),
     Alone(PrintWaiting(op), Some(0), None, FRESH, []),
     Alone(Printing(op), Some(0), Some(0), FRESH, []),
     Alone(Logging(op, true), Some(0), None, printed, []),
     Alone(Idle, None, None, printed, [Orphaned(op)]),
     Alone(AppendWaiting(op), None, None, printed, [Orphaned(op)]),
     Alone(Checking(op), Some(0), None, printed, [Orphaned(op)])]
  }

  lemma RetryRuns(op: Op)
    requires !op.blocked
    ensures IsRun(RetryStates(op), RetryMoves(op))
  {
    hide FormatEntry, DuplicateTrace, DuplicateClause;
    FreshAccepts(op);
    var states, moves := RetryStates(op), RetryMoves(op);
    forall k | 0 <= k < |moves|
      ensures Step(states[k], moves[k].0, moves[k].1, states[k + 1])
    {
      RetryStep(op, k);
    }
  }

  lemma RetryStep(op: Op, k: nat)
    requires k < 8 && !op.blocked && !DuplicateTrace(FRESH, op.record.traceId) && !DuplicateClause(FRESH, Stamped(op))
    ensures Step(RetryStates(op)[k], RetryMoves(op)[k].0, RetryMoves(op)[k].1, RetryStates(op)[k + 1])
  {
    hide FormatEntry, DuplicateTrace, DuplicateClause;
    var s, t := RetryStates(op)[k], RetryStates(op)[k + 1];
    assert s.processes[0 := t.processes[0]] == t.processes;
    if k == 5 {
      assert s.log + [Orphaned(op)] == t.log;
    }
  }

  /** A process that dies between the two writes of the first append makes the retry fail, although
      nothing was stored: the duplicate check finds the orphaned trace line. */
  lemma RetryRefused(op: Op)
    requires !op.blocked && PrintsSafely(op) && ReadTrace(op.record.traceId) == op.record.traceId
    ensures IsRun(RetryStates(op), RetryMoves(op))
    ensures var s := RetryStates(op)[8];
            && s.processes[0] == Checking(op) && s.store.deployments == []
            && Advanced(s, 0).Some? && Advanced(s, 0).value.processes[0].Idle?
  {
    hide FormatEntry, ReadTrace, PrintsSafely, DuplicateTrace, DuplicateClause, IsRun;
    RetryRuns(op);
    var s := RetryStates(op)[8];
    assert s.log[0] == Orphaned(op);
    RefusedIff(RetryStates(op), RetryMoves(op), 8, 0);
  }
}
