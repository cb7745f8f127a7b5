/** Any number of processes using the memory index at once: the two exclusive sidecar locks,
    the steps between lock operations, and what every interleaving keeps. */
module MemoryLocks {
  import opened Common
  import opened MemoryFormat
  import opened MemoryIndex

  /** Where a process stands. Everything done while a lock is held and before the next lock
      operation is one step, because no other process can look in between. */
  datatype Process =
    | Idle
    | AppendWaiting(op: Op)                 // wants the deployments lock
    | Checking(op: Op)                      // holds it, nothing read yet
    | PrintWaiting(op: Op)                  // new clause: wants the Markdown lock too
    | Printing(op: Op)                      // holds both
    | Logging(op: Op, printed: bool)        // holds the deployments lock, JSONL line not written
    | LoadWaiting(model: string, hash: string)
    | LoadHalf(model: string, hash: string) // holds the deployments lock, wants the other
    | Loading(model: string, hash: string)  // holds both
    | IterWaiting | Iterating               // iter_deployments: the deployments lock only
    | RawWaiting | ReadingRaw               // all_entries_raw: the Markdown lock only
  {
    predicate HoldsStore() {
      Checking? || PrintWaiting? || Printing? || Logging? || LoadHalf? || Loading? || Iterating?
    }

    predicate HoldsMarkdown() {
      Printing? || Loading? || ReadingRaw?
    }
  }

  /** What became of an append: committed, or printed and then lost with its process. */
  datatype Event = Committed(op: Op) | Orphaned(op: Op)

  /** What a reading call returned to its process. */
  datatype Answer = Clauses(model: string, hash: string, clauses: seq<string>) | Records(records: seq<Record>) | Text(text: string)

  /** `log` and `answers` record the events of all appends and the results of all reads in order. */
  datatype System = System(
    processes: seq<Process>, storeLock: Option<nat>, markdownLock: Option<nat>, store: Store, log: seq<Event>,
    answers: seq<(nat, Answer)>)

  datatype Call = Append(op: Op) | Load(model: string, hash: string) | Iterate | ReadRaw

  datatype Action = Begin(call: Call) | Advance | Crash

  function Print(st: Store, op: Op): Store {
    st.(markdown := st.markdown + FormatEntry(Entry(Stamped(op), op.timestamp)))
  }

  function Log(st: Store, op: Op): Store {
    st.(deployments := st.deployments + [Stamped(op)])
  }

  function Start(call: Call): Process {
    match call
    case Append(op) => if op.blocked then Idle else AppendWaiting(op)
    case Load(model, hash) => LoadWaiting(model, hash)
    case Iterate => IterWaiting
    case ReadRaw => RawWaiting
  }

  /** The next step of process p, or None while it is blocked or has nothing to do. */
  function Advanced(s: System, p: nat): Option<System>
    requires p < |s.processes|
  {
    match s.processes[p]
    case Idle => None
    case AppendWaiting(op) =>
      if s.storeLock.Some? then None else Some(s.(processes := s.processes[p := Checking(op)], storeLock := Some(p)))
    case Checking(op) =>
      if DuplicateTrace(s.store, op.record.traceId) then
        Some(s.(processes := s.processes[p := Idle], storeLock := None))
      else if DuplicateClause(s.store, Stamped(op)) then
        Some(s.(processes := s.processes[p := Logging(op, false)]))
      else Some(s.(processes := s.processes[p := PrintWaiting(op)]))
    case PrintWaiting(op) =>
      if s.markdownLock.Some? then None
      else Some(s.(processes := s.processes[p := Printing(op)], markdownLock := Some(p)))
    case Printing(op) =>
      Some(s.(processes := s.processes[p := Logging(op, true)], markdownLock := None, store := Print(s.store, op)))
    case Logging(op, printed) =>
      Some(s.(processes := s.processes[p := Idle], storeLock := None, store := Log(s.store, op), log := s.log + [Committed(op)]))
    case LoadWaiting(model, hash) =>
      if s.storeLock.Some? then None
      else Some(s.(processes := s.processes[p := LoadHalf(model, hash)], storeLock := Some(p)))
    case LoadHalf(model, hash) =>
      if s.markdownLock.Some? then None
      else Some(s.(processes := s.processes[p := Loading(model, hash)], markdownLock := Some(p)))
    case Loading(model, hash) =>
      Some(s.(processes := s.processes[p := Idle], storeLock := None, markdownLock := None,
              answers := s.answers + [(p, Clauses(model, hash, LoadScoped(s.store, model, hash)))]))
    case IterWaiting =>
      if s.storeLock.Some? then None else Some(s.(processes := s.processes[p := Iterating], storeLock := Some(p)))
    case Iterating =>
      Some(s.(processes := s.processes[p := Idle], storeLock := None,
              answers := s.answers + [(p, Records(s.store.deployments))]))
    case RawWaiting =>
      if s.markdownLock.Some? then None
      else Some(s.(processes := s.processes[p := ReadingRaw], markdownLock := Some(p)))
    case ReadingRaw =>
      Some(s.(processes := s.processes[p := Idle], markdownLock := None,
              answers := s.answers + [(p, Text(s.store.markdown))]))
  }

  /** A process fails: both locks are released if it held them, the files stay as they are. */
  function Crashed(s: System, p: nat): System
    requires p < |s.processes|
  {
    var proc := s.processes[p];
    s.(processes := s.processes[p := Idle],
       storeLock := if proc.HoldsStore() then None else s.storeLock,
       markdownLock := if proc.HoldsMarkdown() then None else s.markdownLock,
       log := if proc.Logging? && proc.printed then s.log + [Orphaned(proc.op)] else s.log)
  }

  ghost predicate Step(s: System, p: nat, action: Action, t: System) {
    && p < |s.processes|
    && match action
       case Begin(call) => s.processes[p].Idle? && t == s.(processes := s.processes[p := Start(call)])
       case Advance => Advanced(s, p) == Some(t)
       case Crash => t == Crashed(s, p)
  }

  ghost predicate Initial(s: System) {
    && (forall p :: 0 <= p < |s.processes| ==> s.processes[p].Idle?)
    && s.storeLock.None? && s.markdownLock.None? && s.store == FRESH && s.log == [] && s.answers == []
  }

  // ---------- the invariant ----------

  /** The files that replaying a log one event at a time produces. */
  function Replay(log: seq<Event>): Store {
    if log == [] then FRESH else Effect(Replay(log[..|log| - 1]), log[|log| - 1])
  }

  function Effect(st: Store, e: Event): Store {
    match e
    case Committed(op) => Appended(st, op)
    case Orphaned(op) => Print(st, op)
  }

  ghost predicate LocksOwned(s: System) {
    && (forall p: nat :: p < |s.processes| ==> (s.processes[p].HoldsStore() <==> s.storeLock == Some(p)))
    && (forall p: nat :: p < |s.processes| ==> (s.processes[p].HoldsMarkdown() <==> s.markdownLock == Some(p)))
    && (s.storeLock.Some? ==> s.storeLock.value < |s.processes|)
    && (s.markdownLock.Some? ==> s.markdownLock.value < |s.processes|)
  }

  /** What a process has established about the files it holds the lock on. */
  ghost predicate Established(proc: Process, base: Store) {
    match proc
    case AppendWaiting(op) => !op.blocked
    case Checking(op) => !op.blocked
    case PrintWaiting(op) => Accepts(base, op) && !DuplicateClause(base, Stamped(op))
    case Printing(op) => Accepts(base, op) && !DuplicateClause(base, Stamped(op))
    case Logging(op, printed) => Accepts(base, op) && (printed <==> !DuplicateClause(base, Stamped(op)))
    case _ => true
  }

  /** The files on disk, given what the holder of the deployments lock has done so far. */
  function OnDisk(s: System): Store
    requires s.storeLock.Some? ==> s.storeLock.value < |s.processes|
  {
    var base := Replay(s.log);
    if s.storeLock.Some? && s.processes[s.storeLock.value].Logging? && s.processes[s.storeLock.value].printed
    then Print(base, s.processes[s.storeLock.value].op) else base
  }

  ghost predicate Inv(s: System) {
    && LocksOwned(s)
    && s.store == OnDisk(s)
    && (forall p :: 0 <= p < |s.processes| ==> Established(s.processes[p], Replay(s.log)))
  }

  lemma ReplaySnoc(log: seq<Event>, e: Event)
    ensures Replay(log + [e]) == Effect(Replay(log), e)
  {
    assert (log + [e])[..|log|] == log;
  }

  lemma CommitIsAppend(base: Store, op: Op, printed: bool)
    requires Accepts(base, op) && (printed <==> !DuplicateClause(base, Stamped(op)))
    ensures Log(if printed then Print(base, op) else base, op) == Appended(base, op)
  {
  }

  lemma CheckedAccepts(st: Store, op: Op)
    requires !op.blocked && !DuplicateTrace(st, op.record.traceId)
    ensures Accepts(st, op)
  {
  }

  ghost predicate AllEstablished(processes: seq<Process>, base: Store) {
    forall p :: 0 <= p < |processes| ==> Established(processes[p], base)
  }

  /** Only the holder of the deployments lock has established anything about the files. */
  lemma OthersUnaffected(s: System, base: Store, p: nat)
    requires LocksOwned(s) && AllEstablished(s.processes, Replay(s.log))
    requires p < |s.processes| && s.storeLock != Some(p)
    ensures Established(s.processes[p], base)
  {
    assert !s.processes[p].HoldsStore();
    assert Established(s.processes[p], Replay(s.log));
  }

  lemma AdvanceKeepsLocks(s: System, p: nat, t: System)
    requires LocksOwned(s) && p < |s.processes| && Advanced(s, p) == Some(t)
    ensures LocksOwned(t)
  {
    hide Accepts, DuplicateTrace, DuplicateClause, FormatEntry, Replay;
    assert s.processes[p].HoldsStore() <==> s.storeLock == Some(p);
    assert s.processes[p].HoldsMarkdown() <==> s.markdownLock == Some(p);
    forall q: nat | q < |t.processes|
      ensures t.processes[q].HoldsStore() <==> t.storeLock == Some(q)
      ensures t.processes[q].HoldsMarkdown() <==> t.markdownLock == Some(q)
    {
      assert s.processes[q].HoldsStore() <==> s.storeLock == Some(q);
      assert s.processes[q].HoldsMarkdown() <==> s.markdownLock == Some(q);
    }
  }

  lemma AdvanceKeepsFiles(s: System, p: nat, t: System)
    requires Inv(s) && LocksOwned(t) && p < |s.processes| && Advanced(s, p) == Some(t)
    ensures t.store == OnDisk(t)
    ensures Established(t.processes[p], Replay(t.log))
  {
    hide Accepts, DuplicateTrace, DuplicateClause, FormatEntry, Replay, Appended;
    var proc := s.processes[p];
    assert Established(proc, Replay(s.log));
    assert proc.HoldsStore() <==> s.storeLock == Some(p);
    if proc.Logging? {
      ReplaySnoc(s.log, Committed(proc.op));
      CommitIsAppend(Replay(s.log), proc.op, proc.printed);
    }
    if proc.Checking? && !DuplicateTrace(s.store, proc.op.record.traceId) {
      CheckedAccepts(s.store, proc.op);
    }
  }

  lemma AdvanceKeepsInv(s: System, p: nat, t: System)
    requires Inv(s) && p < |s.processes| && Advanced(s, p) == Some(t)
    ensures Inv(t)
  {
    hide Accepts, DuplicateTrace, DuplicateClause, FormatEntry, Replay, Appended, Established;
    AdvanceKeepsLocks(s, p, t);
    AdvanceKeepsFiles(s, p, t);
    forall q | 0 <= q < |t.processes|
      ensures Established(t.processes[q], Replay(t.log))
    {
      if q != p {
        if t.log != s.log { OthersUnaffected(s, Replay(t.log), q); }
        assert Established(s.processes[q], Replay(s.log));
      }
    }
  }

  lemma CrashKeepsInv(s: System, p: nat)
    requires Inv(s) && p < |s.processes|
    ensures Inv(Crashed(s, p))
  {
    hide Accepts, DuplicateTrace, DuplicateClause, FormatEntry, Replay, Appended;
    var proc, t := s.processes[p], Crashed(s, p);
    assert proc.HoldsStore() <==> s.storeLock == Some(p);
    assert proc.HoldsMarkdown() <==> s.markdownLock == Some(p);
    forall q: nat | q < |t.processes|
      ensures t.processes[q].HoldsStore() <==> t.storeLock == Some(q)
      ensures t.processes[q].HoldsMarkdown() <==> t.markdownLock == Some(q)
    {
      assert s.processes[q].HoldsStore() <==> s.storeLock == Some(q);
      assert s.processes[q].HoldsMarkdown() <==> s.markdownLock == Some(q);
    }
    if t.log != s.log { ReplaySnoc(s.log, Orphaned(proc.op)); }
    forall q | 0 <= q < |t.processes|
      ensures Established(t.processes[q], Replay(t.log))
    {
      if q != p {
        if t.log != s.log { OthersUnaffected(s, Replay(t.log), q); }
        assert Established(s.processes[q], Replay(s.log));
      }
    }
  }

  lemma BeginKeepsInv(s: System, p: nat, call: Call)
    requires Inv(s) && p < |s.processes| && s.processes[p].Idle?
    ensures Inv(s.(processes := s.processes[p := Start(call)]))
  {
    hide Accepts, DuplicateTrace, DuplicateClause, FormatEntry, Replay, Appended;
    var t := s.(processes := s.processes[p := Start(call)]);
    assert s.processes[p].HoldsStore() <==> s.storeLock == Some(p);
    assert s.processes[p].HoldsMarkdown() <==> s.markdownLock == Some(p);
    forall q: nat | q < |t.processes|
      ensures t.processes[q].HoldsStore() <==> t.storeLock == Some(q)
      ensures t.processes[q].HoldsMarkdown() <==> t.markdownLock == Some(q)
      ensures Established(t.processes[q], Replay(t.log))
    {
      assert s.processes[q].HoldsStore() <==> s.storeLock == Some(q);
      assert s.processes[q].HoldsMarkdown() <==> s.markdownLock == Some(q);
      assert Established(s.processes[q], Replay(s.log));
    }
  }

  lemma StepKeepsInv(s: System, p: nat, action: Action, t: System)
    requires Inv(s) && Step(s, p, action, t)
    ensures Inv(t)
  {
    match action
    case Begin(call) => BeginKeepsInv(s, p, call);
    case Advance => AdvanceKeepsInv(s, p, t);
    case Crash => CrashKeepsInv(s, p);
  }

  // ---------- runs ----------

  ghost predicate IsRun(states: seq<System>, moves: seq<(nat, Action)>) {
    && |states| == |moves| + 1 && Initial(states[0])
    && forall k :: 0 <= k < |moves| ==> Step(states[k], moves[k].0, moves[k].1, states[k + 1])
  }

  lemma InitialInv(s: System)
    requires Initial(s)
    ensures Inv(s)
  {
    forall p: nat | p < |s.processes|
      ensures !s.processes[p].HoldsStore() && !s.processes[p].HoldsMarkdown()
      ensures Established(s.processes[p], Replay(s.log))
    {
    }
  }

  /** In every interleaving the files are what some sequential history of appends produces,
      up to the one entry that the holder of the lock may already have printed. */
  lemma {:induction false} RunKeepsInv(states: seq<System>, moves: seq<(nat, Action)>, k: nat)
    requires IsRun(states, moves) && k < |states|
    ensures Inv(states[k])
  {
    hide Inv, Step, Initial;
    if k == 0 {
      InitialInv(states[0]);
    } else {
      RunKeepsInv(states, moves, k - 1);
      StepKeepsInv(states[k - 1], moves[k - 1].0, moves[k - 1].1, states[k]);
    }
  }

  /** The records of the committed appends of a log. */
  function CommittedRecords(log: seq<Event>): seq<Record> {
    if log == [] then []
    else
      var e := log[|log| - 1];
      CommittedRecords(log[..|log| - 1]) + if e.Committed? then [Stamped(e.op)] else []
  }

  lemma StepOnlyAppends(s: System, p: nat, action: Action, t: System)
    requires Step(s, p, action, t)
    ensures s.store.deployments <= t.store.deployments && s.log <= t.log
    ensures s.store.deployments == CommittedRecords(s.log) ==> t.store.deployments == CommittedRecords(t.log)
  {
    hide DuplicateTrace, DuplicateClause, FormatEntry;
    if |t.log| > |s.log| {
      assert t.log[..|s.log|] == s.log;
      assert CommittedRecords(s.log) + [] == CommittedRecords(s.log);
    }
  }

  lemma NothingCommitted()
    ensures CommittedRecords([]) == []
  {
  }

  /** No committed record is ever lost or moved, and the store holds nothing else. */
  lemma {:induction false} NothingLost(states: seq<System>, moves: seq<(nat, Action)>, j: nat, k: nat)
    requires IsRun(states, moves) && j <= k < |states|
    ensures states[j].store.deployments <= states[k].store.deployments && states[j].log <= states[k].log
    ensures states[k].store.deployments == CommittedRecords(states[k].log)
    decreases k
  {
    hide Step, CommittedRecords;
    if k == 0 {
      NothingCommitted();
    } else {
      NothingLost(states, moves, if j < k then j else k - 1, k - 1);
      assert Step(states[k - 1], moves[k - 1].0, moves[k - 1].1, states[k]);
      StepOnlyAppends(states[k - 1], moves[k - 1].0, moves[k - 1].1, states[k]);
    }
  }

  /** Replayed one after another, no committed append is refused: every interleaving stores what
      some sequential history stores. */
  lemma NoCommitRefused(states: seq<System>, moves: seq<(nat, Action)>, k: nat)
    requires IsRun(states, moves) && k < |states|
    ensures Replay(states[k].log).deployments == CommittedRecords(states[k].log)
  {
    hide Replay;
    RunKeepsInv(states, moves, k);
    NothingLost(states, moves, k, k);
  }

  lemma {:induction false} ReplayKeepsTracesDistinct(log: seq<Event>)
    ensures DistinctTraces(Replay(log).deployments)
  {
    hide FormatEntry, DuplicateClause;
    if log == [] {
    } else {
      ReplayKeepsTracesDistinct(log[..|log| - 1]);
    }
  }

  /** Trace ids in the JSONL store stay unique in every interleaving, crashes included. */
  lemma TracesUnique(states: seq<System>, moves: seq<(nat, Action)>, k: nat)
    requires IsRun(states, moves) && k < |states|
    ensures DistinctTraces(states[k].store.deployments)
  {
    RunKeepsInv(states, moves, k);
    ReplayKeepsTracesDistinct(states[k].log);
  }

  /** A scoped load, which holds both locks, sees files that a sequential history produces. */
  lemma LoadSeesHistory(states: seq<System>, moves: seq<(nat, Action)>, k: nat, p: nat)
    requires IsRun(states, moves) && k < |states| && p < |states[k].processes| && states[k].processes[p].Loading?
    ensures states[k].store == Replay(states[k].log)
  {
    RunKeepsInv(states, moves, k);
    assert states[k].processes[p].HoldsStore();
  }

  /** The call a busy process is at work on. */
  function CallOf(proc: Process): Option<Call> {
    match proc
    case Idle => None
    case AppendWaiting(op) => Some(Append(op))
    case Checking(op) => Some(Append(op))
    case PrintWaiting(op) => Some(Append(op))
    case Printing(op) => Some(Append(op))
    case Logging(op, _) => Some(Append(op))
    case LoadWaiting(model, hash) => Some(Load(model, hash))
    case LoadHalf(model, hash) => Some(Load(model, hash))
    case Loading(model, hash) => Some(Load(model, hash))
    case IterWaiting => Some(Iterate)
    case Iterating => Some(Iterate)
    case RawWaiting => Some(ReadRaw)
    case ReadingRaw => Some(ReadRaw)
  }

  ghost predicate BegunBefore(moves: seq<(nat, Action)>, k: nat, p: nat, call: Call) {
    exists j: nat :: j < k && j < |moves| && moves[j] == (p, Begin(call))
  }

  lemma StepKeepsCalls(s: System, p: nat, action: Action, t: System, q: nat)
    requires Step(s, p, action, t) && q < |s.processes|
    ensures |t.processes| == |s.processes|
    ensures CallOf(t.processes[q]).Some? ==>
              CallOf(t.processes[q]) == CallOf(s.processes[q]) || (p == q && action == Begin(CallOf(t.processes[q]).value))
  {
    hide DuplicateTrace, DuplicateClause, FormatEntry, LoadScoped;
  }

  /** A busy process works on a call that it was given. */
  lemma {:induction false} CallWasBegun(states: seq<System>, moves: seq<(nat, Action)>, k: nat, p: nat, call: Call)
    requires IsRun(states, moves) && k < |states| && p < |states[k].processes| && CallOf(states[k].processes[p]) == Some(call)
    ensures BegunBefore(moves, k, p, call)
  {
    hide Step, CallOf, Initial;
    if k == 0 {
      IdleHasNoCall(states[0], p);
      assert false;
    } else {
      var s, move := states[k - 1], moves[k - 1];
      assert Step(s, move.0, move.1, states[k]);
      SameProcesses(s, move.0, move.1, states[k]);
      StepKeepsCalls(s, move.0, move.1, states[k], p);
      if CallOf(s.processes[p]) == Some(call) { CallWasBegun(states, moves, k - 1, p, call); }
    }
  }

  lemma IdleHasNoCall(s: System, p: nat)
    requires Initial(s) && p < |s.processes|
    ensures CallOf(s.processes[p]).None?
  {
  }

  lemma SameProcesses(s: System, p: nat, action: Action, t: System)
    requires Step(s, p, action, t)
    ensures |t.processes| == |s.processes|
  {
    hide DuplicateTrace, DuplicateClause, FormatEntry, LoadScoped;
  }

  /** The events and answers that one step may add, with the call it belongs to. */
  lemma StepRecords(s: System, p: nat, action: Action, t: System)
    requires Step(s, p, action, t)
    ensures t.log == s.log
            || (exists op :: CallOf(s.processes[p]) == Some(Append(op))
                             && (t.log == s.log + [Committed(op)] || (action.Crash? && t.log == s.log + [Orphaned(op)])))
    ensures t.answers ==
            if !action.Advance? then s.answers
            else match s.processes[p]
                 case Loading(m, h) => s.answers + [(p, Clauses(m, h, LoadScoped(s.store, m, h)))]
                 case Iterating => s.answers + [(p, Records(s.store.deployments))]
                 case ReadingRaw => s.answers + [(p, Text(s.store.markdown))]
                 case _ => s.answers
  {
    hide DuplicateTrace, DuplicateClause, FormatEntry, LoadScoped;
  }

  /** Nothing is stored or orphaned that no process was asked to append. */
  lemma {:induction false} EventsWereBegun(states: seq<System>, moves: seq<(nat, Action)>, k: nat, e: Event) returns (p: nat)
    requires IsRun(states, moves) && k < |states| && e in states[k].log
    ensures BegunBefore(moves, k, p, Append(e.op))
  {
    hide Step, CallOf, Initial;
    p := 0;
    if k == 0 {
      NothingLogged(states[0]);
      assert false;
    } else {
      var s, move := states[k - 1], moves[k - 1];
      assert Step(s, move.0, move.1, states[k]);
      StepRecords(s, move.0, move.1, states[k]);
      if e in s.log {
        p := EventsWereBegun(states, moves, k - 1, e);
      } else {
        p := move.0;
        MoverExists(s, move.0, move.1, states[k]);
        CallWasBegun(states, moves, k - 1, p, Append(e.op));
      }
    }
  }

  lemma NothingLogged(s: System)
    requires Initial(s)
    ensures s.log == []
  {
  }

  lemma MoverExists(s: System, p: nat, action: Action, t: System)
    requires Step(s, p, action, t)
    ensures p < |s.processes|
  {
  }

  /** What a read returns: a scoped load and a listing what they return after a sequential history of
      the events so far, for the scope that was asked for; a raw read the Markdown file as it is, which
      may hold one printed entry more. */
  lemma ReadsAnswer(states: seq<System>, moves: seq<(nat, Action)>, k: nat, p: nat)
    requires IsRun(states, moves) && k < |moves| && moves[k] == (p, Advance) && p < |states[k].processes|
    ensures states[k].storeLock.Some? ==> states[k].storeLock.value < |states[k].processes|
    ensures var base, before, after := Replay(states[k].log), states[k].answers, states[k + 1].answers;
            match states[k].processes[p]
            case Loading(m, h) =>
              after == before + [(p, Clauses(m, h, LoadScoped(base, m, h)))] && BegunBefore(moves, k, p, Load(m, h))
            case Iterating =>
              after == before + [(p, Records(base.deployments))] && BegunBefore(moves, k, p, Iterate)
            case ReadingRaw =>
              after == before + [(p, Text(OnDisk(states[k]).markdown))] && BegunBefore(moves, k, p, ReadRaw)
            case _ => after == before
  {
    hide Step, Replay, LoadScoped, FormatEntry, Established;
    var s := states[k];
    assert Step(s, p, Advance, states[k + 1]);
    StepRecords(s, p, Advance, states[k + 1]);
    RunKeepsInv(states, moves, k);
    assert s.processes[p].HoldsStore() <==> s.storeLock == Some(p);
    if CallOf(s.processes[p]).Some? { CallWasBegun(states, moves, k, p, CallOf(s.processes[p]).value); }
  }

  /** Nested acquisitions take the deployments lock first, so while anyone is busy someone can
      advance. */
  lemma NoDeadlock(states: seq<System>, moves: seq<(nat, Action)>, k: nat, busy: nat)
    requires IsRun(states, moves) && k < |states|
    requires busy < |states[k].processes| && !states[k].processes[busy].Idle?
    ensures exists p: nat :: p < |states[k].processes| && Advanced(states[k], p).Some?
  {
    hide Accepts, DuplicateTrace, DuplicateClause, FormatEntry, Replay, Appended;
    var s := states[k];
    RunKeepsInv(states, moves, k);
    var p := if s.markdownLock.Some? then s.markdownLock.value
             else if s.storeLock.Some? then s.storeLock.value else busy;
    assert s.processes[p].HoldsMarkdown() <==> s.markdownLock == Some(p);
    assert s.processes[p].HoldsStore() <==> s.storeLock == Some(p);
    assert Advanced(s, p).Some?;
  }

  // ---------- the two views, concurrently ----------

  ghost predicate CrashFree(moves: seq<(nat, Action)>) {
    forall k :: 0 <= k < |moves| ==> !moves[k].1.Crash?
  }

  ghost predicate AllCommitted(log: seq<Event>) {
    forall k :: 0 <= k < |log| ==> log[k].Committed?
  }

  function Ops(log: seq<Event>): (ops: seq<Op>)
    ensures |ops| == |log|
    ensures forall k :: 0 <= k < |log| ==> ops[k] == log[k].op
  {
    seq(|log|, k requires 0 <= k < |log| => log[k].op)
  }

  lemma {:induction false} CommittedReplay(log: seq<Event>)
    requires AllCommitted(log)
    ensures Replay(log) == Run(Ops(log))
  {
    hide Appended;
    if log == [] {
    } else {
      CommittedReplay(log[..|log| - 1]);
      assert Ops(log)[..|log| - 1] == Ops(log[..|log| - 1]);
    }
  }

  lemma {:induction false} CrashFreeCommits(states: seq<System>, moves: seq<(nat, Action)>, k: nat)
    requires IsRun(states, moves) && CrashFree(moves) && k < |states|
    ensures AllCommitted(states[k].log)
  {
    hide Accepts, DuplicateTrace, DuplicateClause, FormatEntry;
    if k == 0 {
    } else {
      CrashFreeCommits(states, moves, k - 1);
      assert Step(states[k - 1], moves[k - 1].0, moves[k - 1].1, states[k]);
    }
  }

  /** A process has printed its entry and not yet written its JSONL line. */
  ghost predicate HalfWritten(s: System)
    requires s.storeLock.Some? ==> s.storeLock.value < |s.processes|
  {
    s.storeLock.Some? && s.processes[s.storeLock.value].Logging? && s.processes[s.storeLock.value].printed
  }

  /** Without crashes, whenever no append is half written the files are those of a sequential run
      of the committed appends, so their two views are related as there. */
  lemma ConcurrentViewsAgree(states: seq<System>, moves: seq<(nat, Action)>, k: nat, model: string, hash: string)
    requires IsRun(states, moves) && CrashFree(moves) && k < |states|
    requires forall i :: 0 <= i < |states[k].log| ==> PrintsSafely(states[k].log[i].op)
    ensures states[k].storeLock.Some? ==> states[k].storeLock.value < |states[k].processes|
    ensures !HalfWritten(states[k]) ==>
      var st := states[k].store;
      && st == Run(Ops(states[k].log))
      && LegacyView(st.markdown, model, hash) ==
           (if Printable(model, hash) then Dedup(StoredClauses(st.deployments, model, hash)) else [])
      && ((forall i :: 0 <= i < |states[k].log| ==> Regular(states[k].log[i].op)) && Printable(model, hash) ==>
            LegacyView(st.markdown, model, hash) == StripAll(StructuredView(st.deployments, model, hash)))
  {
    hide PrintsSafely, Regular, Run, Replay, LegacyView, StructuredView, StoredClauses, Dedup;
    var ops := Ops(states[k].log);
    RunKeepsInv(states, moves, k);
    CrashFreeCommits(states, moves, k);
    CommittedReplay(states[k].log);
    LegacyViewIsStored(ops, model, hash);
    if forall i :: 0 <= i < |states[k].log| ==> Regular(states[k].log[i].op) {
      ViewsAgree(ops, model, hash);
    }
  }
}
