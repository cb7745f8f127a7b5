/** The judge's auto-CoT cache: any number of tasks sharing one JudgeAgent, interleaved at
    every await of _generate_evaluation_steps. */
module JudgeCache {
  import opened Common

  /** The agent's two dictionaries; a lock is held by a task or by nobody. */
  datatype Judge = Judge(cache: map<string, string>, locks: map<string, Option<nat>>)

  /** What a segment of the coroutine ends with. */
  datatype Verdict = Hit(steps: string) | Miss

  function LockOf(j: Judge, rubric: string): Option<nat> {
    if rubric in j.locks then j.locks[rubric] else None
  }

  /** Up to `async with lock`: a cached value returns at once, else the lock exists afterwards. */
  function Looked(j: Judge, rubric: string): Judge {
    if rubric in j.cache || rubric in j.locks then j else j.(locks := j.locks[rubric := None])
  }

  function Lookup(j: Judge, rubric: string): Verdict {
    if rubric in j.cache then Hit(j.cache[rubric]) else Miss
  }

  /** From acquiring the lock to the send: the second look decides whether the lock stays held. */
  function Entered(j: Judge, rubric: string, task: nat): Judge {
    if rubric in j.cache then j else j.(locks := j.locks[rubric := Some(task)])
  }

  /** The send returned: the steps are cached and the lock released. */
  function Stored(j: Judge, rubric: string, steps: string): Judge {
    Judge(j.cache[rubric := steps], j.locks[rubric := None])
  }

  /** The send failed: only the lock is released. */
  function Released(j: Judge, rubric: string): Judge {
    j.(locks := j.locks[rubric := None])
  }

  /** The shared agent; each method is what one task does between two awaits. */
  class JudgeAgent {
    var cache: map<string, string>
    var locks: map<string, Option<nat>>

    ghost function State(): Judge
      reads this
    {
      Judge(cache, locks)
    }

    constructor ()
      ensures State() == Judge(map[], map[])
    {
      cache, locks := map[], map[];
    }

    method Look(rubric: string) returns (v: Verdict)
      modifies this
      ensures v == Lookup(old(State()), rubric) && State() == Looked(old(State()), rubric)
    {
      if rubric in cache { return Hit(cache[rubric]); }
      if rubric !in locks { locks := locks[rubric := None]; }
      v := Miss;
    }

    method Enter(rubric: string, task: nat) returns (v: Verdict)
      requires LockOf(State(), rubric).None?
      modifies this
      ensures v == Lookup(old(State()), rubric) && State() == Entered(old(State()), rubric, task)
    {
      if rubric in cache { return Hit(cache[rubric]); }
      locks := locks[rubric := Some(task)];
      v := Miss;
    }

    method Store(rubric: string, steps: string)
      modifies this
      ensures State() == Stored(old(State()), rubric, steps)
    {
      cache := cache[rubric := steps];
      locks := locks[rubric := None];
    }

    method Release(rubric: string)
      modifies this
      ensures State() == Released(old(State()), rubric)
    {
      locks := locks[rubric := None];
    }
  }

  // ---------- tasks ----------

  datatype Task =
    | Ready(rubric: string)
    | Waiting(rubric: string)      // at `async with lock`
    | Generating(rubric: string)   // at the send, holding the lock
    | Returned(rubric: string, steps: string)
    | Failed(rubric: string)       // the send raised
    | Cancelled(rubric: string)    // cancelled while waiting for the lock

  /** `started`, `stored` and `failed` record every generation in order. */
  datatype System = System(
    tasks: seq<Task>, judge: Judge, started: seq<string>, stored: seq<string>, failed: seq<string>)

  datatype Event = Run | Reply(steps: string) | Raise | Cancel

  function After(t: System, task: nat, next: Task, judge: Judge): System
    requires task < |t.tasks|
  {
    t.(tasks := t.tasks[task := next], judge := judge)
  }

  /** The segment a task runs when it is resumed by an event, or None if it cannot be. */
  function Resumed(s: System, p: nat, e: Event): Option<System>
    requires p < |s.tasks|
  {
    var r, j := s.tasks[p].rubric, s.judge;
    match (s.tasks[p], e)
    case (Ready(_), Run) =>
      Some(After(s, p, match Lookup(j, r) case Hit(v) => Returned(r, v) case Miss => Waiting(r), Looked(j, r)))
    case (Waiting(_), Run) =>
      if LockOf(j, r).Some? then None
      else if r in j.cache then Some(After(s, p, Returned(r, j.cache[r]), Entered(j, r, p)))
      else Some(After(s, p, Generating(r), Entered(j, r, p)).(started := s.started + [r]))
    case (Waiting(_), Cancel) => Some(After(s, p, Cancelled(r), j))
    case (Generating(_), Reply(v)) =>
      Some(After(s, p, Returned(r, v), Stored(j, r, v)).(stored := s.stored + [r]))
    case (Generating(_), Raise) =>
      Some(After(s, p, Failed(r), Released(j, r)).(failed := s.failed + [r]))
    case _ => None
  }

  ghost predicate Step(s: System, p: nat, e: Event, t: System) {
    p < |s.tasks| && Resumed(s, p, e) == Some(t)
  }

  ghost predicate Initial(s: System) {
    && (forall p :: 0 <= p < |s.tasks| ==> s.tasks[p].Ready?)
    && s.judge == Judge(map[], map[]) && s.started == [] && s.stored == [] && s.failed == []
  }

  // ---------- the invariant ----------

  function Count(log: seq<string>, r: string): nat {
    if log == [] then 0 else Count(log[..|log| - 1], r) + if log[|log| - 1] == r then 1 else 0
  }

  ghost predicate TaskFits(s: System, p: nat)
    requires p < |s.tasks|
  {
    var r := s.tasks[p].rubric;
    && (s.tasks[p].Generating? <==> LockOf(s.judge, r) == Some(p))
    && (s.tasks[p].Returned? ==> r in s.judge.cache && s.judge.cache[r] == s.tasks[p].steps)
  }

  /** The books on a rubric: every generation has failed, been stored, or is the one in flight,
      nothing is in flight once a value is stored, and at most one value ever is. */
  ghost predicate Balanced(s: System, r: string) {
    var inFlight := LockOf(s.judge, r).Some?;
    && Count(s.started, r) == Count(s.failed, r) + Count(s.stored, r) + (if inFlight then 1 else 0)
    && Count(s.stored, r) == (if r in s.judge.cache then 1 else 0)
    && !(inFlight && r in s.judge.cache)
    && (inFlight ==> var p := LockOf(s.judge, r).value; p < |s.tasks| && s.tasks[p] == Generating(r))
  }

  ghost predicate Inv(s: System) {
    && (forall p :: 0 <= p < |s.tasks| ==> TaskFits(s, p))
    && (forall r :: Balanced(s, r))
  }

  lemma CountSnoc(log: seq<string>, x: string, r: string)
    ensures Count(log + [x], r) == Count(log, r) + if x == r then 1 else 0
  {
    assert (log + [x])[..|log|] == log;
  }

  lemma StepKeepsTasks(s: System, p: nat, e: Event, t: System, q: nat)
    requires Inv(s) && Step(s, p, e, t) && q < |s.tasks|
    ensures TaskFits(t, q)
  {
    hide Count;
    assert TaskFits(s, p) && TaskFits(s, q);
    assert Balanced(s, s.tasks[p].rubric) && Balanced(s, s.tasks[q].rubric);
  }

  lemma StepKeepsBooks(s: System, p: nat, e: Event, t: System, r: string)
    requires Inv(s) && Step(s, p, e, t)
    ensures Balanced(t, r)
  {
    hide Count;
    var mine := s.tasks[p].rubric;
    assert TaskFits(s, p) && Balanced(s, r) && Balanced(s, mine);
    CountSnoc(s.started, mine, r);
    CountSnoc(s.stored, mine, r);
    CountSnoc(s.failed, mine, r);
  }

  lemma StepKeepsInv(s: System, p: nat, e: Event, t: System)
    requires Inv(s) && Step(s, p, e, t)
    ensures Inv(t)
  {
    forall q | 0 <= q < |t.tasks|
      ensures TaskFits(t, q)
    {
      StepKeepsTasks(s, p, e, t, q);
    }
    forall r
      ensures Balanced(t, r)
    {
      StepKeepsBooks(s, p, e, t, r);
    }
  }

  // ---------- runs ----------

  ghost predicate IsRun(states: seq<System>, moves: seq<(nat, Event)>) {
    && |states| == |moves| + 1 && Initial(states[0])
    && forall k :: 0 <= k < |moves| ==> Step(states[k], moves[k].0, moves[k].1, states[k + 1])
  }

  lemma {:induction false} RunKeepsInv(states: seq<System>, moves: seq<(nat, Event)>, k: nat)
    requires IsRun(states, moves) && k < |states|
    ensures Inv(states[k])
  {
    if k == 0 {
      forall r
        ensures Balanced(states[0], r)
      {
      }
    } else {
      RunKeepsInv(states, moves, k - 1);
      StepKeepsInv(states[k - 1], moves[k - 1].0, moves[k - 1].1, states[k]);
    }
  }

  /** Under every interleaving at most one generation per rubric is in flight, and none once a
      value is cached. */
  lemma OneGenerationInFlight(states: seq<System>, moves: seq<(nat, Event)>, k: nat, p: nat, q: nat)
    requires IsRun(states, moves) && k < |states| && p < |states[k].tasks| && q < |states[k].tasks|
    requires states[k].tasks[p].Generating? && states[k].tasks[q].Generating?
    requires states[k].tasks[p].rubric == states[k].tasks[q].rubric
    ensures p == q && states[k].tasks[p].rubric !in states[k].judge.cache
  {
    RunKeepsInv(states, moves, k);
    assert TaskFits(states[k], p) && TaskFits(states[k], q);
    assert Balanced(states[k], states[k].tasks[p].rubric);
  }

  lemma StepKeepsCached(s: System, p: nat, e: Event, t: System, r: string)
    requires Inv(s) && Step(s, p, e, t) && r in s.judge.cache
    ensures r in t.judge.cache && t.judge.cache[r] == s.judge.cache[r] && Count(t.started, r) == Count(s.started, r)
  {
    hide Count;
    assert TaskFits(s, p) && Balanced(s, s.tasks[p].rubric);
    CountSnoc(s.started, s.tasks[p].rubric, r);
  }

  /** A cached value is never replaced, and once it exists no generation starts again. */
  lemma {:induction false} CachedForever(states: seq<System>, moves: seq<(nat, Event)>, j: nat, k: nat, r: string)
    requires IsRun(states, moves) && j <= k < |states| && r in states[j].judge.cache
    ensures r in states[k].judge.cache && states[k].judge.cache[r] == states[j].judge.cache[r]
    ensures Count(states[k].started, r) == Count(states[j].started, r)
  {
    if j < k {
      CachedForever(states, moves, j, k - 1, r);
      RunKeepsInv(states, moves, k - 1);
      StepKeepsCached(states[k - 1], moves[k - 1].0, moves[k - 1].1, states[k], r);
    }
  }

  /** Every task that returns gets the one value that is ever stored for its rubric. */
  lemma ReturnedIsCached(states: seq<System>, moves: seq<(nat, Event)>, j: nat, k: nat, p: nat)
    requires IsRun(states, moves) && j <= k < |states| && p < |states[j].tasks| && states[j].tasks[p].Returned?
    ensures var task := states[j].tasks[p];
            && task.rubric in states[k].judge.cache && states[k].judge.cache[task.rubric] == task.steps
            && Count(states[k].stored, task.rubric) == 1
  {
    RunKeepsInv(states, moves, j);
    assert TaskFits(states[j], p);
    CachedForever(states, moves, j, k, states[j].tasks[p].rubric);
    RunKeepsInv(states, moves, k);
    assert Balanced(states[k], states[j].tasks[p].rubric);
  }

  /** Every generation beyond the first was needed because an earlier one failed. */
  lemma GenerationsCounted(states: seq<System>, moves: seq<(nat, Event)>, k: nat, r: string)
    requires IsRun(states, moves) && k < |states|
    ensures Count(states[k].failed, r) <= Count(states[k].started, r) <= Count(states[k].failed, r) + 1
    ensures r in states[k].judge.cache ==> Count(states[k].started, r) == Count(states[k].failed, r) + 1
  {
    RunKeepsInv(states, moves, k);
    assert Balanced(states[k], r);
  }

  /** A failed generation leaves the cache empty and the lock free, so that any task waiting
      for the rubric can generate next. */
  lemma FailureFreesNextWaiter(states: seq<System>, moves: seq<(nat, Event)>, k: nat, p: nat, next: nat)
    requires IsRun(states, moves) && k < |moves| && moves[k] == (p, Raise) && p < |states[k].tasks|
    requires var r := states[k].tasks[p].rubric;
             next < |states[k + 1].tasks| && states[k + 1].tasks[next] == Waiting(r)
    ensures var r := states[k].tasks[p].rubric;
            && r !in states[k + 1].judge.cache
            && Resumed(states[k + 1], next, Run).Some?
            && Resumed(states[k + 1], next, Run).value.tasks[next] == Generating(r)
  {
    RunKeepsInv(states, moves, k);
    assert Step(states[k], moves[k].0, moves[k].1, states[k + 1]);
    assert TaskFits(states[k], p) && Balanced(states[k], states[k].tasks[p].rubric);
  }

  /** While any task is unfinished, one can run or is at its send. */
  lemma SomeoneProceeds(states: seq<System>, moves: seq<(nat, Event)>, k: nat, p: nat)
    requires IsRun(states, moves) && k < |states| && p < |states[k].tasks|
    requires states[k].tasks[p].Ready? || states[k].tasks[p].Waiting?
    ensures Resumed(states[k], p, Run).Some? ||
            (LockOf(states[k].judge, states[k].tasks[p].rubric).Some? &&
             var q := LockOf(states[k].judge, states[k].tasks[p].rubric).value;
             q < |states[k].tasks| && Resumed(states[k], q, Raise).Some? && Resumed(states[k], q, Reply("")).Some?)
  {
    RunKeepsInv(states, moves, k);
    assert Balanced(states[k], states[k].tasks[p].rubric);
  }

  // ---------- the agent at work ----------

  /** Where a system goes on a move; a move that is not possible changes nothing. */
  function Moved(s: System, move: (nat, Event)): System {
    if move.0 < |s.tasks| && Resumed(s, move.0, move.1).Some? then Resumed(s, move.0, move.1).value else s
  }

  function Scheduled(s: System, schedule: seq<(nat, Event)>): System {
    if schedule == [] then s else Moved(Scheduled(s, schedule[..|schedule| - 1]), schedule[|schedule| - 1])
  }

  function Begun(rubrics: seq<string>): System {
    System(seq(|rubrics|, p requires 0 <= p < |rubrics| => Ready(rubrics[p])), Judge(map[], map[]), [], [], [])
  }

  /** Resumes one task on the shared agent, if the event can resume it. */
  method Resume(agent: JudgeAgent, tasks: seq<Task>, p: nat, e: Event, ghost s: System) returns (next: seq<Task>)
    requires p < |tasks| && s.tasks == tasks && s.judge == agent.State()
    modifies agent
    ensures next == Moved(s, (p, e)).tasks && agent.State() == Moved(s, (p, e)).judge
  {
    var r := tasks[p].rubric;
    next := tasks;
    match (tasks[p], e)
    case (Ready(_), Run) =>
      var v := agent.Look(r);
      next := tasks[p := match v case Hit(steps) => Returned(r, steps) case Miss => Waiting(r)];
    case (Waiting(_), Run) =>
      if r !in agent.locks || agent.locks[r].None? {
        var v := agent.Enter(r, p);
        next := tasks[p := match v case Hit(steps) => Returned(r, steps) case Miss => Generating(r)];
      }
    case (Waiting(_), Cancel) =>
      next := tasks[p := Cancelled(r)];
    case (Generating(_), Reply(steps)) =>
      agent.Store(r, steps);
      next := tasks[p := Returned(r, steps)];
    case (Generating(_), Raise) =>
      agent.Release(r);
      next := tasks[p := Failed(r)];
    case _ =>
  }

  /** Any schedule of any tasks over one agent is a run of the system, so every law above holds of
      the agent in each state it passes through. */
  method RunTasks(rubrics: seq<string>, schedule: seq<(nat, Event)>)
    returns (agent: JudgeAgent, tasks: seq<Task>, ghost states: seq<System>, ghost moves: seq<(nat, Event)>)
    ensures fresh(agent) && IsRun(states, moves)
    ensures states[|moves|] == Scheduled(Begun(rubrics), schedule)
    ensures tasks == states[|moves|].tasks && agent.State() == states[|moves|].judge
  {
    agent := new JudgeAgent();
    tasks := seq(|rubrics|, p requires 0 <= p < |rubrics| => Ready(rubrics[p]));
    ghost var s := Begun(rubrics);
    states, moves := [s], [];
    for k := 0 to |schedule|
      invariant fresh(agent) && IsRun(states, moves)
      invariant states[|moves|] == s == Scheduled(Begun(rubrics), schedule[..k])
      invariant tasks == s.tasks && agent.State() == s.judge
    {
      assert schedule[..k + 1][..k] == schedule[..k];
      var (p, e) := schedule[k];
      ghost var t := Moved(s, (p, e));
      if p < |tasks| {
        tasks := Resume(agent, tasks, p, e, s);
        if Resumed(s, p, e).Some? {
          RunSnoc(states, moves, (p, e), t);
          states, moves := states + [t], moves + [(p, e)];
        }
      }
      s := t;
    }
    assert schedule[..|schedule|] == schedule;
  }

  lemma RunSnoc(states: seq<System>, moves: seq<(nat, Event)>, move: (nat, Event), t: System)
    requires IsRun(states, moves) && Step(states[|moves|], move.0, move.1, t)
    ensures IsRun(states + [t], moves + [move])
  {
    hide Step;
    var more, all := states + [t], moves + [move];
    forall k | 0 <= k < |all|
      ensures Step(more[k], all[k].0, all[k].1, more[k + 1])
    {
      if k < |moves| { assert Step(states[k], moves[k].0, moves[k].1, states[k + 1]); }
    }
  }

  /** Conversely every run is scheduled by its own moves: the method reaches every reachable state. */
  lemma {:induction false} EveryRunScheduled(rubrics: seq<string>, states: seq<System>, moves: seq<(nat, Event)>)
    requires IsRun(states, moves) && states[0] == Begun(rubrics)
    ensures Scheduled(Begun(rubrics), moves) == states[|moves|]
    decreases |moves|
  {
    hide Step, Begun, Moved;
    if moves == [] {
    } else {
      var n := |moves| - 1;
      RunBefore(states, moves);
      EveryRunScheduled(rubrics, states[..n + 1], moves[..n]);
      assert Step(states[n], moves[n].0, moves[n].1, states[n + 1]);
      StepIsMove(states[n], moves[n], states[n + 1]);
    }
  }

  lemma RunBefore(states: seq<System>, moves: seq<(nat, Event)>)
    requires IsRun(states, moves) && moves != []
    ensures IsRun(states[..|moves|], moves[..|moves| - 1])
  {
    hide Step;
    var n := |moves| - 1;
    forall k | 0 <= k < n
      ensures Step(states[..n + 1][k], moves[..n][k].0, moves[..n][k].1, states[..n + 1][k + 1])
    {
      assert Step(states[k], moves[k].0, moves[k].1, states[k + 1]);
    }
  }

  lemma StepIsMove(s: System, move: (nat, Event), t: System)
    requires Step(s, move.0, move.1, t)
    ensures Moved(s, move) == t
  {
    hide Resumed;
  }
}
