# Verified model of RedThread's search, memory, research and reporting cores

This project models the parts of RedThread that carry properties over whole runs, and proves
them. Code that updates objects, stores or lists in place is modelled by classes and methods
with loops, each tied to a specification function or relation on values; the laws are then
lemmas about all runs of that specification. Replies of models, token counts, sampled
strategies, crashes and the interleaving of tasks or processes are arbitrary.

| files | component |
|---|---|
| MctsSpec, MctsRun, MctsSelection, MctsTree, MctsAttack | the guided tree search: selection, expansion, rollout, backpropagation, and the three reports of its best path |
| MemoryText, MemoryFormat, MemoryEntry, MemoryBlocks, MemoryIndex, MemoryNorm, MemoryViews, MemoryLocks, MemoryCrashes, DefenseParser | the JSONL and Markdown memory stores, printer and parser, duplicate rules, and the two-lock protocol |
| ResearchBatch, ResearchSummary | the resumable research batch with its checkpoints, and the summary it returns |
| NarrativePolicy, NarrativeGuidance, Crescendo | the phase machine, what it recommends, and the retry loop that drives it |
| JudgeCache | the judge's per-rubric cache under concurrent tasks |
| TapSpec, Tap | the beam search with its two pruning stages |
| DefenseValidator, DefenseCandidate, DefenseOutcome | rendering a defense candidate by splices, and the surface check |
| PublicArtifacts | redaction of public artifacts and the safety assertion |
| CanaryMerge, Supervisor | canary reports merged stage by stage, and the runtime summary |
| PersonaPlanning, PersonaOrder, PersonaQuality | spreading prompting layers over a batch, and repairing coverage |
| Common | shared vocabulary |

Where the code does not do what one would expect of it, the model follows the code:

- A batch that is killed after clearing its checkpoint and before returning its summary executes
  everything again. The accounting of any history, and exactly when repeats stay within the
  number of crashes, is ResearchBatch.HistoryBalances and ResearchBatch.RepeatsWithinCrashesIff;
  a failing run is ResearchBatch.LateCrashRepeatsAll.
- A batch without an id is never resumed, and neither is one whose id is the empty string: its
  checkpoints are saved under another name than they are looked up
  (ResearchBatch.UnnamedNeverResumes). The laws about resuming are
  stated for the other ids (ResearchBatch.Resumable).
- The Markdown view strips clauses, drops blank ones and ignores the status, so it can differ
  from the JSONL view. What it is after any appends is MemoryIndex.LegacyViewIsStored; exactly
  when both are the same list is MemoryViews.ViewsEqualIff; runs in which they differ are given by
  MemoryViews.OneAppendDiffersIff.
- A process that dies between the two writes of an append leaves an entry that only the Markdown
  file has. The legacy view shows it (MemoryCrashes.LegacyViewAfterCrashes), and while nothing is
  stored it makes a retry fail (MemoryCrashes.RefusedIff, MemoryCrashes.RetryRefused).
- The surface check compares line numbers, so a candidate that shortens a mutable symbol can be
  refused although nothing else was edited (DefenseOutcome.ShorterEditRefused). Which candidates
  pass can be told before rendering (DefenseOutcome.RenderedPasses).
- A statement that binds both edited symbols is spliced twice and can lose the lines behind it
  (DefenseOutcome.SharedStatementLoses).
- An attack worker that returns neither an error nor a result makes a run degraded without
  leaving an error in the summary (Supervisor.DegradedIff).

Verify everything with `dafny verify dfyconfig.toml`.

## Model

| member | source | states |
|---|---|---|
| MctsRun.RunInvariant | src/redthread/core/mcts.py:74-117 | In every state of every run the registry, conservation, round-robin and depth laws hold, and the root's visits are exactly the number of simulations that expanded |
| MctsRun.StepKeepsInv | src/redthread/core/mcts.py:99-115 | One simulation, whatever the models answer, keeps all laws; the root gains a visit exactly when the simulation grew the tree; every token spent is counted |
| MctsSpec.BackpropConserves | src/redthread/core/mcts_phases.py:65-72 | Backpropagation of a rollout's reward restores, at every node, visits = own rollout + children's visits and total reward = own score + children's totals |
| MctsSpec.BumpMovesDebt | src/redthread/core/mcts_phases.py:68-72 | One step of the upward walk moves the one missing visit and reward from a node to its parent and disturbs no other node |
| MctsSpec.GrownOwesFirstChild | src/redthread/core/mcts.py:111-115 | After an expansion and the scoring of its first child, exactly that child is one visit and one reward short |
| MctsSpec.ConservedCountsNest | src/redthread/core/mcts_helpers.py:128-134 | Conservation makes a parent's visits at least each child's, so the logarithm in the UCT score is never taken below 1 and never negative |
| MctsSpec.SelectFair | src/redthread/core/mcts_phases.py:49-62 | The leaf selection reaches is new or has only visited siblings, and so has each of its ancestors |
| MctsSelection.SelectIff | src/redthread/core/mcts_phases.py:49-62 | Selection returns exactly the node where a walk from the root stops that always goes on to the favourite child: a new child first, else the highest average reward plus exploration bonus, the earlier one on a tie; it stops at a node that is not expanded, at the depth cap, or childless |
| MctsSelection.HigherAverageFirst | src/redthread/core/mcts_helpers.py:128-134 | Nowhere on the way to the selected leaf is a child passed over for a sibling with as many visits and a lower average reward |
| MctsSelection.HistoryTells | src/redthread/core/mcts_helpers.py:105-116 | A history holds, in order, the exchanges of exactly the nodes of a path that are below the root and have a prompt |
| MctsSelection.SimulationAdds | src/redthread/core/mcts.py:99-115 | A simulation above the depth cap adds one unvisited node per sampled strategy below the selected leaf, each with its own exchange, and scores the first by the judge on the last exchange of the rollout, or without one on the last exchange of its path |
| MctsSelection.SimulationMarks | src/redthread/core/mcts.py:137-139 | Any other simulation costs nothing and only marks the selected leaf |
| MctsSpec.BackpropRoundRobin | src/redthread/core/mcts_phases.py:65-72 | Backpropagation from a fairly selected node never gives a child a second visit before all siblings had a first |
| MctsSpec.Path | src/redthread/core/mcts_helpers.py:94-103 | A node's path starts at the root, ends at the node, and its k-th node has depth k |
| MctsSpec.PathLink | src/redthread/core/mcts_helpers.py:94-103 | Consecutive nodes of a path are parent and child |
| MctsSpec.GrownRegistry | src/redthread/core/mcts.py:148-161 | Registering new children keeps ids distinct, parents earlier and depths one apart, and changes no existing parent |
| MctsRun.CapFreezes | src/redthread/core/mcts.py:137-139 | Once selection returns a node at the depth cap it returns that node for the rest of the run, and the tree, counts and token total no longer change |
| MctsRun.ProductivePrefix | src/redthread/core/mcts.py:99-111 | The simulations that grow the tree form a prefix of every run |
| MctsRun.TokensWithinBudget | src/redthread/core/mcts.py:99-117 | If no send costs more than a bound, a run ends below its budget plus the largest cost of one simulation |
| MctsRun.BranchSendsCount | src/redthread/core/mcts_rollout.py:33-72 | Every send of an expansion counts once in the token total |
| MctsRun.RolloutSendsCount | src/redthread/core/mcts_rollout.py:84-128 | Every send of a rollout counts once in the token total |
| MctsRun.BestLeafIsBest | src/redthread/core/mcts_helpers.py:118-126 | No visited node averages more than the answer of a run and no earlier one as much, and the answer is the root exactly when no simulation was productive |
| MctsTree.Tree.Register | src/redthread/core/mcts_helpers.py:86-88 | Registering a node under a registered parent keeps the registry valid and appends it in registration order |
| MctsTree.Tree.GetPath | src/redthread/core/mcts_helpers.py:94-103 | The dictionary walk upwards, reversed, is the root-to-node path |
| MctsTree.Tree.GetHistory | src/redthread/core/mcts_helpers.py:105-116 | The history is the prompt and response pairs of the path below the root, without empty prompts |
| MctsTree.Tree.SelectNode | src/redthread/core/mcts_phases.py:49-62 | The selection loop terminates and returns the leaf of the specification, each time the first child with the best UCT key |
| MctsTree.Backpropagate | src/redthread/core/mcts_phases.py:65-72 | The in-place loop over shared nodes changes exactly what the specification of backpropagation changes |
| MctsTree.FirstBestAverage | src/redthread/core/mcts_helpers.py:118-126 | The first visited node below the root with the highest average reward, or none when nothing was visited |
| MctsAttack.Sample | src/redthread/core/mcts.py:144 | A sample has the requested size and takes no position twice |
| MctsAttack.Attack.Expand | src/redthread/core/mcts.py:125-162 | At the depth cap the leaf is only marked terminal; above it one fresh child per sampled strategy, no listed strategy more often than it is listed, joins both the tree and the trace, in the same order |
| MctsAttack.Attack.Rollout | src/redthread/core/mcts_rollout.py:75-133 | A rollout plays exactly min(turn limit, remaining depth) exchanges, extends the given history by them and counts their tokens |
| MctsAttack.Attack.Simulate | src/redthread/core/mcts_rollout.py:75-133 | The reward is the judge's score of the last exchange after the rollout, or 0 for an empty history |
| MctsAttack.Attack.SimulateOnce | src/redthread/core/mcts.py:99-115 | One pass of the loop over mutable nodes is one step of the specified search |
| MctsAttack.Attack.RunSearch | src/redthread/core/mcts.py:74-117 | The imperative search is a run of the specification; it stops early only at or above the token budget, and trace and tree list the same nodes in the same order |
| MctsAttack.FinalTurns | src/redthread/core/mcts_phases.py:114-125 | The recorded turns are those of the best leaf's path below the root |
| MctsAttack.BuildMctsLine | src/redthread/engine_transcript.py:104-125 | The transcript's winning path, rebuilt from the trace alone, is the best leaf's path |
| MctsAttack.FormatMctsNodes | src/redthread/evaluation/judge_support.py:82-97 | The judge's formatted path, rebuilt from the trace alone, is the best leaf's path |
| MctsAttack.Report | src/redthread/core/mcts_phases.py:114-125 | For one search the recorded turns, the transcript line and the judge's blocks are built from one node sequence |
| MctsAttack.SearchAndReport | src/redthread/core/mcts.py:74-118 | For every search the recorded turns, the transcript line and the judge's blocks all follow the best path of its last state |
| MctsAttack.ReportsAgree | src/redthread/evaluation/judge_support.py:94-97 | Turns, transcript steps and judge blocks have the same length, tell the prompt, response, strategy and score of the same node at each position of a chain of parents and children, and are numbered 1, 2, ... |
| MemoryFormat.ParserInvertsPrinter | src/redthread/memory/legacy_parser.py:34-68 | Parsing the header and any printed entries whose fields stay on their lines gives exactly the stripped clauses of the validated in-scope records, in order |
| MemoryFormat.ScopeRoundTrip | src/redthread/memory/formatting.py:26 | The scope pattern reads back exactly the scopes whose fields are non-empty and free of backticks, and matches no other printed scope |
| MemoryFormat.BodyContributes | src/redthread/memory/formatting.py:23-60 | One printed entry contributes its stripped clause to a scope exactly when it is validated, in that scope, and not blank |
| MemoryEntry.EntryReads | src/redthread/memory/formatting.py:23-60 | Every field of a record is read back from its own line of the printed entry, those in front of a bar if they hold none |
| MemoryFormat.HeaderBlocks | src/redthread/memory/formatting.py:16-21 | The header makes one block of its first five lines, closed before the entries start |
| MemoryFormat.HeaderContributesNothing | src/redthread/memory/formatting.py:16-21 | The header contributes no clause: what follows it parses as if it were not there |
| MemoryText.EntryBlocks | src/redthread/memory/legacy_parser.py:18-31 | The block loop splits at separators and headings as specified, dropping separators and keeping headings |
| MemoryText.LoadLegacyGuardrails | src/redthread/memory/legacy_parser.py:34-68 | The imperative parser returns the clauses of the specified block semantics |
| MemoryBlocks.BlocksAtSeparator | src/redthread/memory/legacy_parser.py:18-31 | A separator anywhere closes the block before it and belongs to none |
| MemoryBlocks.BlocksAtHeading | src/redthread/memory/legacy_parser.py:18-31 | A heading anywhere closes the block before it and opens the next one |
| MemoryBlocks.PlainBlock | src/redthread/memory/legacy_parser.py:18-31 | All other lines stay together |
| MemoryBlocks.IndentIgnored | src/redthread/memory/legacy_parser.py:8-15 | No line recogniser minds white space in front of a line |
| MemoryBlocks.ContinuedClause | src/redthread/memory/legacy_parser.py:51-67 | A clause is what follows the first marker and the quoted lines directly behind it, stripped, without blank parts, and joined by single spaces |
| MemoryBlocks.BlockContributes | src/redthread/memory/legacy_parser.py:40-66 | A block counts for a scope exactly when it has one verdict and one scope line, they say yes and that scope, and its clause is not blank |
| MemoryText.SplitNormalize | src/redthread/memory/legacy_parser.py:36-38 | Normalising carriage returns changes nothing that splitting into lines can see |
| MemoryText.SplitUnlines | src/redthread/memory/legacy_parser.py:22 | Writing lines with line feeds and splitting again gives the lines back |
| MemoryIndex.NormStrip | src/redthread/memory/legacy_parser.py:75 | Surrounding white space does not change what a clause is compared as |
| MemoryNorm.NormEqualIff | src/redthread/memory/legacy_parser.py:75 | Two clauses are compared as equal exactly when they have the same words in the same order up to letter case |
| MemoryNorm.NormGap | src/redthread/memory/legacy_parser.py:75 | White space of any kind and length between two parts of a clause counts as one space |
| MemoryNorm.AppendPrints | src/redthread/memory/index.py:52-72 | What an accepted append does after any run: it stores the record with its status, and prints it unless its clause has words and a clause of its scope has the same |
| MemoryNorm.RepeatChangesNothing | src/redthread/memory/index.py:168-176 | After any run that stored an active clause of a scope, appending a clause with the same words, re-cased or re-spaced, prints nothing and leaves both views of every scope unchanged |
| MemoryIndex.DedupClauses | src/redthread/memory/legacy_parser.py:70-79 | The loop keeps the first clause of each norm |
| MemoryIndex.DedupDistinct | src/redthread/memory/legacy_parser.py:70-79 | Deduplicated clauses have pairwise different norms |
| MemoryIndex.Index.Append | src/redthread/memory/index.py:37-72 | The append returns whether it wrote, stamps the metadata, writes the JSONL record always and the Markdown entry only for a new clause |
| MemoryIndex.Index.LoadScopedGuardrails | src/redthread/memory/index.py:124-146 | A scoped load answers from the JSONL store, and from the Markdown file only while that store is empty |
| MemoryIndex.ScopedTells | src/redthread/memory/index.py:128-142 | A scope sees, in order, the clauses of the stored records that name it, were validated, and are active or carry no status |
| MemoryIndex.Index.AppendRecords | src/redthread/memory/index.py:77-86 | Appending a list is appending its records in turn, and the ids of those written are returned in order |
| MemoryIndex.WrittenAreStored | src/redthread/memory/index.py:77-86 | The ids returned are those of the records that joined the JSONL store, in order |
| MemoryIndex.TracesStayUnique | src/redthread/memory/index.py:52-66 | From fresh files trace ids stay unique, and an append is refused exactly when it is blocked or its trace id is already stored |
| MemoryIndex.StoreOnlyGrows | src/redthread/memory/index.py:52-66 | The JSONL store only ever grows at its end |
| MemoryIndex.LegacyViewIsStored | src/redthread/memory/index.py:128-146 | After any appends to fresh files, of any status and with blank clauses included, the legacy view of a printable scope is the deduplicated list of the stored validated clauses of the scope, stripped, the status ignored |
| MemoryIndex.ViewsAgree | src/redthread/memory/index.py:128-146 | After any appends of active guardrails with clauses that are not blank, the legacy view of a scope is the structured view with its clauses stripped, in order, although duplicates were written to JSONL only |
| MemoryIndex.PrintedIsStored | src/redthread/memory/index.py:61-66 | Deduplicated, the clauses printed for a scope are the clauses stored for it, although an entry is printed only when the structured view lacks its clause |
| MemoryViews.ViewsEqualIff | src/redthread/memory/index.py:128-146 | After any appends the two views of a scope are the same list exactly when, among its stored records, no active clause is blank, each clause is first active with exactly the stripped text of its first record of any status, and both orders agree |
| MemoryViews.ViewsEqualThroughoutIff | src/redthread/memory/index.py:128-146 | The two views agree after every append of a run exactly when every stored record is calm: blank only if inactive, and new to its scope only if active and stripped |
| MemoryViews.OneAppendDiffersIff | src/redthread/memory/index.py:37-72 | Runs in which the views differ: one append of a validated record to fresh files parts them exactly when it is inactive with a clause, or active with a clause that is blank or not stripped |
| MemoryViews.DedupIsFirsts | src/redthread/memory/legacy_parser.py:70-79 | Deduplicating keeps exactly the clauses of the records that are first with their norm, in order |
| DefenseParser.ProposalClean | src/redthread/core/defense_parser.py:8-26 | Every field of a parsed proposal is a single line and its clause is stripped |
| DefenseParser.ReplyParsed | src/redthread/core/defense_parser.py:8-26 | A reply in the requested form is parsed into its stripped fields, the first four with a default for an empty one |
| DefenseParser.ExtractAt | src/redthread/core/defense_parser.py:11-15 | A field is the stripped rest of the first line that starts with its key |
| DefenseParser.ExtractMissing | src/redthread/core/defense_parser.py:11-15 | A field whose key starts no line is empty |
| DefenseParser.ProposalViewsEqual | src/redthread/memory/index.py:128-146 | For records made from parsed proposals both views of every printable scope are the same list |
| MemoryLocks.RunKeepsInv | src/redthread/memory/index.py:52-66 | In every interleaving of any number of processes, crashes included, the files are what a sequential history produces, up to one entry the lock holder already printed |
| MemoryLocks.TracesUnique | src/redthread/memory/index.py:52-66 | Trace ids in the JSONL store stay unique in every interleaving |
| MemoryLocks.NothingLost | src/redthread/memory/file_locks.py:13-26 | No committed record is ever lost or moved, and the JSONL store holds exactly the records of the committed appends |
| MemoryLocks.NoCommitRefused | src/redthread/memory/index.py:52-66 | Replayed one after another, no append that committed in an interleaving is refused |
| MemoryLocks.LoadSeesHistory | src/redthread/memory/index.py:124-126 | A load that holds both locks sees files that a sequential history produces |
| MemoryLocks.ReadsAnswer | src/redthread/memory/index.py:102-126 | In every interleaving a scoped load returns what a load after a sequential history returns for the scope that was asked for, a listing the records of that history, and a raw read the Markdown file with at most one printed entry more |
| MemoryLocks.EventsWereBegun | src/redthread/memory/index.py:37-72 | Nothing is stored or left behind that no process was asked to append |
| MemoryLocks.NoDeadlock | src/redthread/memory/file_locks.py:13-39 | While any process is busy, some process can take its next step, because the deployments lock is always taken first |
| MemoryLocks.ConcurrentViewsAgree | src/redthread/memory/index.py:102-146 | Without crashes, whenever no append is half written the files are those of a sequential run of the committed appends, and the two views are related as there |
| MemoryCrashes.LegacyViewAfterCrashes | src/redthread/memory/index.py:128-146 | In every state of every interleaving, crashes included, the legacy view of a printable scope is the deduplicated list of the stripped clauses that committed and orphaned appends brought |
| MemoryCrashes.RefusedIff | src/redthread/memory/index.py:159-167 | In every interleaving, crashes included, an append that has taken the lock is refused exactly when its trace id is stored, or nothing is stored and an orphaned entry shows it |
| MemoryCrashes.RetryRefused | src/redthread/memory/index.py:52-66 | A run in which a retry is refused although nothing was stored: the first append died between its two writes |
| MemoryCrashes.ReadsBackIff | src/redthread/memory/index.py:163-166 | A printed trace line gives its id back exactly when the id has neither the marker in it nor a backtick at an end |
| MemoryCrashes.MarkdownTrace | src/redthread/memory/index.py:163-167 | The trace lines the duplicate check finds in a printed file are exactly those of its entries |
| ResearchBatch.ResumedEqualsUninterrupted | src/redthread/research/baseline.py:65-145 | However often and wherever a batch is killed and restarted under its id, the summary it finally returns is that of an uninterrupted run |
| ResearchBatch.HistoryProgress | src/redthread/research/baseline.py:86-120 | After any number of killed processes the saved checkpoint is the progress of some prefix of the objectives |
| ResearchBatch.ContinueOutcome | src/redthread/research/baseline.py:86-145 | What one process does from any point: two actions save one more objective, an odd last action is an execution whose result is lost, and a process that lives clears the checkpoint |
| ResearchBatch.HistoryBalances | src/redthread/research/baseline.py:65-145 | The accounting of every history of processes: executions are one full pass per cleared checkpoint, one per crash before a save, and one per objective now saved |
| ResearchBatch.HistorySummary | src/redthread/research/baseline.py:122-145 | A history ends with a summary exactly when its last process lived long enough, and it is the uninterrupted one |
| ResearchBatch.RepeatsWithinCrashesIff | src/redthread/research/baseline.py:119-145 | The claim of at most one repeated objective per crash is false; the repeats of any history, and exactly when they stay within the number of crashes: each crash after the checkpoint was cleared repeats the whole batch |
| ResearchBatch.LateCrashRepeatsAll | src/redthread/research/baseline.py:143-145 | A run in which the one crash repeats every objective: it falls after the checkpoint is cleared |
| ResearchBatch.CrashesOrReturns | src/redthread/research/baseline.py:65-145 | Every process of a history is counted once, as returned or as crashed |
| ResearchBatch.OneRepeatPerCrash | src/redthread/research/baseline.py:86-145 | After any number of crashes before the checkpoint is cleared and one process that finishes, the summary is the uninterrupted one and each crash has cost one execution if it fell before a save, else none |
| ResearchBatch.CrashesOnlyLoseUnsaved | src/redthread/research/baseline.py:86-120 | While no process has cleared the checkpoint, what was executed is what is saved plus one execution for each crash before a save |
| ResearchBatch.PriceOfOneCrash | src/redthread/research/baseline.py:119-145 | What one more crash anywhere in any history costs once the batch is run to its end |
| ResearchBatch.CompletedSlugs | src/redthread/research/baseline.py:87-88 | The completed list is the distinct slugs of the objectives in order of first occurrence |
| ResearchBatch.ProgressTellsResults | src/redthread/research/baseline.py:94-116 | Each distinct slug is executed once with the result of its first objective, and all lists and totals of the checkpoint tell these results |
| ResearchSummary.ReturnedSummaryTells | src/redthread/research/baseline.py:122-145 | The summary a batch returns after any crashes, told from the objectives and their results alone: one result for the first objective of every slug, sums, averages and the weighted composite over these results, and the personas of the executed objectives |
| ResearchBatch.ProgressGrows | src/redthread/research/baseline.py:111 | What is completed stays completed, in the same order |
| ResearchBatch.RunBatch | src/redthread/research/baseline.py:65-145 | The loop over mutable lists and the checkpoint store does what the specification of one process does |
| ResearchBatch.LoadCheckpoint | src/redthread/research/baseline.py:148-167 | A stored checkpoint is used only if it lists the same objective slugs; otherwise the batch starts anew |
| ResearchBatch.ResumesSameList | src/redthread/research/baseline.py:148-157 | A stored checkpoint is resumed exactly when it lists the same slugs in the same order |
| ResearchBatch.NothingKeptWithoutStore | src/redthread/research/baseline.py:119-120 | Without a store no process leaves anything behind and each starts anew |
| ResearchBatch.UnnamedNeverResumes | src/redthread/research/baseline.py:148-167 | A batch without an id or with an empty one finds nothing to resume after any processes, and saves under its mode and lane only |
| NarrativePolicy.PotentialLaw | src/redthread/core/narrative_policy.py:98-115 | Phase index times the pivot limit plus the pivot count equals failures plus the limit per successful advance, and before the ask phase the pivot count is below the limit |
| NarrativePolicy.FailureStreak | src/redthread/core/narrative_policy.py:102-111 | The counter of consecutive failures is the length of the longest run of turns below 3.0 at the end |
| NarrativePolicy.PhaseStep | src/redthread/core/narrative_policy.py:102-115 | A turn scoring at least 3.5 moves the phase by one unless the turn before it failed, no other accepted turn moves it, and a failure moves it exactly when it uses up the phase |
| NarrativeGuidance.PhaseOfRun | src/redthread/core/narrative_models.py:23-27 | The phase of a run is the one reached along rapport, legitimacy, pressure and ask by the steps that its failures and advances pay for |
| NarrativePolicy.FailuresForceAsk | src/redthread/core/narrative_policy.py:108-115 | Three phases' worth of failures force the ask phase, whatever the other turns brought |
| NarrativePolicy.PhaseNeverRegresses | src/redthread/core/narrative_models.py:23-27 | The phase never regresses and moves at most one step a turn |
| NarrativePolicy.ListsTellHistory | src/redthread/core/narrative_policy.py:92-115 | After n turns the three lists hold, without repeats, exactly the strategies played, those accepted and those failed |
| NarrativePolicy.FailsAtMostOnce | src/redthread/core/narrative_policy.py:154-162 | A strategy played again after failing is the fallback |
| NarrativePolicy.AllTriedBeforeRepeat | src/redthread/core/narrative_policy.py:154-162 | No strategy is repeated before every listed strategy has been played |
| NarrativePolicy.FirstPass | src/redthread/core/narrative_policy.py:154-159 | The first turns play the distinct listed strategies in listed order, whatever the outcomes |
| NarrativeGuidance.LaterPass | src/redthread/core/narrative_policy.py:159-162 | Once every listed strategy has been played, the strategy that was accepted first among those that never failed is repeated, or the fallback when there is none |
| NarrativeGuidance.GuidanceTells | src/redthread/core/narrative_policy.py:128-151 | The action escalates after a success, pivots after a failure with a strategy of its own, and holds otherwise; the strategies to avoid are exactly those that failed |
| NarrativeGuidance.LastRefusal | src/redthread/core/narrative_policy.py:117-126 | A state counts the turns and keeps the refusal found in the last one |
| Crescendo.PlayTurn | src/redthread/core/crescendo.py:105-162 | The first attempt that escalates is accepted, else the last one the backtrack limit allows; all rejected attempts were below the threshold; a negative limit plays nothing |
| Crescendo.Run | src/redthread/core/crescendo.py:97-182 | Turns are numbered 1..k with level min(5, earlier escalated turns); history is exactly the escalated turns; only the last turn reaches the success threshold, and a short run ended in success; the narrative state is the policy's fold over the turns |
| Crescendo.CallsBounded | src/redthread/core/crescendo.py:107-153 | k recorded turns cost at most k * (limit + 1) target calls |
| Crescendo.HistoryTells | src/redthread/core/crescendo.py:159-161 | The replayed history holds, in order, the exchanges of exactly the turns that reached the escalation threshold, and the level counts them |
| Crescendo.OutcomesTell | src/redthread/core/crescendo.py:171-176 | The policy is told the score and the refusal signal of every recorded turn, in order |
| Crescendo.CallsCount | src/redthread/core/crescendo.py:107-153 | A turn costs one target call and one more for every rejected attempt |
| Crescendo.WeakRunsReachAsk | src/redthread/core/crescendo.py:171-176 | A run with enough turns below the policy's acceptance score ends in the ask phase |
| JudgeCache.OneGenerationInFlight | src/redthread/evaluation/judge.py:74-104 | Under every interleaving at most one generation per rubric is in flight, and none once a value is cached |
| JudgeCache.CachedForever | src/redthread/evaluation/judge.py:77-85 | A cached value is never replaced, and no generation for its rubric starts again |
| JudgeCache.ReturnedIsCached | src/redthread/evaluation/judge.py:102-104 | Every task that returns gets the one value that is ever stored for its rubric |
| JudgeCache.GenerationsCounted | src/redthread/evaluation/judge.py:92-102 | Every generation beyond the first was needed because an earlier one failed |
| JudgeCache.FailureFreesNextWaiter | src/redthread/evaluation/judge.py:81-101 | A failed generation leaves the cache empty and the lock free, and any waiting task generates next |
| JudgeCache.SomeoneProceeds | src/redthread/evaluation/judge.py:81-104 | While a task is unfinished, it can run or the lock holder is at its send |
| JudgeCache.RunKeepsInv | src/redthread/evaluation/judge.py:74-104 | In every reachable state each rubric's generations are accounted for: failed, stored, or the one in flight |
| JudgeCache.RunTasks | src/redthread/evaluation/judge.py:74-104 | Any schedule of any tasks over one agent with its two dictionaries, segment by segment between awaits, is a run of the system |
| JudgeCache.EveryRunScheduled | src/redthread/evaluation/judge.py:74-104 | Every run of the system is played by some schedule |
| TapSpec.TreeBounded | src/redthread/core/tap.py:100-135 | A whole run has at most B + (D - 1) * B * W nodes below the root |
| TapSpec.RunIsTree | src/redthread/core/tap.py:145-172 | Every parent in a run's tree is an earlier, unpruned node exactly one level up |
| TapSpec.KeptScoreHighest | src/redthread/core/tap_pruning.py:35-42 | No kept leaf scores below a node of its level that was pruned for its score |
| TapSpec.TrajectoryUnpruned | src/redthread/core/tap_branching.py:138-157 | The recorded turns are the unpruned root path of the reported node, numbered 1..k |
| TapSpec.JailbreakSound | src/redthread/core/tap.py:115-134 | A reported jailbreak is an unpruned node whose score the judge gave and which reaches the success threshold |
| TapSpec.BestIsBest | src/redthread/core/tap_branching.py:140-144 | Without a jailbreak an unpruned node below the root with a positive score is reported if there is one; no other such node beats it, and no earlier one ties with it |
| TapSpec.NoneReported | src/redthread/core/tap_branching.py:140-144 | Without such a node nothing is reported |
| TapSpec.SearchEnds | src/redthread/core/tap.py:100-134 | A search goes on exactly past the levels with a survivor of the topic check and no jailbreak, up to the depth limit |
| TapSpec.NothingBeatsReported | src/redthread/core/tap.py:100-135 | In a live run without a jailbreak that keeps at least one leaf a level, no node with a positive score, pruned for its score or not, beats the reported one |
| TapSpec.PathLink | src/redthread/core/tap_pruning.py:45-57 | Consecutive nodes of a reconstructed path are parent and child |
| Tap.Run | src/redthread/core/tap.py:95-135 | The loop over shared, mutated nodes is a run of the specification, level by level, dry or not |
| Tap.GrowLevel | src/redthread/core/tap.py:108-135 | One level: branching of every leaf, topic pruning, scoring up to the first success, and the cut to the best leaves |
| Tap.Branch | src/redthread/core/tap.py:145-172 | Every leaf gets its children in order, one level deeper, and nothing else is added |
| Tap.PruneOffTopic | src/redthread/core/tap_pruning.py:13-32 | Exactly the off-topic nodes are marked, and the rest survive in order |
| Tap.ScoreLevel | src/redthread/core/tap.py:115-131 | Nodes are answered and scored in order up to the first success; later nodes are untouched |
| Tap.SortByScore | src/redthread/core/tap_pruning.py:37 | The sort is a stable one by descending score that keeps every node |
| Tap.PruneByScore | src/redthread/core/tap_pruning.py:35-42 | The best W nodes are returned and exactly the others are marked as pruned |
| Tap.ExpandDryRun | src/redthread/core/tap_branching.py:90-116 | A dry-run level adds a mock child per leaf and branch, keeps the first W of them and marks exactly the others |
| Tap.ReconstructPath | src/redthread/core/tap_pruning.py:45-57 | The dictionary walk from a node, reversed, is its root path |
| Tap.PopulateBestTrajectory | src/redthread/core/tap_branching.py:138-157 | The recorded turns are those of the jailbreak, or of the first best-scored unpruned node |
| Tap.Attack | src/redthread/core/tap.py:72-143 | The tree and the recorded turns of a whole attack |
| DefenseCandidate.BackToFrontIsForward | src/redthread/research/gepa_defense_candidate.py:57-60 | Splicing disjoint ranges back to front in place is the one-pass forward replacement |
| DefenseCandidate.SortReverses | src/redthread/research/gepa_defense_candidate.py:58 | Ranges in file order are spliced in exactly the opposite order |
| DefenseCandidate.OutsideShifts | src/redthread/research/gepa_defense_candidate.py:57-59 | A line outside the ranges is kept, moved by exactly what the ranges before it grew |
| DefenseCandidate.TextPlaced | src/redthread/research/gepa_defense_candidate.py:57-59 | The lines of each replacement stand where its range stood, moved the same way |
| DefenseCandidate.Covered | src/redthread/research/gepa_defense_candidate.py:57-59 | Every line of the result is a moved line or a line of a new text |
| DefenseCandidate.SplicesAreOnePass | src/redthread/research/gepa_defense_candidate.py:46-60 | For every body, shared ranges included, the splices are a one-pass overlay of the statements |
| DefenseCandidate.RenderedLines | src/redthread/research/gepa_defense_candidate.py:42-60 | The lines of every rendered file are that overlay, which is the plain one-pass replacement while no statement binds two edited symbols; without replacements the file is unchanged |
| DefenseCandidate.SharedRangeLoses | src/redthread/research/gepa_defense_candidate.py:50-59 | What a statement that binds both edited symbols becomes: lines behind its range are lost exactly when the first text spliced is shorter than the range and something follows |
| DefenseCandidate.PassesIff | src/redthread/research/defense_source_mutation_validator.py:53-54 | Exactly which candidates pass, told before rendering: no growth, only mutable lines lost at the end, every line landing on a mutable or an equal line, and some change |
| DefenseOutcome.PassIsForward | src/redthread/research/gepa_defense_candidate.py:46-60 | For every body, statements that bind both edited symbols included, the rendered lines are the one-pass replacement by one effective range per edited statement |
| DefenseOutcome.EffectiveIsEdits | src/redthread/research/gepa_defense_candidate.py:46-54 | While no statement binds two edited symbols the effective ranges and lines are those of the edits |
| DefenseOutcome.RenderedPasses | src/redthread/research/gepa_defense_candidate.py:63-72 | For every body, exactly which rendered candidates pass, told from the old file and the effective replacements |
| DefenseOutcome.SameHeightsRendered | src/redthread/research/gepa_defense_candidate.py:63-72 | A candidate that keeps the height of every assignment passes exactly when it changes a line |
| DefenseOutcome.ShorterEditRefused | src/redthread/research/defense_source_mutation_validator.py:51-54 | In a file whose last line is not mutable every candidate that shortens the file is refused, although it edits only mutable symbols |
| DefenseOutcome.ShorterEditOccurs | src/redthread/research/gepa_defense_candidate.py:42-60 | Such candidates exist: any four-line file that assigns both symbols, any one-line literal |
| DefenseOutcome.UserTemplateFirst | src/redthread/research/gepa_defense_candidate.py:58 | When one statement binds both symbols, the reverse sort splices the user template first and the system prompt over it, whatever the values |
| DefenseOutcome.SharedStatementLoses | src/redthread/research/gepa_defense_candidate.py:50-60 | The file rendered from such a statement: the system prompt stands, and the lines behind the range survive exactly when the user template's text is as tall as the range or nothing follows |
| DefenseCandidate.SameHeightsPass | src/redthread/research/gepa_defense_candidate.py:57-60 | Equal-length replacements change only lines inside their ranges |
| DefenseCandidate.ReplacementsAllowed | src/redthread/research/gepa_defense_candidate.py:46-54 | Whatever an allowlisted candidate replaces lies in the validator's mutable lines |
| DefenseCandidate.Render | src/redthread/research/gepa_defense_candidate.py:42-60 | A candidate with a foreign field is refused with exactly its foreign fields; otherwise the splicing loop yields the specified text |
| DefenseCandidate.ReplacementsTell | src/redthread/research/gepa_defense_candidate.py:47-54 | The replacements are one for every target of every statement that the candidate edits: the symbol, an equals sign and the literal of its new value |
| DefenseValidator.SurfaceIff | src/redthread/research/defense_source_mutation_validator.py:53-54 | The surface check passes exactly when the files differ, the new one is no longer, and they agree line by line outside the allowed lines |
| DefenseValidator.ChangedLineNumbers | src/redthread/research/defense_source_mutation_validator.py:103-111 | The changed lines, ascending, are exactly those that differ or exist on one side only |
| DefenseValidator.SurfaceCheck | src/redthread/research/defense_source_mutation_validator.py:53-54 | The check passes exactly when something changed and every changed line is allowed |
| DefenseValidator.ExtractRanges | src/redthread/research/defense_source_mutation_validator.py:81-100 | The allowed lines are exactly those of assignments to mutable symbols; a missing symbol is an error |
| PublicArtifacts.RedactedIsSafe | src/redthread/reporting/public_artifacts.py:28-58 | Every redacted payload passes the safety assertion |
| PublicArtifacts.UnchangedIffSafe | src/redthread/reporting/public_artifacts.py:28-58 | Redaction leaves a payload unchanged exactly when it already passes the assertion |
| PublicArtifacts.RedactTwice | src/redthread/reporting/public_artifacts.py:28-43 | Redacting twice is redacting once |
| PublicArtifacts.FieldFate | src/redthread/reporting/public_artifacts.py:32-39 | What becomes of a field: empty, blank and already marked values under an unsafe key stay, a raw object is emptied, any other value gives way to the marker naming the key, and other fields are redacted part by part |
| PublicArtifacts.ClearPathsKept | src/redthread/reporting/public_artifacts.py:28-43 | Whatever a path without leaking fields reaches, the copy has its redaction at the same path |
| PublicArtifacts.NothingInvented | src/redthread/reporting/public_artifacts.py:34-43 | Every string of the copy was at the same path before, or is the marker of an unsafe key |
| PublicArtifacts.SafeIffNothingRaw | src/redthread/reporting/public_artifacts.py:46-58 | The assertion accepts a payload exactly when no path reaches a raw value under an unsafe key |
| PublicArtifacts.RedactPayload | src/redthread/reporting/public_artifacts.py:28-43 | The loop that fills a dictionary gives the recursive copy |
| PublicArtifacts.AssertSafe | src/redthread/reporting/public_artifacts.py:46-58 | The assertion accepts exactly the safe payloads, and its message names a path that does hold a raw value |
| PublicArtifacts.DecimalReads | src/redthread/reporting/public_artifacts.py:56-58 | An index in the path of an error can be read back and has no leading zero |
| CanaryMerge.MergeStaged | src/redthread/orchestration/supervisor_nodes.py:42-61 | Merging what earlier stages merged with new reports is merging all reports at once |
| CanaryMerge.MergeGroups | src/redthread/orchestration/runtime_summary.py:30-52 | Reports may be merged in any grouping, containment flags included |
| CanaryMerge.MergeAgain | src/redthread/orchestration/runtime_summary.py:30-52 | A merged report merges to itself |
| CanaryMerge.MergeOneIff | src/redthread/orchestration/runtime_summary.py:45-52 | A single report is left as it is exactly when its crossed list has no repeats and its derived fields tell that list |
| CanaryMerge.CombineFlags | src/redthread/orchestration/runtime_summary.py:41-44 | A merged group counts as an uncontained breach exactly when one of its reports does |
| CanaryMerge.MergeTells | src/redthread/orchestration/runtime_summary.py:30-52 | A merged report lists each boundary of its parts once, names the first as injection point, was reached if any part was, and is contained if some part was and no part was reached uncontained |
| CanaryMerge.MergeGrows | src/redthread/orchestration/runtime_summary.py:35-40 | More reports only add boundaries at the end and keep the first blocked point |
| CanaryMerge.BlockedFirst | src/redthread/orchestration/runtime_summary.py:40 | The blocked point is that of the first report that has one |
| CanaryMerge.MergeCanaryReports | src/redthread/orchestration/runtime_summary.py:30-52 | The loops compute the specified merge, and nothing for an empty list |
| Supervisor.StagedIsBatch | src/redthread/orchestration/supervisor_nodes.py:64-174 | The live report built through collect, judge and defense is the merge, in order, of every report that an attack, a verdict or a defense record carries, and the event total is its stage count |
| Supervisor.DegradedIff | src/redthread/orchestration/runtime_summary.py:88-121 | A run is reported degraded exactly when a stage recorded an error or an attack worker returned neither error nor result; the summary counts all errors and shows the first three |
| Supervisor.FailuresAccounted | src/redthread/orchestration/supervisor_nodes.py:64-174 | The failures of the three stages equal the recorded errors plus the silent attack failures; defense inputs never outnumber judged ones |
| Supervisor.CollectResults | src/redthread/orchestration/supervisor_nodes.py:64-75 | Collecting records the non-empty errors, counts failures and merges the workers' reports |
| Supervisor.JudgeAllResults | src/redthread/orchestration/supervisor_nodes.py:78-110 | The judge worker is called with the result of every attack that has one, once each and in order, and its verdicts, errors and reports are recorded on top of the state |
| Supervisor.DefenseSynthesis | src/redthread/orchestration/supervisor_nodes.py:128-174 | The defense worker is called with every verdict that is a jailbreak, once each and in order, and with no other; the total counts them |
| Supervisor.RunGraph | src/redthread/orchestration/supervisor_graph.py:54-64 | The nodes in graph order end in the state of a campaign; judge and defense workers are called with exactly the results and the confirmed jailbreaks, so there is no defense without one |
| Supervisor.CampaignTells | src/redthread/orchestration/supervisor_nodes.py:64-174 | A campaign told from the answers of its workers: its verdicts and records in order, one defense per verdict that is a jailbreak, and the errors of the three stages in order with the failures they count |
| PersonaPlanning.PlanCovers | src/redthread/personas/batch_planning.py:10-38 | For a non-empty profile, any weights and a batch of at least one, every persona gets a non-empty profile of the same lineage, and together they have exactly the enabled layers |
| PersonaPlanning.UnweightedPlanSplits | src/redthread/personas/batch_planning.py:31-38 | Without weights a batch no larger than the profile splits it: no layer is given twice |
| PersonaPlanning.PlanDeals | src/redthread/personas/batch_planning.py:31-38 | Persona j gets exactly the layers whose position in the sequence is j modulo the batch size, and a persona beyond the last position one layer from the front |
| PersonaPlanning.WeightedCounts | src/redthread/personas/batch_planning.py:41-51 | Weighting repeats each layer exactly max(1, round(weight)) times and adds no other |
| PersonaOrder.WeightedInOrder | src/redthread/personas/batch_planning.py:48 | Layers come in descending weight, a missing weight counting as 1, and equal weights in the order of the names |
| PersonaOrder.TextBelowIff | src/redthread/personas/batch_planning.py:48 | Names are ordered by the first character in which they differ, a name before its extensions |
| PersonaPlanning.Round | src/redthread/personas/batch_planning.py:49 | Rounding goes to the nearest integer, ties to the even one |
| PersonaPlanning.FillBuckets | src/redthread/personas/batch_planning.py:31-36 | The in-place round-robin buckets hold every count-th layer, and an empty one gets a single layer |
| PersonaPlanning.ProfilesForBatch | src/redthread/personas/batch_planning.py:10-38 | The planning loop yields the specified plan, none for a batch size of zero or less |
| PersonaPlanning.WeightedLayerSequence | src/redthread/personas/batch_planning.py:41-51 | The extension loop yields the weighted sequence |
| PersonaPlanning.EnabledLayers | src/redthread/personas/prompt_layers.py:53-59 | The enabled layers in the fixed field order |
| PersonaQuality.RepairCompletes | src/redthread/personas/quality.py:126-143 | After repair a persona covers its whole profile, and repairing again changes nothing |
| PersonaQuality.RepairMinimal | src/redthread/personas/quality.py:126-143 | Repair keeps the persona's own strategies as a prefix and changes exactly the personas that missed a layer |
| PersonaQuality.AddHintsExtends | src/redthread/personas/quality.py:136-142 | Repair appends nothing but hints of missing layers |
| PersonaQuality.RepairAppends | src/redthread/personas/quality.py:134-143 | Repair appends exactly the hints of the missing layers in their order; the check for a repeated hint never skips one |
| PersonaQuality.PlannedBatchCovers | src/redthread/personas/quality.py:103-123 | A batch planned from one profile and repaired reports exactly the profile's layers as enabled, all covered, none missing |
| PersonaQuality.RepairedBatchComplete | src/redthread/personas/quality.py:103-123 | A repaired batch misses no layer of any profile it was generated from |
| PersonaQuality.Repair | src/redthread/personas/quality.py:126-143 | The loop with its set of seen hints yields the specified repair |
| PersonaQuality.Assess | src/redthread/personas/quality.py:75-100 | Covered and missing layers split the enabled ones by whether the hint occurs in the joined strategies |
| PersonaQuality.AssessBatch | src/redthread/personas/quality.py:103-123 | The batch report is the deduplicated union of the summaries |
| PersonaQuality.CoveredTells | src/redthread/personas/quality.py:90-91 | Covered and missing layers are those of the enabled ones, in their order, whose hint occurs and does not |
| PersonaQuality.BatchTells | src/redthread/personas/quality.py:103-123 | A batch report lists a layer as enabled if some profile has it, as covered if the strategies of such a persona contain its hint, and as missing otherwise |
| PersonaQuality.Dedupe | src/redthread/personas/quality.py:150-157 | The loop keeps the first occurrence of each value |

## Left out

- Sends to models: a reply is any string at any token cost. A send that raises is modelled only in the judge's cache (a failed generation), in the memory protocol (a crash of the process) and in the research batch (the death of the process).
- Prompt texts, guidance texts, rubric contents and marker lists: what is sent to a model does not appear; the topic heuristic of the beam search, the refusal patterns and the judge's per-turn score are functions given from outside.
- Floating point: scores, weights and averages are reals; square root and logarithm are any function of the two visit counts, whose domain condition is proved.
- Ids: fresh node ids are distinct naturals; the shortened random ids of the program can collide.
- Strategy lists: how a persona's strategies are derived is not part of the model; any list of strategies is allowed.
- Text case: lower-casing changes ASCII letters only and works character by character.
- Number and date formatting: the timestamp, the residual score and the benign-pack suffix of a printed entry are line-safe texts given from outside.
- JSON encoding, file creation, fsync and directories: the stores are a sequence of records and a text, a stored record is read back as written, and a crash falls between writes, so torn lines and torn checkpoints do not occur.
- Clocks, run ids and time stamps of summaries and checkpoints.
- The result of a research objective is a function of the objective, so that two executions of the same objective can be compared.
- The dry runs of the tree search and of the final judgement, which build nothing; the dry runs of the beam search and of Crescendo are modelled.
- Verdict parsing, rubric files and the final full evaluation of a trace.
- Python's parser: the parse of the defense file is given as the line ranges of its assignments, ascending and disjoint, and how a value is written as a literal is left open. The parser counts lines at line feeds only, while splitting a text also breaks at other separators, so a file with such characters has other ranges than the model assumes.
- The prompt-content checks of the defense validator, which are single substring tests.
- Redaction of payloads other than JSON values; keys are strings and unique in each object.
- Worker internals, the agentic security review, and the live execution records merged after a run; a defense record is its validation flag and its canary report.
- Coverage ratios and notes of the persona reports.
- The research daemon, promotion, Pareto selection, scorecards, exporters, dashboards and launch gates.
