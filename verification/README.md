# A verified model of the coding-agent harness

This project models the deterministic cores of the harness in Dafny and proves what they promise
over every run: the differential oracle with its five reference data structures and its operation
generators, the edit/checkpoint/rewind machine behind the decision pipeline, the protocol between
the generated tool-calling agent and its scripted stub, the repair loops with their span surgery,
and six smaller cores (Wilson interval, complexity scan, conservation oracle, injected-clock oracle,
background-job records, plan/act/replan loop).

Code that changes state step by step is modelled by classes and loops and proved against functions
on values; the theorems are about those functions, over all traces, streams, scripts, interleavings,
planners and executors. What the harness calls but does not define (the gate, executors, hooks,
prompts, agents, test commands, built entities, clocks, liveness probes, random streams) is an
arbitrary function or an arbitrary input.

| file | component |
|---|---|
| `Sequences.dfy`, `Decimals.dfy` | shared facts: duplicate-free sequences, the last `n` elements, injective decimal names |
| `Text.dfy` | Python's text operations: lines, whitespace, substrings, tails |
| `Lru.dfy`, `PriorityQueue.dfy`, `TtlStore.dfy`, `Queues.dfy` | the five reference structures |
| `Oracle.dfy`, `Generators.dfy` | expected lines, comparison, builds that pass; seeded operation sequences and the whole oracle on them |
| `Runtime.dfy`, `Pipeline.dfy`, `Rewind.dfy` | checkpoint ring, decision pipeline, rewind |
| `AgentText.dfy`, `AgentProtocol.dfy` | sentinel line, what the client posts and how it is routed; skeleton against stub; assessment of a run |
| `Splice.dfy`, `Repair.dfy` | two ways of breaking lines, span surgery and unwrapping candidates; the repair transaction |
| `Wilson.dfy` | the score interval over exact reals |
| `Quality.dfy` | own-scope walk, complexity, nesting, worst function |
| `ImportDriver.dfy`, `Driving.dfy` | reports read back from an output that the driven process prints to as well; when they can be believed, and how they are forged |
| `Conservation.dfy`, `ConservationVerdict.dfy`, `Clock.dfy` | the two driven oracles |
| `Jobs.dfy` | job records, atomic and interleaved |
| `AgentLoop.dfy` | the plan/act/replan loop |

Where the code and its own documentation, or the obvious expectation, part ways, the model follows
the code:

- A file that is not UTF-8 is captured as if it did not exist (`harness/coding_loop.py:335-339`), so
  rewinding leaves the edited version (`Rewind.ComesBackIffReadable` gives the exact condition).
- `by_id` is documented as a unique prefix match but returns the oldest match
  (`harness/checkpoint_ring.py:87-89`); `CheckpointRings.Denotes` says so.
- `/rewind` drops its entries even when restores fail or plan mode withholds them
  (`harness/cli.py:1315-1332`); the rewind theorem is about successful restores.
- An empty allowlist restricts nothing (`harness/coding_loop.py:195`), so shrinking one to nothing
  widens; and rules of the project, put in front of the user's (`harness/permissions.py:119-134`), can
  undo what the user denies (`Pipeline.ProjectRulesNeverWidenIff` gives the exact condition).
- The client cuts the URL it posts to at its last `#`, strips blanks around it and refuses
  characters outside `!` to `~` (`harness/agent_scaffold.py:191-196,214`); the stub cuts names at `?`
  and drops trailing slashes (`harness/agent_oracle.py:240`). So `a#b` and `a ` are recorded as `a`,
  `#x` is a 404 and `a b` an exception that end the agent. A final answer is recovered only if it is
  one line that fits in the tail that is read.
- Repair candidates index `splitlines` with the parser's line numbers (`harness/coding_loop.py:610`).
  `splitlines` also breaks at form feeds and other separators, and behind one of those a candidate can
  be longer than the source and changed in the wrong place (`Splice.FormFeedsMisplaceTheSplice`;
  `Splice.SpliceWhereFound` gives the exact condition, call by call).
- The oracles read sentinel lines from an output that the driven module prints to as well, the last
  line for an id counting (`harness/import_driver.py:262-303`). A module's own printing is
  documented as never trusted; but one that prints sentinel lines can pass whatever is asked
  (`ConservationVerdict.ForgedLedgerPasses`, `Clock.ClockForgerPasses`). What a passing entity really
  did is therefore stated for outputs whose lines about it are true, or for entities that *play fair*:
  their own output is whole lines about no checked call, their exceptions have one-line names, what
  they return survives the JSON encoding, and the whole output is read. Only the last 1,000,000
  characters are read (`harness/import_driver.py:490`), so a long value can cost the reports before it
  (`Driving.OverlongReportLosesAll`).
- Recording the model's verdict can be refused, which raises even when the test has passed
  (`harness/coding_loop.py:844-851`); so does a candidate that may not be written, and then the one
  before it stays in the file.
- Output lines after the last expected one are ignored by both copies of the comparison.
- The conservation oracle promises that accepted operations completed without raising; it checks
  only the readings after them (`harness/conservation_oracle.py:221-228`). Nothing is read before the
  first operation (`harness/conservation_oracle.py:185-216`), so the declared initial quantities count
  only through the vectors computed from them.
- Names are validated by patterns ending in `$`, which admit one final line feed
  (`harness/conservation_oracle.py:78`), and exception names may start with or contain double
  underscores; no line is recognised as a report under such names (`harness/import_driver.py:84-85`),
  so no entity passes a conservation specification that uses them, and no such timeline step is met.
- Decision points inside lambdas are counted by no function's complexity
  (`harness/code_quality.py:69-78`).
- `submit_job` writes a record it read before the worker could report
  (`harness/bg_jobs.py:198-201`), so a finished job can read as running again.

## Model

| member | source | states |
|---|---|---|
| Lru.LruReference.Get | harness/adt_oracle.py:325-329 | a hit returns the value and makes the key most recent; a miss changes nothing |
| Lru.LruReference.Put | harness/adt_oracle.py:331-336 | inserts or overwrites, makes the key most recent, evicts exactly the least recent key past capacity |
| Lru.RunWellFormed | harness/adt_oracle.py:321-336 | after every trace the keys are distinct, match the stored data and are at most `capacity` many |
| Lru.StoredIsLastPut | harness/adt_oracle.py:325-336 | what is stored under a key is what was last put there, on every trace |
| Lru.LastPutIs | harness/adt_oracle.py:331-336 | the last put of a key is the one behind which there is no other on it |
| Lru.StackInclusion | harness/adt_oracle.py:321-336 | on every trace and for all capacities `c <= C`, the smaller cache is a subsequence of the larger in recency order, and its hits are hits of the larger with the same value |
| Lru.OrderIsRecency | harness/adt_oracle.py:325-336 | the recency list is the `capacity` most recently touched distinct keys |
| Lru.HitIffRecentlyTouched | harness/adt_oracle.py:325-336 | `get` hits iff the key was touched and fewer than `capacity` distinct other keys were put or hit since, and then returns the last value put |
| PriorityQueue.SiftUp | harness/adt_oracle.py:370 | restores the heap order along the path to the root, keeping the entries |
| PriorityQueue.SiftDown | harness/adt_oracle.py:376 | restores the heap order from the root, keeping the entries |
| PriorityQueue.HeapPush | harness/adt_oracle.py:370 | adds one entry to a heap |
| PriorityQueue.HeapPop | harness/adt_oracle.py:376 | removes the root of a heap and nothing else |
| PriorityQueue.PriorityQueueReference.Push | harness/adt_oracle.py:369-371 | on the simple queue: one more entry, last in push order, with signed priority |
| PriorityQueue.PriorityQueueReference.Pop | harness/adt_oracle.py:373-377 | removes and returns the first entry of least signed priority, `None` when empty |
| PriorityQueue.PriorityQueueReference.Peek | harness/adt_oracle.py:379-383 | returns what `pop` would, removing nothing |
| PriorityQueue.NothingLostOrInvented | harness/adt_oracle.py:369-377 | at any moment every push has left or is live, exactly once |
| PriorityQueue.FrontIsLeast | harness/adt_oracle.py:373-383 | the next to leave has the least signed priority of all that are live, and was pushed first of those that share it |
| PriorityQueue.TiesLeaveInPushOrder | harness/adt_oracle.py:354-356 | over the whole run, equal priorities leave in push order |
| PriorityQueue.DrainIsStablySorted | harness/adt_oracle.py:373-377 | draining is sorted by priority, ties by push |
| PriorityQueue.DrainingSortsStably | harness/adt_oracle.py:373-377 | popping until empty yields the live pushes as a stable sort, and leaves nothing |
| PriorityQueue.HeapSimulates | harness/adt_oracle.py:363-383 | a binary heap with a counter shows what the simple queue shows, and stays a heap of its entries |
| PriorityQueue.MaxIsMinNegated | harness/adt_oracle.py:363-370 | the max direction is the min direction on negated priorities, step for step |
| TtlStore.TtlReference.Set | harness/adt_oracle.py:488-489 | stores the value with its expiry tick, negative lifetimes counting as 0 |
| TtlStore.TtlReference.Get | harness/adt_oracle.py:491-495 | returns a value only before its expiry tick |
| TtlStore.TtlReference.Tick | harness/adt_oracle.py:497-498 | advances the clock by one and stores nothing |
| TtlStore.GetIffYoungerThanTtl | harness/adt_oracle.py:484-498 | on every trace `get` is the value of the last `set` iff fewer than `max(0, ttl)` ticks happened since |
| TtlStore.LastSetIs | harness/adt_oracle.py:484-498 | that set is the one behind which no other is on the key, and the ticks are those behind it |
| TtlStore.ExpiredStaysExpired | harness/adt_oracle.py:484-498 | an expired key stays a miss until it is set again |
| TtlStore.PurgingIsUnobservable | harness/adt_oracle.py:491-495 | dropping expired entries at any time, by any policy, changes no answer |
| RingBuffer.RingReference.Push | harness/adt_oracle.py:519-524 | appends, and at capacity overwrites the oldest item only |
| RingBuffer.RingReference.Pop | harness/adt_oracle.py:526-529 | removes and returns the oldest item, `None` when empty |
| RingBuffer.RingReference.Peek | harness/adt_oracle.py:531-534 | returns what `pop` would, removing nothing |
| RingBuffer.HoldsNewestPushes | harness/adt_oracle.py:519-534 | after every run the ring holds exactly the newest pushes, as many as counting says |
| RingBuffer.FrontIsOldest | harness/adt_oracle.py:526-534 | on every run the next item to leave is the oldest of the newest pushes |
| RingBuffer.CircularSimulates | harness/adt_oracle.py:508-534 | a circular array simulates the bounded deque, operation by operation |
| Fifo.FifoReference.Dequeue | harness/adt_oracle.py:558-561 | answers and removes the item at the front, `None` when empty; the rest keeps its order |
| Fifo.FifoReference.Enqueue | harness/adt_oracle.py:555-556 | the new item is the last to leave |
| Fifo.FifoReference.Peek | harness/adt_oracle.py:563-566 | answers the item at the front, `None` when empty, removing nothing |
| Fifo.ArrivalOrderKept | harness/adt_oracle.py:552-566 | what has left followed by what remains is what was enqueued, in arrival order |
| Fifo.FrontIsOldest | harness/adt_oracle.py:558-566 | on every run the next item to leave is the arrival at the index of how many have left, and none iff all have left |
| Oracle.SimulationPrintsTheSame | harness/adt_oracle.py:1018-1109 | a build that simulates the reference prints its lines on every operation sequence |
| Oracle.PassesEverySequenceIffSimulates | harness/adt_oracle.py:1018-1109 | a build prints the reference's lines on every sequence iff some relation simulates it |
| Oracle.Verify | harness/adt_oracle.py:1185-1213 | ok iff every expected line is matched in place; otherwise the least differing index with both lines |
| Oracle.EmittedScript | harness/adt_oracle.py:1449-1457 | the emitted script fails iff some line differs, and at the least such index |
| Oracle.DivergenceIsUnique | harness/adt_oracle.py:1193-1208 | there is only one such index, so both copies of the comparison name the same line |
| Oracle.AcceptedIffPrefix | harness/adt_oracle.py:1193-1196 | acceptance is having the expected lines as a prefix |
| Oracle.BuildLru | harness/adt_oracle.py:1095-1109 | line by line: "ok" for a put; for a get the value of the key's last put iff fewer than `capacity` distinct other keys were touched since, and else "none" |
| Oracle.BuildPq | harness/adt_oracle.py:1018-1036 | line by line: "ok" for a push; else the first pushed of the live items of least priority (greatest for max), or "none" |
| Oracle.BuildTtl | harness/adt_oracle.py:1037-1056 | line by line: "ok" for a set and a tick; for a get the value last set iff fewer ticks than its lifetime came since, and else "none" |
| Oracle.BuildRing | harness/adt_oracle.py:1057-1075 | line by line: "ok" for a push; else the oldest of the newest pushes, as many as counting says are held, or "none" |
| Oracle.BuildFifo | harness/adt_oracle.py:1076-1094 | line `i` is "ok" for an enqueue; else the element of what was enqueued before at the index of how many have left, or "none" if all have left |
| Oracle.LruLine | harness/adt_oracle.py:1095-1109 | what the LRU reference replies to operation `i`, by the touches and puts before it |
| Oracle.PqLine | harness/adt_oracle.py:1018-1036 | what the stable queue replies, by the entries that are live |
| Oracle.TtlLine | harness/adt_oracle.py:1037-1056 | what the store replies, by the last set of the key and the ticks since |
| Oracle.RingLine | harness/adt_oracle.py:1057-1075 | what the ring replies, by the pushes before and the number held |
| Oracle.FifoLine | harness/adt_oracle.py:1076-1094 | what the queue replies, by the arrivals before and the number that left |
| Oracle.CircularRingPasses | harness/adt_oracle.py:1057-1075 | a ring on a circular array prints the expected lines of every operation sequence |
| Oracle.ArrayHeapPasses | harness/adt_oracle.py:1018-1036 | so does a queue on a binary heap, in either direction |
| Oracle.PurgingStorePasses | harness/adt_oracle.py:1037-1056 | so does a TTL store that drops expired entries, whatever makes it drop them |
| Generators.PqSeededOps | harness/adt_oracle.py:608-664 | the generated sequence is exactly prelude, random operations chosen by rolls and size, full drain, pop and peek on empty |
| Generators.PqGenerator.Push | harness/adt_oracle.py:623-628 | names the item by the number of pushes so far; size and sequence grow together |
| Generators.PqGenerator.Pop | harness/adt_oracle.py:630-634 | the size never goes below zero |
| Generators.PqDrain | harness/adt_oracle.py:659-660 | terminates after exactly as many pops as there are items |
| Generators.PqGeneratedProbes | harness/adt_oracle.py:639-664 | for every stream and `n`: at least `n` operations, the tie probe first, no pop on empty before the end, the queue empty at the last two operations, items numbered in push order |
| Generators.PqMixedAt | harness/adt_oracle.py:647-656 | each random operation: a push of the next item with a priority from the pool when the roll is below 0.5 or nothing is live, else a pop below 0.8, else a peek |
| Generators.PqGeneratedIs | harness/adt_oracle.py:608-664 | prelude and random operations up to the length, one pop for each live item, a pop and a peek |
| Generators.PqSizeIsOccupancy | harness/adt_oracle.py:623-637 | the generator's size is the reference's occupancy after every prefix, in both directions |
| Generators.PqTieProbed | harness/adt_oracle.py:639-645 | the tie probe expects the first tied item on peek and on pop |
| Generators.PqEmptyProbed | harness/adt_oracle.py:658-662 | the last two lines expected are two misses |
| Generators.RingSeededOps | harness/adt_oracle.py:739-789 | the generated sequence is the fixed prelude followed by random operations chosen by rolls and size, `n` in all unless the prelude has more |
| Generators.RingGenerator.Push | harness/adt_oracle.py:744-749 | the size is capped at the capacity; items are named in push order |
| Generators.RingPreludeOps | harness/adt_oracle.py:760-776 | fill, peek, overwrite, peek, drain, pop and peek on empty, for every capacity |
| Generators.RingMixedKeeps | harness/adt_oracle.py:778-787 | for every stream the whole prelude comes first and the random part never pops an empty ring |
| Generators.RingMixedAt | harness/adt_oracle.py:778-787 | each random operation: a push of the next item when the roll is below 0.55 or nothing is held, else a pop below 0.8, else a peek |
| Generators.RingPreludeIs | harness/adt_oracle.py:760-776 | operation by operation: `c` pushes, a peek, one push more, a peek, `c` pops, a pop and a peek |
| Generators.RingPreludeExpects | harness/adt_oracle.py:760-776 | for every capacity `c`: the first item at index `c`, the second at `c + 2`, items 1 to `c` in the drain, then two misses |
| Generators.DropNewestFirstDivergesAt | harness/adt_oracle.py:766-769 | a ring that drops the newest item first diverges exactly at `c + 2` |
| Generators.PqOracle | harness/adt_oracle.py:1185-1213 | for every stream, length and direction, the verdict on the generated operations against a build that simulates the queue is agreement |
| Generators.RingOracle | harness/adt_oracle.py:1185-1213 | the same for the ring, for every capacity, while the one that drops the newest item diverges at `c + 2` |
| CheckpointRings.CheckpointRing.Append | harness/checkpoint_ring.py:65-72 | the new entry is the newest, and only the oldest is evicted when full |
| CheckpointRings.CheckpointRing.LastEntries | harness/checkpoint_ring.py:103-108 | the `n` most recent entries, newest first |
| CheckpointRings.CheckpointRing.DropLastN | harness/checkpoint_ring.py:110-114 | removes exactly the `n` most recent entries, or all |
| CheckpointRings.CheckpointRing.ById | harness/checkpoint_ring.py:80-90 | the oldest exact match if any, else the oldest prefix match, `None` iff no entry matches |
| CheckpointRings.CheckpointRing.PositionFromNewest | harness/checkpoint_ring.py:92-101 | the least number of steps back to an entry with the matched id |
| Pipeline.Runtime.SetMode | harness/coding_loop.py:201-205 | keeps the known modes, and makes any other the default mode |
| Pipeline.Runtime.Check | harness/coding_loop.py:235-319 | clears a decision iff it satisfies all conditions, refuses with the reason of the first that fails, and consults allowlist and rules only past the gate |
| Pipeline.Runtime.Apply | harness/coding_loop.py:220-376 | executes and records a decision iff it may execute and the executor does not refuse; otherwise files, ring and counters are unchanged |
| Pipeline.Runtime.Commit | harness/coding_loop.py:327-359 | files, before-image, tool count, wiring count and log after an applied decision |
| Pipeline.OnlyGatedAndCounted | harness/coding_loop.py:264-269 | over every run with mode changes, only gate-accepted decisions were executed, and tool, wiring and decision totals agree |
| Pipeline.PlanModeTouchesNothing | harness/coding_loop.py:235-241 | decisions withheld by plan mode leave files, ring and records as they were |
| Pipeline.AppendedRulesOnlyRestrict | harness/permissions.py:160-180 | appending rules changes only what was allowed by default |
| Pipeline.NarrowingNeverWidens | harness/coding_loop.py:248-319 | more hooks, rules that answer everything at least as strictly, a new or shrunk non-empty allowlist or a stricter prompt never let an extra decision through |
| Pipeline.RulesNeverWidenIff | harness/permissions.py:160-180 | whatever the gate, the rest of the configuration and the mode: changed rules let no extra decision through iff they answer everything at least as strictly (allow, ask, deny) |
| Pipeline.AddedRulesNeverWidenIff | harness/permissions.py:160-180 | rules added anywhere let no extra decision through iff, wherever one of them is the first to match, the rules behind were no stricter |
| Pipeline.AppendedRulesNeverWiden | harness/permissions.py:160-180 | so rules appended never do |
| Pipeline.DenialsNeverWiden | harness/permissions.py:160-180 | nor do rules that deny, wherever they are added |
| Pipeline.ProjectRulesNeverWidenIff | harness/permissions.py:119-134 | the project's rules in front of the user's let nothing through that the user's alone would not, iff they answer what they match at least as strictly |
| Pipeline.ShrunkAllowlistNarrowsIffNonEmpty | harness/coding_loop.py:194-197 | shrinking an allowlist is a restriction iff something is left in it |
| Pipeline.PrependedRuleCanWiden | harness/permissions.py:175-177 | a project's `allow` in front undoes a denial of the user's and lets decisions through |
| Pipeline.AcceptEditsWidensOnlyAskedEdits | harness/coding_loop.py:300-302 | acceptEdits differs from default only on edits that resolve to ask |
| Pipeline.DecideIsFirstMatch | harness/permissions.py:175-180 | the rules answer what the first that matches says, and allow what none matches |
| Pipeline.AcceptEditsClears | harness/coding_loop.py:300-302 | in acceptEdits an edit is cleared iff no hook blocks it, the gate accepts, the allowlist is empty or lists it, and the first matching rule does not deny |
| Pipeline.AskedIsPrompted | harness/coding_loop.py:303-318 | in default mode, and for other kinds in acceptEdits, an asked decision is cleared under the same conditions iff there is a prompt and it approves |
| Pipeline.PlanWithholdsOnly | harness/coding_loop.py:235-241 | plan mode withholds edits and commands, and treats everything else as default mode does |
| Pipeline.ExecutedRecords | harness/coding_loop.py:327-359 | an executed decision is counted under its kind and source, logged, and, if it edits a path with a ring, its file's earlier text is the newest entry |
| Rewind.InvariantHolds | harness/checkpoint_ring.py:65-114 | after every interleaving of edits and rewinds, undoing back to any ring entry gives the first versions since its moment, despite eviction |
| Rewind.RewindReachesThePast | harness/cli.py:1312-1332 | rewinding `n` steps restores every path readable just before the n-th newest ring edit, leaves a path created since at its first text, and changes nothing else |
| Rewind.FirstVersionOf | harness/cli.py:1315-1328 | what that state holds for each path |
| Rewind.ComesBackIffReadable | harness/coding_loop.py:335-339 | an existing file comes back exactly iff it was readable then or never edited since |
| Rewind.UndecodableFileIsLost | harness/coding_loop.py:335-339 | a file of undecodable bytes, one edit and one rewind end in the edited text |
| Rewind.RewindsCompose | harness/cli.py:1312-1332 | rewinding `a` and then `b` steps is rewinding `a + b` |
| Rewind.Session.CmdRewind | harness/cli.py:1291-1333 | done iff `n` is in range; then all restores went through the pipeline without a ring and, whatever came of them, exactly the `n` newest entries are dropped; out of range and in plan mode files, tools, wirings and log stay |
| Rewind.RewoundRing | harness/cli.py:1310-1332 | the same of every world, environment, configuration and mode: which entries are left, and when nothing else is changed |
| Rewind.Session.RestoreAll | harness/cli.py:1315-1331 | restores newest first, skipping created files, whatever each restore does |
| Rewind.SuccessfulRestoresUndo | harness/cli.py:1315-1329 | when every restore succeeds on the files it meets, the command is the rewind of the machine |
| Rewind.PlanModeRestoresNothing | harness/coding_loop.py:235-241 | in plan mode the command restores nothing |
| Rewind.ExecutedEditIsMove | harness/coding_loop.py:327-359 | a decision the pipeline executes with a ring is an edit move of the machine |
| Rewind.Session.Act | harness/cli.py:1291-1333 | one decision or rewind of a session on the live files, ring and records |
| Rewind.SessionIsRun | harness/coding_loop.py:220-376 | a session of decisions and rewinds in any modes, every restore of which succeeds on the files it meets, is a run of the machine |
| Rewind.SessionRewindReachesThePast | harness/cli.py:1312-1332 | after such a session a rewind of `n` steps leads back to the files before the very deed that recorded the entry `n` steps back, but for paths not readable then |
| AgentText.ParseFinal | harness/agent_oracle.py:447-454 | the payload of the last sentinel line in the last 200,000 characters |
| AgentText.LastPayloadIsLast | harness/agent_oracle.py:447-454 | a later sentinel line overrides an earlier one |
| AgentText.FinalSurvivesIffOneLine | harness/agent_scaffold.py:220-221 | a final answer is read back iff it is one line that fits in that tail |
| AgentText.ToolRoute | harness/agent_scaffold.py:191-214 | whatever its name, a tool call is recorded under `RecordedName`, answered 404, or not sent |
| AgentText.CutFragmentAtLast | harness/agent_scaffold.py:191-196 | a URL is cut at its last `#`, if it has one |
| AgentText.TrimmedRouteIs | harness/agent_oracle.py:240-257 | two paths are the chat route, and whatever is behind the tool root is a tool of that name |
| AgentText.RecordedAsScriptedIffPlain | harness/agent_oracle.py:240 | the recorded name is the scripted one iff it is non-empty, sendable, and has no `#`, no `?` and no trailing slash |
| AgentText.NamesNotRecordedAsScripted | harness/agent_scaffold.py:191-214 | `a#b` and `a ` are recorded as `a`; `#x`, `a b` and `é` are not recorded |
| AgentProtocol.ValidateScript | harness/agent_oracle.py:101-119 | accepts exactly the non-empty scripts of valid turns, and normalises each |
| AgentProtocol.StubState.NextChatResponse | harness/agent_oracle.py:168-178 | counts the step; refuses exactly past the cap; else serves the turn of its step, the last one again past the end |
| AgentProtocol.StubState.RecordToolCall | harness/agent_oracle.py:180-192 | logs the call and, with `c` earlier calls of that name, answers element `min(c, last)` of a list, a single value always, nothing for an unknown tool or an empty list |
| AgentProtocol.PostTool | harness/agent_scaffold.py:191-214 | records the name the client's URL handling and the stub's routing leave, or records nothing and the client raises |
| AgentProtocol.RunSkeleton | harness/agent_scaffold.py:199-222 | terminates; step count, recorded calls, exit and observations in closed form, also when it is cut off at any request |
| AgentProtocol.SeenAt | harness/agent_oracle.py:187-192 | call `i` of a run, the one behind `c` others of its name, sees element `min(c, last)` of that tool's list, or its single value, or nothing |
| AgentProtocol.CountCallsIs | harness/agent_oracle.py:187-189 | how many calls of a name there were is the number of indices of calls with it |
| AgentProtocol.DriveAgent | harness/agent_oracle.py:444-490 | the verdict of a drive in closed form, for an agent that ends by itself, is cut off by a request that fails, or is killed by the timeout |
| AgentProtocol.CutRunIsBeginning | harness/agent_oracle.py:429-461 | whenever it is cut off, its calls are the beginning of those of the whole run; it counts as terminated only if it was not cut off |
| AgentProtocol.CheckAgent | harness/agent_oracle.py:536-595 | accepts iff calls match in length, order, name and at least the expected arguments, termination matches and the final answer contains the expected part |
| AgentProtocol.FinalWithinCap | harness/agent_oracle.py:168-178 | with the first final turn at `f` under the cap: exactly the first `f` calls in order, `f + 1` steps, and that final text |
| AgentProtocol.NoFinalWithinCap | harness/agent_oracle.py:463-469 | otherwise exactly `max_steps` clamped calls, step `max_steps + 1`, non-terminated |
| AgentProtocol.TerminatedIff | harness/agent_oracle.py:463-490 | exactly when a drive terminates, for every script |
| AgentProtocol.ScriptedRunAcceptedIff | harness/agent_oracle.py:556-595 | `check_agent` accepts the run of a script that ends under the cap iff every name before its final turn is plain and its read-back text contains the expected part |
| AgentProtocol.CutNameNotAccepted | harness/agent_scaffold.py:191-214 | one call whose name is cut on the way terminates and is not accepted |
| Splice.SpliceIsSlicing | harness/coding_loop.py:644-659 | line-wise splicing is slicing the source at the span's two offsets, so all text outside the span is kept |
| Splice.SpliceOwnText | harness/coding_loop.py:644-659 | putting a span's own text back is the identity, on one line or many |
| Splice.CollectAssignments | harness/coding_loop.py:616-622 | the last `v = fn(...)` of each variable |
| Splice.LastAssignment | harness/coding_loop.py:616-622 | a variable comes from the function of its last assignment in the walk |
| Splice.DoubleApplicationCandidates | harness/coding_loop.py:605-641 | for every source and the parser's positions: all rewrites in walk order, each at its first occurrence, without the source |
| Splice.RewriteComesFrom | harness/coding_loop.py:624-637 | each rewrite comes from a redundant call, its text replaced |
| Splice.RewriteIsMade | harness/coding_loop.py:624-637 | each redundant call gives its rewrite |
| Splice.FirstOccurrencesDistinct | harness/coding_loop.py:638-640 | candidates are duplicate-free, never the source, and none is lost |
| Splice.FirstOccurrencesOrdered | harness/coding_loop.py:638-640 | of two different rewrites the one made first comes first |
| Splice.LinesAgreeIffPlain | harness/coding_loop.py:610 | `splitlines` and the parser break a text alike iff it has no other separator before its last character |
| Splice.AtLeastParserLines | harness/coding_loop.py:610-657 | `splitlines` finds at least the parser's lines, so no line number is out of range |
| Splice.FoundIffPlain | harness/coding_loop.py:610 | a position of the parser is found in the lines of `splitlines` at or before its place, and there iff no such separator comes before it, but perhaps right before it |
| Splice.SpliceWhereFound | harness/coding_loop.py:655-659 | for every source: a splice is a slicing that starts and ends no later than the span, and exactly where the span does iff no such separator comes before that |
| Splice.UnwrapShortens | harness/coding_loop.py:624-637 | a splice within the lines it is given is slicing, and strictly shortens |
| Splice.CandidateChangesOnlyTheCall | harness/coding_loop.py:624-659 | if no such separator comes before the end of the outer call, but perhaps right before it, the candidate changes exactly the call's span, as the parser gave it, and is shorter |
| Splice.FormFeedComment | harness/coding_loop.py:610 | a comment with two form feeds makes two more lines than the parser sees |
| Splice.FormFeedsMisplaceTheSplice | harness/coding_loop.py:624-659 | behind it, the candidate inserts its replacement behind another line and is longer than the source |
| Splice.CandidatesShorter | harness/coding_loop.py:614-641 | if none comes before the end of any call to be unwrapped, every candidate is strictly shorter; and has none at all if the source has none |
| Splice.UnwrappingTerminates | harness/coding_loop.py:591-641 | so chains of such candidates are bounded by the length of their first source |
| Splice.PlainUnwrappingTerminates | harness/coding_loop.py:591-641 | for a source without such separators that holds whatever is unwrapped |
| Repair.CandidateLoop | harness/coding_loop.py:555-570 | keeps the first passing candidate; puts the original back after trying all; a refused write raises and leaves the candidate before it |
| Repair.RunRounds | harness/coding_loop.py:745-856 | the bounded loop as a function of its surroundings; it stops at the first passing test, or where a record is refused |
| Repair.FixLoop | harness/coding_loop.py:695-891 | rounds, then unwrapping, then mutations, then the partial result; success means the test passes on the file as left; without keep_partial, a failed repair of a `.py` file that was neither empty nor a stub leaves the original, and no candidate of either search passes |
| Repair.SolvedByTheTest | harness/coding_loop.py:836-851 | solved means the test passed on the content left, at the first such round |
| Repair.AttemptsFailed | harness/coding_loop.py:836-856 | every attempt that is counted as failed did fail the test |
| Repair.SuccessMeansTestPasses | harness/coding_loop.py:841-885 | success implies the test exits 0 on the file exactly as left |
| Repair.FailureRestoresOriginal | harness/coding_loop.py:865-891 | a returned failure without keep_partial of a `.py` target whose content was non-empty and without "NotImplementedError" leaves that content, and no candidate of either search passes |
| Repair.NoSearchElsewhere | harness/coding_loop.py:865-891 | the complement: any other target, or an absent, empty or stub one, keeps what the rounds left, and no search runs |
| Repair.SearchesDecide | harness/coding_loop.py:865-885 | else unwrappings and then mutations of the original are tried in order, and the repair ends at the first that passes or may not be written |
| Repair.EndedByRounds | harness/coding_loop.py:836-891 | a repair solved or raised in its rounds is left as they left it; with keep_partial the remembered attempt is left, if any, and no search runs |
| Repair.RefusedCandidateLeavesItsPredecessor | harness/coding_loop.py:559-570 | a search that is refused a candidate raises with the one before it in the file |
| Repair.BestIsEarliestLeast | harness/coding_loop.py:853-856 | the remembered attempt is the earliest with the fewest counted failures |
| Repair.FailureKeepsLeastFailing | harness/coding_loop.py:887-891 | failure with keep_partial leaves that attempt |
| Repair.VerdictIsIgnored | harness/coding_loop.py:841-849 | what the model's verdict says decides nothing: verdicts that are refused alike lead through the same rounds |
| Repair.TestedRoundEnds | harness/coding_loop.py:841-851 | a tested round ends the loop as solved iff its verdict is recorded and the test passed, and as raised iff its verdict is refused |
| Wilson.IntervalIsScoreSet | harness/commit_replay.py:1368-1376 | `t` lies in the interval iff `n (k/n - t)^2 <= z^2 t (1 - t)`, and 0 <= lo <= k/n <= hi <= 1 |
| Wilson.ClampsNeverBind | harness/commit_replay.py:1376 | the ends lie in [0, 1] before clamping |
| Wilson.WithinIffCompatible | harness/commit_replay.py:1372-1375 | the same equivalence for every `t` without clamps |
| Wilson.IntervalMirrors | harness/commit_replay.py:1368-1376 | counting failures instead of successes mirrors the interval |
| Quality.WalkVisitsEachNodeOnce | harness/code_quality.py:218 | the breadth-first walk visits every node of the tree exactly once, for every measure |
| Quality.WalkLoop | harness/code_quality.py:218 | terminates and yields the nodes in breadth-first order |
| Quality.WalkIs | harness/code_quality.py:218 | a node comes before all that waits, and its children behind |
| Quality.OwnScopesPartition | harness/code_quality.py:69-78 | own scopes of a node and of the functions and lambdas below it cover every other node exactly once |
| Quality.FunctionComplexity | harness/code_quality.py:81-100 | one plus the decision points of the own scope |
| Quality.NoDecisionCountedTwice | harness/code_quality.py:81-100 | all complexities minus one, the module's own decision points and those of lambdas sum to the decision points of the tree |
| Quality.NestingDepth | harness/code_quality.py:115-130 | the greatest number of compound blocks entered on any path within the own scope |
| Quality.ScanFile | harness/code_quality.py:218-231 | one report per function in walk order, and the running worst extended by them |
| Quality.AssessFunctions | harness/code_quality.py:202-231 | the reported worst function is the first of greatest complexity over all files that parse |
| Quality.ReportsMore | harness/code_quality.py:202-231 | function by function and file by file: one plus the decision points of its own scope |
| Quality.WorstIs | harness/code_quality.py:218-231 | the greatest complexity is reported with the first function that has it |
| Conservation.ValidateSpec | harness/conservation_oracle.py:91-179 | accepts exactly the well-formed specifications |
| Conservation.ValidateDeltas | harness/conservation_oracle.py:134-156 | accepts exactly known, numeric changes that sum to zero |
| Conservation.ValidateOp | harness/conservation_oracle.py:122-162 | accepts exactly the well-formed operations, which declare changes iff they are to be accepted |
| Conservation.InvalidIff | harness/conservation_oracle.py:91-179 | what is wrong with a specification that is refused, clause by clause |
| Conservation.ExpectedTotalConstant | harness/conservation_oracle.py:203-228 | every expected vector has the total of the initial one |
| Conservation.ExpectedIs | harness/conservation_oracle.py:203-228 | the vectors expected: the initial one, and after each operation the one before with the declared changes of an accepted one |
| Conservation.DifferentTotalsInconsistent | harness/conservation_oracle.py:236-243 | a specification whose final total differs is never consistent |
| Conservation.PlanOp | harness/conservation_oracle.py:204-234 | the calls and checks of one operation, expecting the vector after it |
| Conservation.BuildDrivePlan | harness/conservation_oracle.py:182-253 | a plan iff the script is consistent, and then exactly these calls and checks |
| Conservation.PlanIs | harness/conservation_oracle.py:182-253 | the plan: construction; each operation by name with its arguments and then a read of every quantity; in the end every quantity once more |
| Conservation.ReadsAre | harness/conservation_oracle.py:213-228 | each read is a call without arguments that is to return the amount of its quantity |
| ConservationVerdict.CallIdsDistinct | harness/conservation_oracle.py:209-251 | all call ids of a plan are pairwise distinct |
| Driving.Drive | harness/import_driver.py:182-199 | every call in order, and everything printed meanwhile by driver and process |
| ImportDriver.ParseSentinels | harness/import_driver.py:262-303 | the last line for each id in the last 1,000,000 characters |
| ImportDriver.HeardResult | harness/import_driver.py:84-196 | a printed result is read back under its id, whatever its text, if decoding undoes encoding for this value |
| ImportDriver.TableCodecFaithful | harness/import_driver.py:192-196 | for any finitely many values there is an encoding that brings them through |
| Driving.RunHasFaithfulCodec | harness/import_driver.py:192-196 | so for every run there is one that brings through whatever is returned in it |
| ImportDriver.HeldIsReportable | harness/import_driver.py:84-85 | whatever is printed, a check holds only under an id of word characters, and of an exception whose name has no ambiguous underscores |
| Driving.OutputAgrees | harness/import_driver.py:262-303 | what is read of an output whose other lines are whole lines about no checked call agrees with the driver's own lines |
| Driving.OwnSaysTruth | harness/import_driver.py:182-199 | the driver's own lines say exactly what happened, when exceptions have plain names and what is returned survives the encoding |
| Driving.OwnNeverLies | harness/import_driver.py:84-85 | whatever one-line names the exceptions have, they say nothing false about returned values |
| Driving.TruthfulPassIsTrue | harness/import_driver.py:306-343 | whatever is printed, a passed check whose id is only reported truthfully really happened |
| Driving.AlignedVerdict | harness/import_driver.py:306-343 | with one check for every call, a process that plays fair passes iff every call ends as asked, under names that can be reported |
| Driving.ObedientPasses | harness/import_driver.py:306-343 | whatever is asked for and survives the encoding, a process that silently does it plays fair and passes, if its output is read whole |
| Driving.OverlongReportLosesAll | harness/import_driver.py:490 | a last value longer than what is read fails every check, unless the cut falls before an underscore or a blank |
| Driving.ForgeryPasses | harness/import_driver.py:262-303 | whatever is asked for and survives the encoding, there is a process that returns no value at all and passes, by what it prints as it exits, if that is read whole |
| ConservationVerdict.DriveImport | harness/import_driver.py:360-528 | ok iff root, module name, calls and checks are acceptable, the driver was launched and ended in time, and every check holds of what is read back |
| ConservationVerdict.ValidateCalls | harness/import_driver.py:403-419 | accepts exactly calls with distinct ids of word characters and dotted targets |
| ConservationVerdict.TargetIs | harness/import_driver.py:58 | a target is a word, a dot and what goes on, or an identifier |
| ConservationVerdict.PlanIsDrivable | harness/conservation_oracle.py:182-253 | the calls of a plan are never refused |
| ImportDriver.EvalChecks | harness/import_driver.py:306-343 | ok iff every check's call was reported in the expected way |
| ImportDriver.ImportErrorFails | harness/import_driver.py:262-343 | a module that is reported not to be importable passes nothing, whatever else is read |
| ImportDriver.IdentifierIs | harness/conservation_oracle.py:78 | a letter or underscore, then letters, digits and underscores, and perhaps one line feed |
| ConservationVerdict.GradeConservation | harness/conservation_oracle.py:256-306 | accepted iff root, module name, entity name and specification are valid, the script is consistent, the driver ended in time and all checks hold |
| ConservationVerdict.TruthfulPassConserves | harness/conservation_oracle.py:213-235 | whatever an entity does and prints: if it passes, and the lines read for the readings after an operation are true, these were numbers with the initial total |
| ConservationVerdict.PassingEntityConserves | harness/conservation_oracle.py:213-235 | an entity that passes and plays fair really returned a number for every quantity after every operation, with constant total |
| ConservationVerdict.RefusalsLeaveNoTrace | harness/conservation_oracle.py:229-234 | such an entity really raised the declared exception on refused operations and reads the same before and after |
| ConservationVerdict.HonestEntityPasses | harness/conservation_oracle.py:203-251 | an entity that plays fair, leads from reading as the vector before each operation to reading as the one after it, whatever else its state holds, and refuses what it is to refuse passes every check, for names that can be reported |
| ConservationVerdict.PassesIffEveryReadingMeets | harness/conservation_oracle.py:203-251 | an entity that plays fair and raises only plain exceptions passes iff names can be reported, every reading after an operation is as the declared changes make it, every operation to be refused raised the declared exception, and the final reads are as declared |
| ConservationVerdict.PassesIffHonest | harness/conservation_oracle.py:203-251 | if its reads change nothing, such an entity passes a consistent, reportable specification iff it is honest in the states it goes through |
| ConservationVerdict.SomeEntityPlaysFair | harness/import_driver.py:306-343 | for every reportable specification some entity plays fair and passes, with some encoding, unless its report is too long |
| ConservationVerdict.UnreportableNeverPasses | harness/import_driver.py:84-85 | with any other accepted quantity or exception name no entity ever passes, whatever it prints |
| ConservationVerdict.AcceptedOutcomeIgnored | harness/conservation_oracle.py:221-228 | two runs that play fair and differ only in what accepted operations themselves returned or cleanly raised get the same verdict |
| ConservationVerdict.MisreadExceptionFails | harness/import_driver.py:85 | an accepted operation that raises `w__x` fails an entity with a quantity `_w`: this is read as its reading raising `x` (own output in whole lines about no checked call, output read whole) |
| ConservationVerdict.ForgedLedgerPasses | harness/import_driver.py:262-303 | for every reportable specification whose values survive the encoding there is an entity whose every reading returns null and which passes, if its output is read whole |
| Clock.ValidateSpec | harness/clock_oracle.py:198-286 | accepts exactly the well-formed specifications |
| Clock.InvalidIff | harness/clock_oracle.py:198-286 | what is wrong with a specification that is refused, clause by clause |
| Clock.CallsAre | harness/clock_oracle.py:289-315 | construction with all that is declared; each step by its own name with its own arguments, at its own reading; each final read at the reading of the last step |
| Clock.TimelineAscends | harness/clock_oracle.py:264-271 | an accepted timeline is non-decreasing between declared backward jumps |
| Clock.ClockDriver.RunTimeline | harness/clock_oracle.py:164-175 | every call sees exactly its step's `at`; state and output in order, until the entity ends the process |
| Clock.ClockDriver.Drive | harness/clock_oracle.py:154-184 | construction at clock 0, the timeline, then the final reads at the last step's clock; nothing more once there is no entity or no process |
| Clock.BuildChecks | harness/clock_oracle.py:317-331 | one check for construction, each step and each final read |
| Clock.GradeClock | harness/clock_oracle.py:442-477 | accepted iff root, module name, entity name and specification are valid, the driver ended in time and all checks hold |
| Clock.AcceptsIffEveryStepMeets | harness/clock_oracle.py:409-438 | an entity that plays fair is accepted iff it is built, every step meets its expectation at its own clock reading and every final read is as declared |
| Clock.SomeEntityIsAccepted | harness/clock_oracle.py:409-438 | for every reportable specification some entity plays fair and is accepted, with some encoding, unless its report is too long |
| Clock.ClockIgnoredVerdictInvariant | harness/clock_oracle.py:39-46 | whatever it prints, for an entity that ignores the injected clock output and verdict are the same for all valid choices of `at` |
| Clock.ClockIgnorantNeverPasses | harness/clock_oracle.py:39-46 | such an entity, if it plays fair, never passes two identical read-only calls with different expectations |
| Clock.ClockForgerPasses | harness/clock_oracle.py:409-438 | whatever values are expected at whatever readings and survive the encoding, a stateless entity that never reads the clock and returns null passes, by what it prints, if that is read whole |
| Jobs.JobStore.SubmitJob | harness/bg_jobs.py:187-210 | one new record, with the spawned pid or failed and ended |
| Jobs.JobStore.MarkFinished | harness/bg_jobs.py:213-222 | done iff the exit code is 0, else failed; unknown jobs are left alone |
| Jobs.JobStore.GetJob | harness/bg_jobs.py:225-240 | a running record without a live process is failed, any other is returned unchanged |
| Jobs.JobStore.StopJob | harness/bg_jobs.py:261-276 | kills exactly the recorded process of a running, live job; refuses every other job without a kill |
| Jobs.RecordsStayGenuine | harness/bg_jobs.py:187-276 | in every interleaving of reads and writes: ended iff not running, done iff exit code 0, id, request, log and start as submitted, and only spawned pids are killed |
| Jobs.BirthNeverChanges | harness/bg_jobs.py:187-276 | id, request, log and start agree at any two points of a run |
| Jobs.KillsOnlyWhatWasReadRunning | harness/bg_jobs.py:266-273 | a kill is decided only on a record just read as running, with a nonzero pid that the probe found alive |
| Jobs.RevivedIffStaleSubmit | harness/bg_jobs.py:198-201 | a terminal record becomes running again iff its own submitter writes its earlier copy |
| Jobs.TerminalAfterSubmission | harness/bg_jobs.py:187-276 | once its submitter is through, a terminal record is terminal for good |
| Jobs.DoneCanTurnRunning | harness/bg_jobs.py:198-201 | a concrete interleaving in which a done job reads as running again |
| Jobs.TerminalChangedOnlyByFinish | harness/bg_jobs.py:213-276 | with atomic operations only the worker's report changes a terminal record |
| Jobs.StatusChangesBounded | harness/bg_jobs.py:213-276 | with atomic operations the status changes at most once, and once more per report: at most twice with one worker |
| Jobs.UninterruptedIsAtomic | harness/bg_jobs.py:213-276 | the steps of an operation, uninterrupted, are that operation |
| AgentLoop.FirstPending | harness/agent_loop.py:150 | the next pending step is always entry number `steps_run` |
| AgentLoop.RunStep | harness/agent_loop.py:153-156 | one execution, recorded in that step only |
| AgentLoop.ReportProgress | harness/agent_loop.py:159-160 | reports exactly the executed steps with their observations, in order |
| AgentLoop.Replan | harness/agent_loop.py:161-162 | appends the new plan as pending steps and touches no other |
| AgentLoop.Turn | harness/agent_loop.py:153-163 | runs the next step and appends a new plan iff it failed with budget left |
| AgentLoop.RunAgent | harness/agent_loop.py:138-165 | for every planner and executor: the executed steps are the first `steps_run` entries in order, and `done` iff the non-empty first plan fits the budget and every step of it succeeds |
| AgentLoop.RunUsesBudgetOrList | harness/agent_loop.py:149-152 | at most `max_steps` steps run, and budget or list is used up; the list only grows |
| AgentLoop.DoneIffFirstPlanSucceeds | harness/agent_loop.py:164-165 | a run that ever fails a step is never done, whatever is replanned |
| AgentLoop.ReplanIsRun | harness/agent_loop.py:158-163 | a run that fails a step with budget left goes on with the new plan behind the old one |

## Left out

- Processes, Docker, git, HTTP sockets, threads, temporary files, timeouts and process kills: their outcomes are inputs.
- Model calls and prompts: agents, planners, executors and editors are arbitrary functions.
- JSON encoding, floating-point rounding, newline translation, UTF-8 byte columns and identifiers that the parser normalises (a ligature in a name, so that its text is longer than its span): values are abstract, numbers exact, text plain characters; so `True` passing for 1 in a check and a result that cannot be parsed are not modelled.
- Regular-expression recognition of specifications, conventions and command words: keyword heuristics without a deep property.
- The LRU, TTL and FIFO generators: their structure is that of the two generators modelled, without a new property.
- The real-seconds TTL drive: wall-clock I/O.
- Permission globs, hook commands, the hard gate and the executor: arbitrary functions; the pipeline's events and PostToolUse hooks observe only.
- The argument parsing of `/rewind` beyond a step count (an all-digit checkpoint id is read as a count, and several leading dashes are no number).
- `boundary_repair_candidates`: its regular-expression mutations are an arbitrary candidate list; `fix_loop_escalating` calls `fix_loop` with different settings.
- Structural smells, function length and the advisory `ok` of the quality report: one-node tests.
- A custom planner that hands out steps already marked done, or the same step object twice.
- A stub client other than the generated skeleton, and requests in parallel.
- AgentProtocol.DriveAgent: when the agent is cut off is an input; an agent that raises is one that stops with a non-zero exit.
- Oracle.PassesEverySequenceIffSimulates: this is about all operation sequences; the source drives one seeded sequence per class, for which `Generators.PqOracle` and `Generators.RingOracle` prove that builds that simulate the reference are agreed with, and not that others are found out.
- Driving.Drive: this is the whole drive; a timeout, which fails every check, is an input of the verdicts (`Driving.Host`). A process that dies early is one whose later calls have no outcome, and a module that cannot be imported one whose first output says so; spies and the sleep counter, which neither oracle injects, are left out.
- Which values an encoding brings through is a condition on the run (`Driving.FaithfulRun`): a tuple, which is read back as a list, is not among them.
- The agent loop's executor is total: an edit that is refused raises out of the loop (`harness/agent_loop.py:103`) and leaves no result.
- Random job ids that collide; the order of `list_jobs`, which reconciles each record as `get_job` does.
- PriorityQueue.SiftUp: entries are swapped on the way instead of moved through a hole, with the same final list; `heapq` itself is not part of this model.
- Repair.FixLoop: edits to other paths than the target are not modelled, nor a test command that the gate refuses, which raises in the first round; content is text as read, so restoring a file with carriage returns writes line feeds.
- Rewind.RewindReachesThePast: files are changed by edits and rewinds only, not by shell commands or by the user in between; `Rewind.SessionIsRun` has this as a condition on the executor.
- Jobs.RecordsStayGenuine: a failed write leaves the old record; a truncated file appears only as a read that yields nothing.
