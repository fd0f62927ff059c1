# A verified model of an evaluation backend

This project models the parts of an LLM observability and evaluation backend whose
correctness spans several functions or a whole state machine, and proves what they
promise. `dafny verify dfyconfig.toml` checks all of it.

- `scorer/`: the language of code scorers. `ScorerSyntax` is the syntax tree,
  `ScorerValidation` the validator, `ScorerSemantics` the budgeted big-step semantics,
  `ScorerInterpreter` the interpreter as an object with loops, proved to compute that
  semantics. `ScorerReference` is an independent meaning without budgets, in which a
  comprehension first lists the scopes of all its combinations; `ScorerLimits`,
  `ScorerSoundness`, `ScorerTheorems`, `ScorerUnpacking` and `ScorerEscapes` relate the
  three. `ScorerLiterals`, `ScorerLoops`, `ScorerOperations`, `ScorerDisplays`,
  `ScorerScores` and `ScorerHarmless` state what each construct does on the trees and
  values an author can write, without the functions that the semantics is made of.
  Python's operators, indexing, library calls and `str` are the functions of a `Runtime`,
  and every theorem holds for all of them.
- `traces/`: the trace list's query, its WHERE clause, its two shapes and the condition
  that chooses between them, as relational operators on lists (`Relations`);
  `TraceListing` says in fields which rows the list holds.
- `runs/`: the tables of dataset runs, and the protocol of launcher, generators,
  workers and lazily finalizing readers as a step relation over whole behaviours;
  `RunCounters` ties the counters of a run's row to its items.
- `datasets/`: the trajectory walk over a forest of spans, the paged import of an
  agent's runs, and the comparison of two runs with what its report says
  (`ComparisonReport`).
- `realtime/`: the drop-oldest broker, the table of pending replies and the registry of
  running traces, whose lists `RunningList` states in terms of the operations alone.
  `alerts/`: the digest buffer and the debounced failure-rate alerts; `AlertRules` states
  which evaluation raises which alert.
- `cores/`: the Luhn checksum (Annex B of ISO/IEC 7812-1), judge agreement and its report
  (`JudgeReport`), placeholders.
- `prompts/`: prompt versions, environments, the resolution of pinned tasks, and the chain
  of steps that a task executes against one example; `TaskChoice` says what a task runs
  with and `TaskTurns` what is sent.

Objects that the code updates in place are classes whose methods are proved against
specification functions; histories are ghost fields. Time, provider outcomes and what
arrives during an await are parameters. An `await` that lets others run is a step of its
own in the run protocol, the reply table and the digest flush; everything between two
awaits is atomic.

Where the code and what is said about it part:

- A comment in `shared/code_scorer.py` (line 463) says that validation rejects a bare
  attribute; it accepts one whose name is allowed (`BareAttributeExactly`). A docstring
  says that anything the author could fix is a ScorerError; `{[]}` is not
  (`SetOfListEscapes`), and `EscapesExactly` states for which constructs the promise is
  kept. Such an exception is `Escaped` in the model.
- `{**d}` in a dictionary display slides keys past values, so the comparison with the
  reference is for trees without it; the displays without `**` are exactly those that
  always mean what they mean in Python (`UnpackingSlidesExactly`).
- A KeyError of an operator, as from `"%(x)s" % {}`, is read as an unsupported operator
  (`PercentMisses`); `ValidationIsSound` states for which operators no accepted tree ends
  there.
- The comment in `fetch_traces` calls the two joins identical; they are if and only if no
  wanted trace has a second cost row or scan (`PagingFirstExactly`). For an agent of kind
  llm the fast query names an alias that its page does not have (`FetchTraces`).
- The comment on the safety net of the trajectory walk says that a cycle still gets
  listed; with a cycle of two or more spans the walk never returns (`OnlyCyclesFail`).
- That a judge which never varies cannot beat the base rate holds only at the threshold
  one half (`ConstantJudgeExactly`).
- A report that is read between the creation of a run and the enrolment of its items
  completes it empty (`EarlyReportCompletes`); readers are safe exactly if they do not
  start from the row as it was created (`SafeExactly`).
- The docstring of `generate` says that tokens and cost accumulate across the whole chain;
  a chain that fails after some steps reports none (`ReportedTokensExactly`).
- Prompt settings (`config`) are neither snapshot nor restored, so a task pinned to an
  old version takes its tools from the head (`SettingsReachPins`, `PinSurvivesExactly`);
  updates are not transactions (`EditKeepsHistoryExactly`).

## Model

| member | source | states |
|---|---|---|
| `ScorerValidation.CompileScorer` | shared/code_scorer.py:229-251 | A source is accepted exactly if it is not blank, not over 8000 characters, parses, has at most 2000 nodes and every node of its tree is allowed; a refusal names a node that deserves it |
| `ScorerValidation.Walk` | shared/code_scorer.py:245-251 | The breadth-first walk passes a tree exactly if its size is within the bound and no node below the root, however deep, is refused |
| `ScorerValidation.QueueStep` | shared/code_scorer.py:246-250 | Replacing the front of the queue by its children at the end loses no node, counts each node once and keeps what remains to be checked equivalent |
| `ScorerHarmless.CompilesExactly` | shared/code_scorer.py:229-291 | A text compiles exactly if it says something in at most 8000 characters and parses to at most 2000 nodes of which each is harmless, spelled out node by node: allowlisted methods, builtin functions or methods as callees, no unpacking, no name with double underscores at both ends, no asynchronous loop, the listed operators |
| `ScorerSemantics.Eval` | shared/code_scorer.py:307-317 | Every evaluation spends steps, never passes the step budget by more than one, never runs a node deeper than the depth limit, and pays for each comprehension iteration with at least one step |
| `ScorerInterpreter.Interpreter.Evaluate` | shared/code_scorer.py:304-305 | A fresh interpreter computes the value and the counters that the semantics gives the tree; what that is on values is stated by `ScorerLiterals`, `ScorerLoops`, `ScorerOperations` and `ScorerDisplays` |
| `ScorerInterpreter.Interpreter.Visit` | shared/code_scorer.py:307-317 | One step is counted, then the step and the depth limit are checked, in this order, before the node is evaluated one level deeper |
| `ScorerInterpreter.Interpreter.DoNode` | shared/code_scorer.py:314-317 | A node is handled by the rule of its type, and one without a rule is refused |
| `ScorerInterpreter.Interpreter.VisitEach` | shared/code_scorer.py:324-331 | Operands are evaluated from left to right and the first failure ends it, counters included |
| `ScorerInterpreter.Interpreter.DoSequence` | shared/code_scorer.py:324-343 | Displays and f-strings check their size after their parts are evaluated, and a set also that its members are hashable |
| `ScorerInterpreter.Interpreter.DoDict` | shared/code_scorer.py:333-337 | All keys are evaluated before all values, and zipped; a later equal key replaces the value in place |
| `ScorerInterpreter.Interpreter.DoFormattedValue` | shared/code_scorer.py:345-362 | A format specifier is refused before the value is evaluated |
| `ScorerInterpreter.Interpreter.DoBinOp` | shared/code_scorer.py:380-396 | Both operands, the exponent check, the operator with its three handlers, the size check |
| `ScorerInterpreter.Interpreter.DoUnaryOp` | shared/code_scorer.py:398-407 | The three supported operators; any other, and any exception that escapes |
| `ScorerInterpreter.Interpreter.DoBoolOp` | shared/code_scorer.py:409-422 | The loop stops at the first operand that decides and returns that operand |
| `ScorerInterpreter.Interpreter.DoCompare` | shared/code_scorer.py:424-437 | A chain stops at the first comparison that is false and evaluates each operand once |
| `ScorerInterpreter.Interpreter.DoIfExp` | shared/code_scorer.py:439-441 | Only the branch that is chosen is evaluated |
| `ScorerInterpreter.Interpreter.DoSubscript` | shared/code_scorer.py:445-453 | Value, then key, then the three handlers; the result is not measured |
| `ScorerInterpreter.Interpreter.DoSlice` | shared/code_scorer.py:455-460 | The bounds that are present, in order |
| `ScorerInterpreter.Interpreter.DoAttribute` | shared/code_scorer.py:462-474 | The allowlist is checked again before the target is evaluated; a missing method is an error |
| `ScorerInterpreter.Interpreter.DoCall` | shared/code_scorer.py:476-485 | Callee, arguments, keyword arguments, the call; a helper's own ScorerError, limit or not, passes through, any other exception is reported |
| `ScorerInterpreter.Interpreter.DoComprehension` | shared/code_scorer.py:530-555 | The four kinds of comprehension over the same generators; the size check comes after the last element, in a dictionary after each |
| `ScorerInterpreter.Interpreter.DoGenerators` | shared/code_scorer.py:493-510 | One generator: its iterable is evaluated in the scope bound so far, its items are counted against the limit, and each is bound, filtered and handed to the next |
| `ScorerInterpreter.Interpreter.DoItem` | shared/code_scorer.py:502-510 | One item: counted against the limit, bound to a copy of the scope, then filtered |
| `ScorerInterpreter.Interpreter.DoFilter` | shared/code_scorer.py:508-510 | An item that passes its conditions goes on to the next generator with its own scope |
| `ScorerInterpreter.Interpreter.DoConditions` | shared/code_scorer.py:509-509 | Conditions are evaluated in order up to the first that is false |
| `ScorerInterpreter.Interpreter.DoBody` | shared/code_scorer.py:530-555 | The body is evaluated when a combination is yielded; in a dictionary the value comes before the key |
| `ScorerLimits.EvalSame` | shared/code_scorer.py:307-317 | An evaluation that no limit stops is, under every larger limit, the same to the last counter, at every depth and from every state |
| `ScorerReference.EvalAgree` | shared/code_scorer.py:491-547 | Interleaving generators, conditions and body gives a value exactly if listing all scopes first and evaluating the body in each does, and then the same value |
| `ScorerReference.DictAgree` | shared/code_scorer.py:333-337 | Evaluating all keys and then all values builds the dictionary that Python builds entry by entry, where no entry is an unpacking |
| `ScorerLiterals.ConditionalExactly` | shared/code_scorer.py:439-441 | A conditional evaluates `orelse` exactly if its test is None, False, 0, 0.0 or an empty string, list, tuple, set, dictionary or iterator with a length, and `body` otherwise, whatever the three are; the other branch is not evaluated |
| `ScorerLiterals.ConditionalOfLiterals` | shared/code_scorer.py:439-441 | In particular `x if v else y` on literals, for every value and all limits that allow three steps |
| `ScorerLiterals.NotExactly` | shared/code_scorer.py:398-401 | `not x` is True of exactly these values |
| `ScorerLiterals.FirstDecides` | shared/code_scorer.py:409-422 | `and` returns its first falsy operand, `or` its first other one, and nothing after it is evaluated, whatever it is |
| `ScorerLiterals.NoneDecides` | shared/code_scorer.py:409-422 | If no operand decides, the last is returned |
| `ScorerLiterals.LoopVariablesShadow` | shared/code_scorer.py:366-376 | A name means the variable of the innermost loop that binds it, then that of an outer one, then the scope, then a builtin, and is otherwise undefined |
| `ScorerLiterals.InnerComprehensionShadows` | shared/code_scorer.py:366-376 | The same through an inner comprehension, whose loops come before those around it |
| `ScorerLoops.LoopVisitsInOrder` | shared/code_scorer.py:501-510 | A loop visits the letters of a string, the keys of a dictionary and the elements of a collection, in order; a condition keeps exactly the items that are not falsy |
| `ScorerLoops.LoopOverOtherEscapes` | shared/code_scorer.py:501-503 | A loop over any other value ends in a TypeError that no handler catches |
| `ScorerLoops.TargetsBindByPosition` | shared/code_scorer.py:514-528 | Every variable of a nested tuple target is given the part of the item at its own path |
| `ScorerLoops.BindExactly` | shared/code_scorer.py:514-528 | Binding succeeds if and only if the item has, at every tuple of the target, as many parts as the target, and every leaf of the target is a name |
| `ScorerLoops.BindLeavesOthers` | shared/code_scorer.py:514-528 | A name that the target does not mention keeps its value |
| `ScorerLoops.MisshapenItemIsRefused` | shared/code_scorer.py:518-529 | Any other item is refused: not iterable, a wrong number of parts, or a target that is no name or tuple |
| `ScorerOperations.StandardListExactly` | shared/code_scorer.py:68-80 | Under the deployed limits a display of literals is built exactly up to 10000 elements; up to 49999 the length is refused, from 50000 on the work |
| `ScorerOperations.StandardNestingExactly` | shared/code_scorer.py:311-312 | A tree of unary operators may nest exactly forty deep |
| `ScorerOperations.BinaryExactly` | shared/code_scorer.py:380-396 | What `l op r` gives for all operands and every Python: a too large exponent, booleans included, is refused before the operator runs, each of three exceptions has its error and any other escapes, a result is measured |
| `ScorerOperations.StandardExponentExactly` | shared/code_scorer.py:384-387 | Under the deployed limits an integer exponent is refused if and only if it is below -64 or above 64 |
| `ScorerOperations.SignExactly` | shared/code_scorer.py:398-406 | The value of a sign is not measured, and what it raises is not caught |
| `ScorerOperations.IndexExactly` | shared/code_scorer.py:445-453 | A missing key or index and a value that cannot be indexed are errors of their own; any other exception escapes |
| `ScorerOperations.ChainStops` | shared/code_scorer.py:424-437 | Each operand of a chain is compared with its left neighbour; the first comparison that does not hold decides, and nothing after it is evaluated, whatever it is |
| `ScorerOperations.ChainHolds` | shared/code_scorer.py:424-437 | A chain whose comparisons all hold is True |
| `ScorerOperations.CallExactly` | shared/code_scorer.py:476-485 | A function gets its arguments in order and every keyword its own value; an error of a helper passes through, another exception is a failed call |
| `ScorerOperations.AttributeExactly` | shared/code_scorer.py:462-474 | A name outside the allowlist is refused before its operand is evaluated |
| `ScorerOperations.FormattedExactly` | shared/code_scorer.py:345-362 | A format specifier is refused before the operand is evaluated; conversion 114 is repr, 97 ascii, any other str |
| `ScorerOperations.JoinedStrExactly` | shared/code_scorer.py:339-341 | An f-string is the texts of its parts one after the other, unless it is longer than the limit |
| `ScorerOperations.SliceExactly` | shared/code_scorer.py:455-460 | A bound that is left out is None, and the others keep their places |
| `ScorerDisplays.CanonicalExactly` | shared/code_scorer.py:330-337 | Keys are one key exactly if they are equal to Python: numbers by value whatever their type, tuples item by item, anything else itself |
| `ScorerDisplays.HashableExactly` | shared/code_scorer.py:330-337 | A value may be a key exactly if no list, set or dictionary stands at any path into its tuples |
| `ScorerDisplays.SetExactly` | shared/code_scorer.py:330-331 | A set display holds the first of equal elements, each once, and ends in a TypeError exactly if one is no key |
| `ScorerDisplays.SetCompExactly` | shared/code_scorer.py:538-541 | The same of a set comprehension, over the items that its condition keeps |
| `ScorerDisplays.DictExactly` | shared/code_scorer.py:333-337 | A dictionary display has one entry for equal keys: the first one's spelling and place, the last one's value |
| `ScorerDisplays.DictCompExactly` | shared/code_scorer.py:547-555 | The value of an entry is evaluated before its key, and either failure ends it |
| `ScorerDisplays.FirstFailureWins` | shared/code_scorer.py:324-485 | Parts are evaluated left to right, a dictionary's keys before its values and a call's callee, arguments, keywords in this order: the first part that fails, whatever it is, is the failure of the whole |
| `ScorerSoundness.EvalFine` | shared/code_scorer.py:314-316 | Whatever is known of every node of a tree holds on through its evaluation: accepted, it fails in none of four branches that validation is to rule out; with quiet operators in none of the other two; without constructs that can escape, in nothing but a ScorerError; and without limits at no limit |
| `ScorerTheorems.LimitsOnlyRaise` | shared/code_scorer.py:68-80 | For every tree without `**` displays: a run that no limit stopped returns a value exactly if the reference without limits does, and the same one (for `**` see `UnpackingSlidesExactly`) |
| `ScorerTheorems.UnlimitedIsReference` | shared/code_scorer.py:304-317 | With all limits lifted the interpreter returns exactly the values of the reference |
| `ScorerUnpacking.UnpackingSlidesExactly` | shared/code_scorer.py:333-337 | For every shape of a dictionary display: interpreter and reference return the same values for all entries if and only if no place is `**` |
| `ScorerTheorems.RaisingLimits` | shared/code_scorer.py:73-80 | Raising any limit changes neither outcome nor counters of a run that met none |
| `ScorerTheorems.WorkIsBounded` | shared/code_scorer.py:307-317 | At most 50001 steps (50000 if a value is returned), no node below depth 40, and fewer comprehension iterations than steps over all nested generators |
| `ScorerTheorems.ValidationIsSound` | shared/code_scorer.py:89-119 | Whatever set of operators an author keeps to: all accepted trees with these are safe from the six branches that validation is to rule out, if and only if none of these operators raises a KeyError |
| `ScorerTheorems.OtherBranchesAreDead` | shared/code_scorer.py:314-316 | On any Python an accepted tree never reaches an unsupported node, an unsupported unary operator, a method outside the allowlist or an asynchronous comprehension |
| `ScorerTheorems.AcceptedTreeIsSafe` | shared/code_scorer.py:380-437 | An accepted tree whose own operators raise no KeyError reaches none of the six |
| `ScorerTheorems.WithoutPercentIsSafe` | shared/code_scorer.py:380-437 | Where only `%` raises KeyError, as in CPython, every accepted tree without `%` is safe |
| `ScorerTheorems.PercentMisses` | shared/code_scorer.py:383-390 | The accepted tree `"%(x)s" % {}` ends in the operator-table miss on a Python whose `%` raises KeyError there |
| `ScorerEscapes.EscapesExactly` | shared/code_scorer.py:596-601 | Whatever set of constructs an author keeps to: no accepted tree of these ends in an exception that is no ScorerError if and only if none of them can raise one: sets and dictionaries with a key that is not surely hashable, loops over what is not surely iterable, signs, operators, comparisons and indexing that raise what their handlers do not catch |
| `ScorerEscapes.TameTreeStays` | shared/code_scorer.py:380-555 | A tree without such a construct never ends in one, accepted or not |
| `ScorerEscapes.SetOfListEscapes` | shared/code_scorer.py:330-331 | `{[]}` is accepted and ends in one |
| `ScorerTheorems.AttributeRefusedExactly` | shared/code_scorer.py:257-264 | An attribute node is refused if and only if its name is outside the allowlist |
| `ScorerTheorems.BareAttributeExactly` | shared/code_scorer.py:257-274 | A bare attribute is accepted as a scorer under the same conditions as the call of it, but for one node more |
| `ScorerTheorems.RunScorer` | shared/code_scorer.py:596-647 | A text is compiled first, and one that does not compile is an error; a score is in 0..1; booleans count before numbers; any other value and any field over 200000 characters is an error |
| `ScorerScores.LiteralScores` | shared/code_scorer.py:596-614 | A literal scores its number, a boolean as 1 or 0, if and only if that is from 0 to 1 |
| `ScorerScores.ScoreIsOfValue` | shared/code_scorer.py:632-647 | Any tree scores as the literal of its value does, or fails as its evaluation does |
| `ScorerScores.NamesOfTheExample` | shared/code_scorer.py:633-638 | `output`, `expected`, `input` and `metadata` are those of the example; any other name is a builtin or undefined |
| `ScorerScores.NoWayToAttributes` | shared/code_scorer.py:106-121 | An attribute that is accepted is neither `format` nor `format_map`, and not private |
| `TraceQuery.BuildWhere` | db_queues/clickhouse/queries.py:82-213 | The conjunction built condition by condition means what the parameters ask for, for every trace and cost row; it mentions the cost table exactly for an agent of kind llm |
| `TracePaging.FetchTraces` | db_queues/clickhouse/queries.py:253-352 | The chosen query returns the requested page of join, filter and sort, on the fast path for tables with one cost row and one scan per wanted trace; in fields, the rows are in the order that the sort names, latest first for one that is not listed and missing values last, and each meets the asked scan level and least score; the database refuses it exactly for an llm agent on the fast path |
| `TraceListing.ListingExactly` | db_queues/clickhouse/queries.py:225-352 | Without a page: exactly the joined rows of the traces asked for whose scan level and least score are as asked, each as often as it is joined, in the order of the sort |
| `TraceListing.JoinedExactly` | db_queues/clickhouse/queries.py:253-314 | A joined row is one of a trace, a cost row of it or none if it has none, its group of evaluations or none, a scan of it or none; and every such row is joined once for each |
| `TraceListing.AskedExactly` | db_queues/clickhouse/queries.py:82-213 | In fields, for each parameter: which traces are asked for, by prefix, tags, root, agent, status of the subtree, integration and security flags |
| `TraceListing.PageExactly` | db_queues/clickhouse/queries.py:344-352 | A page is the part of that list from the offset on, as long as the limit |
| `TracePaging.GroupByFinds` | db_queues/clickhouse/queries.py:260-270 | Grouping gives a trace one group with its rows in order, or none |
| `TracePaging.NarrowingIsInvisible` | db_queues/clickhouse/queries.py:276-314 | Narrowing each right side to the page before the join, and the evaluations before the group-by, changes no row of a trace on the page |
| `TracePaging.PagingFirstIsEquivalent` | db_queues/clickhouse/queries.py:316-349 | Page first, then join equals join, sort, limit: the same rows in the same order for all tables, limits and offsets |
| `TracePaging.SecondRowOverruns` | db_queues/clickhouse/queries.py:328-341 | A wanted trace with a second cost row or scan makes some page of one return more than one row |
| `TracePaging.PagingFirstExactly` | db_queues/clickhouse/queries.py:322-349 | The two queries agree on every page if and only if no wanted trace has a second cost row or scan |
| `Relations.SortMap` | db_queues/clickhouse/queries.py:332-340 | Sorting images that compare as their originals do is sorting the originals, stability included |
| `RunStore.Store.CreateRun` | db_queues/postgresql/dataset_runs.py:32-51 | A run starts running with zero counters, and only for a dataset of the organization |
| `RunStore.Store.InsertItems` | db_queues/postgresql/dataset_runs.py:62-69 | The items of the run grow by blank rows for the traces, in order; no other run changes |
| `RunStore.Store.SetTotal` | db_queues/postgresql/dataset_runs.py:70-73 | Only the total of the run changes |
| `RunStore.Store.RecordGeneration` | db_queues/postgresql/dataset_runs.py:94-114 | In one transaction the rows of the trace take the outcome and the run counts one more generation, failed if there is an error |
| `RunStore.Store.FinalizeRun` | db_queues/postgresql/dataset_runs.py:124-131 | The run, if it is the organization's, is complete and keeps its summary, whatever it was |
| `RunStore.Store.SummarizeAndFinalize` | routes/datasets/__init__.py:1211-1266 | The summary counts the items that were read, the distinct traces of the scored `fluiq.eval` rows of a metrics run or of all rows of any other, and the items with an error; the run is finalized exactly if it is running, has generated all of them if it is a task, and completed and failed cover them; only then does its row change |
| `RunStore.SelectExactly` | db_queues/postgresql/dataset_runs.py:143-158 | The items of a run are exactly its stored rows of the organization, in order |
| `RunCounters.CountersMatchItems` | routes/datasets/__init__.py:1114-1174 | At every moment of every run: the row's total is that of its plan once it is set, its counters are the numbers of recorded items and of those with an error, a recorded item holds either an answer that is not blank or an error with a message, any other neither |
| `RunProtocol.FinishIsSettled` | routes/datasets/__init__.py:1224-1256 | The counting argument: a reader that saw items and decides to finalize has seen every item recorded and every healthy one covered |
| `RunProtocol.StepInvariant` | routes/datasets/__init__.py:1114-1174 | Each of the eleven kinds of step keeps the invariant |
| `RunProtocol.CompleteMeansSettled` | routes/datasets/__init__.py:1253-1256 | In every interleaving whose readers start from a run row with its total set, as the runs list checks, a complete run has all items recorded and for every item without an error a result row, in a metrics run one of `fluiq.eval` with a score |
| `RunProtocol.SafeExactly` | routes/datasets/__init__.py:1191-1256 | For every guard on the rows that readers start from: all interleavings of a new run are safe if and only if the guard refuses the row as it was created |
| `RunProtocol.CompleteUnlessEarly` | routes/datasets/__init__.py:1253-1256 | The same in every interleaving at all, unless a reader finalized the run on a read that came before the enrolment |
| `RunProtocol.EarlyReaderSawNoTotal` | routes/datasets/__init__.py:1191-1194 | Such a reader read the run row before its total was set, which the runs list rules out |
| `RunProtocol.EarlyReportCompletes` | routes/datasets/__init__.py:1271-1275 | Why the guard is needed: from every new run, a report that is opened at once completes it with nothing generated |
| `RunProtocol.CompleteForGood` | db_queues/postgresql/dataset_runs.py:117-131 | A complete run never goes back to running |
| `RunProtocol.NextReadFinalizes` | routes/datasets/__init__.py:1250-1264 | Once a run is settled, any reader that begins then and finishes leaves it complete, whatever happens in between |
| `Trajectory.BuildIndex` | routes/datasets/__init__.py:2118-2131 | The index and the order of spans: one with no id, or one that is taken, gets the synthetic one of its position |
| `Trajectory.BuildChildren` | routes/datasets/__init__.py:2132-2139 | The children of each span, and the roots, in the order of the spans; a span whose parent is itself or unknown is a root |
| `Trajectory.Walker.Visit` | routes/datasets/__init__.py:2145-2189 | The recursive visit lists the subtree, or ends in a recursion error, exactly as the walk specifies |
| `Trajectory.Walker.VisitRest` | routes/datasets/__init__.py:2193-2197 | The safety net visits each span that was not reached, whatever earlier rescues listed |
| `Trajectory.TrajectorySummary` | routes/datasets/__init__.py:2107-2203 | The steps are the listing; for spans with ids of their own, stated on their fields: each is listed once, one whose parent is another span below it, one deeper and inside its subtree, any other at depth 0, spans of one parent in their order; the types count the spans of each kind, with the empty one as llm |
| `Trajectory.NamesDistinct` | routes/datasets/__init__.py:2121-2131 | Each span keeps a name of its own if and only if no synthetic name is the real id of another span |
| `Trajectory.SummaryListsEverySpan` | routes/datasets/__init__.py:2110-2203 | Without such a clash the summary succeeds exactly if the parent links have no cycle, and lists every span once, in preorder, at the depth of its ancestors; the type counts add up to the number of spans |
| `Forest.ListingExactly` | routes/datasets/__init__.py:2190-2197 | The listing fails exactly if some span has as many ancestors as there is room for; if it succeeds the safety net has added nothing |
| `Forest.OnlyCyclesFail` | routes/datasets/__init__.py:2192-2197 | With room for every span the listing fails if and only if the parent links have a cycle: the safety net never rescues one |
| `Forest.ListingIsPreorder` | routes/datasets/__init__.py:2145-2191 | Each span once, its depth the number of its ancestors, its descendants exactly the deeper steps that follow without a gap |
| `Forest.WalkFails` | routes/datasets/__init__.py:2188-2189 | The walk below a span runs out of room exactly if some span is that far below it |
| `Forest.ListedBelowParent` | routes/datasets/__init__.py:2145-2197 | A span with a parent is listed after it, one level deeper and inside its subtree; one without is at the top |
| `Forest.SiblingsInOrder` | routes/datasets/__init__.py:2132-2191 | Spans with the same parent, or without any, are listed in the order in which they came |
| `AgentImport.Store.ExistingIds` | db_queues/postgresql/datasets.py:116-132 | The ids of the stored examples that name one |
| `AgentImport.Store.AddBulk` | db_queues/postgresql/datasets.py:135-164 | All examples are appended in order, or none if the dataset is not the organization's |
| `AgentImport.ImportAgentRuns` | routes/datasets/__init__.py:2225-2280 | What is stored and counted is what the paged, deduplicating import specifies, for every growth of the list between pages |
| `AgentImport.ImportFindsEveryRun` | routes/datasets/__init__.py:2233-2280 | However the list grows at its front, the example of every run that it started with, with a new id and something to say, is imported unless the cap of 2000 is hit; none twice, and none that was stored. In fields: an example has the run's own input and output, unless its input is blank, when the pinned spans' input stands in if it says something and their output if the run has none; nothing but such examples is imported |
| `AgentImport.ImportingAgain` | routes/datasets/__init__.py:2225-2280 | Repeating an import that met no cap adds nothing if and only if every run with content has a non-empty id |
| `RunComparison.ExampleScores` | routes/datasets/__init__.py:1492-1510 | The last score of each layer or metric, and the overall score: the last deterministic run score or else the least layer, or the mean of all metric scores |
| `RunComparison.ByExample` | routes/datasets/__init__.py:1551-1552 | Of several trials of an example the last counts, in the place of the first |
| `RunComparison.CompareRuns` | routes/datasets/__init__.py:1540-1604 | Labels, counts, metric averages over the common examples and the order of the report, as specified on sets of examples |
| `ComparisonReport.EveryEntryIsWellLabelled` | routes/datasets/__init__.py:1558-1580 | Every entry of a report on an example of both runs: regressed exactly if both overall scores are there and the run's is more than 0.05 below, improved exactly if more than 0.05 above, pending exactly if one is missing, else unchanged |
| `ComparisonReport.CountsAreEntries` | routes/datasets/__init__.py:1555-1610 | The counts of a report are the numbers of its entries with each label |
| `ComparisonReport.AgenticOverall` | routes/datasets/__init__.py:1492-1510 | The overall score of an agentic run from its rows: the last deterministic run score, or else the least layer |
| `ComparisonReport.MetricsOverall` | routes/datasets/__init__.py:1492-1510 | The overall score of a metrics run from its rows: the mean of the scored `fluiq.eval` rows |
| `ComparisonReport.EntryScores` | routes/datasets/__init__.py:1551-1591 | An entry shows the scores of its example in each run |
| `ComparisonReport.LastTrialCounts` | routes/datasets/__init__.py:1551-1552 | Of several trials the last one's scores are compared |
| `ComparisonReport.MissingExactly` | routes/datasets/__init__.py:1592-1592 | Missing are exactly the examples of the baseline that the run does not have |
| `ComparisonReport.AveragesLieBetween` | routes/datasets/__init__.py:1594-1604 | The average of a metric lies between the least and the greatest of the scores it averages |
| `RunComparison.ReportsEveryExampleOnce` | routes/datasets/__init__.py:1558-1604 | The report lists each example of the run once, with its own scores and label, sorted with regressions first and the biggest drop on top |
| `RunComparison.SwapExchanges` | routes/datasets/__init__.py:1551-1600 | Comparing the other way round exchanges regressed with improved and added with missing, keeps unchanged and pending, exchanges the averages and negates every delta |
| `RunComparison.SwapStatus` | routes/datasets/__init__.py:1570-1580 | An example of both runs that is regressed one way round is improved the other, and keeps any other label |
| `RunComparison.LabelsPartition` | routes/datasets/__init__.py:1563-1600 | The five labels partition the examples of the run; with the missing ones they cover both runs |
| `RunComparison.DeltaIsDifferenceOfMeans` | routes/datasets/__init__.py:1589-1598 | The mean of a metric's differences is the difference of its means |
| `RunComparison.MixDoesNotMove` | routes/datasets/__init__.py:1586-1598 | Where both runs score their common examples alike, no metric moves and nothing regresses, whatever else each run contains |
| `Broker.Queue.Offer` | realtime/broker.py:52-65 | Delivering always succeeds: after one drop the second put finds room, so the still-full branch is dead |
| `Broker.Queue.Get` | realtime/broker.py:79-93 | The client receives the oldest pending message |
| `Broker.EveryRunIsFaithful` | realtime/broker.py:34-65 | After any interleaving of messages and reads a bounded queue holds a suffix of what was sent, no longer than its bound; what was received is in order and without repetition, and only messages that a full queue of newer ones displaced are missing |
| `Broker.NothingIsLostExactly` | realtime/broker.py:41-58 | Nothing is dropped if and only if the client is never more than the bound behind, and then the bound is unnoticeable |
| `Broker.TraceBroker.Publish` | realtime/broker.py:34-65 | Each subscriber of the organization is sent the message and no other queue changes; every queue has been sent exactly what was published to its organization since it subscribed |
| `Broker.TraceBroker.Subscribe` | realtime/broker.py:67-93 | A new empty queue joins its organization and the queues of the broker; the broker's invariant holds on |
| `Broker.TraceBroker.Remove` | realtime/broker.py:71-78 | The queue leaves, and the last one takes the entry of its organization with it |
| `Broker.Serve` | realtime/broker.py:34-93 | Any run of a new broker over subscriptions, messages, reads and departures: each client is subscribed exactly as long as it listens, and its queue has seen exactly the events of its own inbox |
| `Broker.SentExactly` | realtime/broker.py:34-78 | In every such run a client is sent exactly what is published to its organization from its subscription until it leaves |
| `Broker.EveryClientAttends` | realtime/broker.py:67-78 | Every client has such a stay |
| `Broker.EveryClientIsServed` | realtime/broker.py:34-93 | After any run a client's queue is a bounded suffix of exactly these messages, and the rest was received in order or displaced by newer ones |
| `RunningRegistry.Registry.Register` | realtime/running_registry.py:46-66 | A start replaces the entry of its key; one without organization or trace is ignored |
| `RunningRegistry.Registry.Complete` | realtime/running_registry.py:68-81 | A completion removes the entry of its key, if there is one |
| `RunningRegistry.Registry.ListFor` | realtime/running_registry.py:83-132 | The list holds, once each and newest first, the keys whose latest event in the whole history is a start at most 600 seconds old, filtered by prefix |
| `RunningRegistry.Registry.Scan` | realtime/running_registry.py:101-117 | The loop keeps exactly the visible entries and marks for sweeping only stale ones |
| `RunningRegistry.SweepingIsInvisible` | realtime/running_registry.py:83-132 | Two registries with the same history list the same entries, whatever earlier lists swept from each, and in the same order where no two entries came at the same time |
| `RunningRegistry.Serve` | realtime/running_registry.py:42-132 | Any run of a new registry over starts, completions and lists: each list shows exactly what the starts and completions before it call for, whatever earlier lists swept |
| `RunningList.ListExactly` | realtime/running_registry.py:46-132 | In terms of the operations alone: a list shows the entries of exactly those starts, with an organization and a trace, that no start or completion of their key followed, that are at most 600 seconds old and of the prefix asked for; each once, and newest first |
| `Replies.ReplyTable.Consume` | db_queues/kafka/reply_consumer.py:61-77 | A reply resolves at most the one pending future that the table holds for its id, and never one that is done |
| `Replies.ReplyTable.Register` | db_queues/kafka/reply_consumer.py:106-108 | The wait joins the table with a future of its own; an entry that the id already has is overwritten |
| `Replies.ReplyTable.GiveUp` | db_queues/kafka/reply_consumer.py:109-112 | A timeout or a cancellation ends the wait unless it is already answered |
| `Replies.ReplyTable.Resume` | db_queues/kafka/reply_consumer.py:109-114 | The answer is that of the history since the wait joined; whatever entry its id has is removed, also that of a later wait |
| `Replies.AnsweredExactly` | db_queues/kafka/reply_consumer.py:61-77 | A wait is answered if and only if, before it gave up, a reply with its id from no contradicting organization came while its future was in the table, and by the first such reply |
| `Replies.PendingExactly` | db_queues/kafka/reply_consumer.py:61-77 | A wait is pending exactly as long as no such reply came and it did not give up: late, duplicate, unknown and foreign replies change nothing; its future is in the table until a wait with the same id joins or ends |
| `Digest.DigestBuffer.Add` | realtime/alert_consumer.py:80-90 | Every summary for an hourly or daily digest joins its organization's bucket, a new one due an interval after its own arrival, any other is ignored; every summary so far is in one batch or pending |
| `Digest.DigestBuffer.Drain` | realtime/alert_consumer.py:94-101 | A bucket that is due hands over all it holds and is due again an interval later; one that is not stays as it is |
| `Digest.DigestBuffer.FlushDue` | realtime/alert_consumer.py:92-104 | Whatever arrives during the awaits of a flush, each summary is in exactly one batch or pending, in order of arrival; all that was pending in a due bucket is handed over, no bucket that is not due is touched, and no bucket is given up |
| `Digest.Live` | realtime/alert_consumer.py:72-104 | Any run of a new buffer over arrivals and flushes: for each organization the batches and then what is pending are exactly what arrived, in order |
| `Digest.ConservedDrain` | realtime/alert_consumer.py:98-103 | Moving an organization's pending summaries into a batch loses none and disturbs no other organization |
| `RateAlerts.EvalAlerts.HandleEval` | realtime/alert_consumer.py:211-271 | For a watched metric: an alert for a low score, and one for a failure rate exactly if the true rate of the last min(n, 30) outcomes exceeds the threshold with n at least 10 and the cooldown has passed |
| `RateAlerts.EvalAlerts.Record` | realtime/alert_consumer.py:253-271 | The bounded deque holds the verdicts of the latest outcomes, and the stored time is that of the latest alert |
| `RateAlerts.AlertsAreApart` | realtime/alert_consumer.py:260-263 | Any two failure-rate alerts for one key are at least 600 seconds apart |
| `RateAlerts.AlertsAreFew` | realtime/alert_consumer.py:259-263 | By any time there have been at most as many failure-rate alerts for a key as cooldowns on the clock; before the first cooldown there is none |
| `RateAlerts.AlertsOfARunAreApart` | realtime/alert_consumer.py:253-271 | In any run two failure-rate alerts for one key are 600 seconds apart, whatever the settings were in between |
| `RateAlerts.Watch` | realtime/alert_consumer.py:211-271 | Any run of a new consumer raises after each evaluation exactly the alerts that it calls for after the ones before it |
| `AlertRules.AlertsExactly` | realtime/alert_consumer.py:211-271 | In terms of the evaluations alone: a low score alerts exactly below the threshold; the failure rate exactly if the last 30 of the key number at least ten, the share of them that failed, by their own verdict or else by the threshold of their time, exceeds the limit, and the key's last such alert is 600 seconds ago |
| `Luhn.LuhnOk` | routes/demo/output_scan.py:59-70 | The loop decides the recursive definition of the checksum |
| `Luhn.PassesByPosition` | routes/demo/output_scan.py:59-70 | The last digit counts once, the one before it twice with its digits added, and so on to the left; a number passes if and only if that sum is a multiple of ten |
| `Luhn.ChangedDigitFails` | routes/demo/output_scan.py:59-70 | Changing any one digit of a number that passes makes it fail |
| `Luhn.SwapFailsExactly` | routes/demo/output_scan.py:59-70 | Exchanging two adjacent digits of a number that passes makes it fail if and only if they differ and are not 0 and 9 |
| `Luhn.CheckDigitIsUnique` | routes/demo/output_scan.py:59-70 | Every prefix has exactly one valid check digit |
| `Agreement.CauchySchwarz` | shared/judge_agreement.py:53-57 | The squared numerator never exceeds the product of the two sums of squares |
| `Agreement.PearsonIsExact` | shared/judge_agreement.py:42-70 | The correlation is defined exactly if there are two points and both sides vary beyond the tolerance; then the clamp changes nothing |
| `Agreement.PearsonIsSymmetric` | shared/judge_agreement.py:42-70 | It does not matter which side is the judge |
| `Agreement.PearsonOfItself` | shared/judge_agreement.py:42-70 | A judge that repeats the human scores correlates perfectly |
| `Agreement.ConstantHasNoCorrelation` | shared/judge_agreement.py:60-67 | A judge that never varies has no correlation |
| `Agreement.BiasWithinMeanError` | shared/judge_agreement.py:120-124 | The bias is the difference of the mean scores and never exceeds the mean error |
| `Agreement.ConstantJudge` | shared/judge_agreement.py:160-190 | At one half a judge that never varies agrees with the positive share or its complement, hence at most with the base rate, and is never called good |
| `Agreement.ConstantJudgeExactly` | shared/judge_agreement.py:163-190 | A judge that never varies agrees with at most the base rate on all examples if and only if the threshold is one half, where the base rate is counted |
| `Agreement.GoodExactly` | shared/judge_agreement.py:137-254 | The branches of the verdict as one condition, with the bias as the difference of the mean scores and without the test that the judge varies, which the correlation makes idle: good if and only if ten examples compare, the correlation is 0.3 or more, the means are within 0.15 and agreement is 80 percent |
| `Agreement.PerfectJudge` | shared/judge_agreement.py:114-134 | A judge that repeats the human scores agrees everywhere, without error or bias |
| `JudgeReport.UsableExactly` | shared/judge_agreement.py:76-81 | Exactly the examples with both scores count, in order |
| `JudgeReport.NumbersExactly` | shared/judge_agreement.py:95-116 | The agreement is the share of them with both scores on one side of the threshold, the error the mean distance, the bias the difference of the means |
| `JudgeReport.VerdictExactly` | shared/judge_agreement.py:118-254 | Each of the nine verdicts is given if and only if its own condition on these numbers holds |
| `Placeholders.ScanIsLossless` | shared/placeholders.py:22-22 | The segments of a template concatenate to it |
| `Placeholders.SubstituteDependsOnIdentifiers` | shared/placeholders.py:29-46 | Only the values of the template's identifiers matter |
| `Placeholders.SubstituteNothing` | shared/placeholders.py:37-46 | Where no identifier has a value the template stays as it is |
| `Placeholders.PrintReadsBack` | shared/placeholders.py:22-34 | Placeholders printed in any of the three forms between harmless literals are read back, with their names, in order |
| `Placeholders.SubstituteRenders` | shared/placeholders.py:37-46 | Substituting in a printed template replaces the placeholders that have a value and nothing else |
| `Placeholders.NotReadAgain` | shared/placeholders.py:37-46 | A value that is itself a printed template is inserted as it is, whatever the other values are; its placeholders are not read again |
| `PromptVersions.Prompt.constructor` | db_queues/postgresql/prompts.py:100-124 | A prompt starts with one version and no history |
| `PromptVersions.Prompt.Update` | db_queues/postgresql/prompts.py:144-213 | The head's body joins the history under its version and the edit makes the next one; each of name, template, model and variables is the argument's, or the old one if it is omitted; the settings likewise, unless they are cleared; a foreign organization changes nothing |
| `PromptVersions.Prompt.Restore` | db_queues/postgresql/prompts.py:233-274 | A past version's body becomes the next version; it fails exactly for a version that is not in the past |
| `PromptVersions.Prompt.ListVersions` | db_queues/postgresql/prompts.py:216-230 | Exactly the past versions, each once with the body it had, newest first; nothing for a foreign organization |
| `PromptVersions.Prompt.Deploy` | db_queues/postgresql/prompts.py:307-339 | The environment serves the head; every environment keeps serving what its version was |
| `PromptVersions.Prompt.Undeploy` | db_queues/postgresql/prompts.py:342-359 | The environment serves nothing; the others are unchanged |
| `PromptVersions.EveryVersionOnce` | db_queues/postgresql/prompts.py:189-213 | The history holds each past version exactly once, with the body it had, and no other |
| `TaskResolution.ResolveTask` | routes/datasets/task_runner.py:196-262 | The outcome, with the errors in their order, is that of the pinned version's body, or the head's, or the inline template; a task pinned to a past version runs that version's template and is refused for its version exactly if there is none; the tools are the head's in any case |
| `TaskChoice.ResolutionExactly` | routes/datasets/task_runner.py:196-278 | A task of a saved prompt, in fields: refused if the pinned version does not exist; its template is that of the pinned version or else the head's; its model, without white space around it, the request's, or else the version's, or else the head's; its tools the request's or else the head's; a missing model, an unknown provider and a blank template without a conversation are refused in this order |
| `TaskChoice.InlineExactly` | routes/datasets/task_runner.py:233-278 | The same for an inline template, which has no other model, no tools but its own and no version |
| `TaskResolution.PinSurvivesExactly` | routes/datasets/task_runner.py:220-229 | A pinned task keeps its template, and is the same task after later edits if and only if these leave the prompt's name, the tools, unless it brings its own, and the model, unless it or its version names one |
| `TaskResolution.PinIgnoresTemplates` | routes/datasets/task_runner.py:220-229 | However often the template and the variables are edited, a pinned task stays the same |
| `TaskResolution.SettingsReachPins` | routes/datasets/task_runner.py:218-246 | An update of the settings alone changes the tools of a task pinned to any version, and nothing else of it |
| `TaskGeneration.Generate` | routes/datasets/task_runner.py:513-594 | The loop sends each step what the earlier answers made of it and adds up tokens and tool calls; it stops at the first exception, also of the cost estimate |
| `TaskGeneration.StepSeesEarlierAnswers` | routes/datasets/task_runner.py:559-563 | Every step sees the latest answer as previous, every earlier answer under its step's name, and all other values as the example had them; step names never collide |
| `TaskGeneration.AnswerExactly` | routes/datasets/task_runner.py:533-577 | An answer is that of the last step after one call for each step; a chain whose provider failed has sent at least one step and no more than there are |
| `TaskGeneration.ReportedTokensExactly` | routes/datasets/task_runner.py:523-594 | The tokens of the whole chain are reported if and only if the provider answers every step's call and the cost can be told, or the answers before the failure spent none |
| `TaskGeneration.ChainAnswersExactly` | routes/datasets/task_runner.py:533-577 | A chain succeeds if and only if the provider answers the call of every step, as the earlier answers rendered it |
| `TaskGeneration.RefusedSecondStepReportsNothing` | routes/datasets/task_runner.py:523-594 | Two steps of which the first spends tokens and the second is refused: none are reported |
| `TaskGeneration.StepDependsOnItsNames` | routes/datasets/task_runner.py:471-501 | A step that names placeholders is rendered from the values of these alone |
| `TaskTurns.EveryCallSends` | routes/datasets/task_runner.py:471-501 | Every call of a chain, also one that fails, sends the turns of its step: the task's system prompt first, if the step has no system turn of its own; each message in its role, a user's if it names none, filled with the latest answer as previous, the earlier ones under their steps' names and the rest from the example; a template without placeholders is followed by the example's input. The answers of the chain are those of the provider to these turns |
| `TaskTurns.MessagesExactly` | routes/datasets/task_runner.py:471-501 | What the turns of one step contain, for all values |
| `TaskTurns.StepNameReads` | routes/datasets/task_runner.py:562-563 | The name of a step is `step_` and its number, counted from one |
| `TaskTurns.TotalsAdd` | routes/datasets/task_runner.py:545-557 | Each answer adds its own tokens and tool calls to the chain's totals once, and no answers count nothing |
| `TaskTurns.AnswerReports` | routes/datasets/task_runner.py:565-577 | A chain is answered exactly if every step is and the cost can be told; it reports the turns of every call, all tool calls in order, the last output and the price of its own tokens |
| `TaskTurns.AnswerIsText` | routes/datasets/task_runner.py:545-557 | The model's text is the answer; only if it is blank beside tool requests are these |
| `TaskTurns.ToolRequests` | routes/datasets/task_runner.py:597-606 | Tool requests read as name and arguments, one below the other |
| `TaskResolution.EditKeepsHistoryExactly` | db_queues/postgresql/prompts.py:188-213 | An update keeps the history true, each past version once with its body, if and only if the head it read is still the head when it writes |
| `TaskResolution.StaleEditLosesItsVersion` | db_queues/postgresql/prompts.py:188-213 | An update that read an older head writes a history in which the version it overwrites is missing |
| `TaskResolution.OverlappingEditsLoseAVersion` | db_queues/postgresql/prompts.py:188-213 | In particular two updates that read the same head put its version into the history twice and lose the one in between |

## Left out

- ScorerReference.EvalAgree: compares values only, not which error is reported, because the two orders of evaluation may meet different errors first.
- ScorerTheorems.LimitsOnlyRaise: excludes `**` displays, where the interpreter and Python differ (`UnpackingSlidesExactly`).
- ScorerTheorems.RunScorer: the text of the reason is left out, and so are scores that are not finite.
- ScorerSemantics.Eval: floats are reals (no NaN, infinity or rounding), sets keep insertion order, one-shot iterators are lists, dictionary views and slices count as hashable, `str` of a value does not raise, and generators run their consumer at the yield; regular expressions, JSON and string methods are arbitrary functions of the runtime.
- RunStore.Store.SummarizeAndFinalize: of the summary only the total, completed and failed counts are modelled.
- ScorerEscapes.EscapesExactly: a literal stands for any value, also for one that Python has no literal for; what a construct raises is a function of the values that it is given.
- TracePaging.FetchTraces: rows that compare equal keep their table order, a deterministic tie order that ClickHouse does not promise; an unmatched right side is a missing row, whether the database fills in nulls or defaults.
- RunProtocol.StepInvariant: one run at a time, task runs only; legacy runs reuse source trace ids. Each statement or transaction of a store is one step, and every trace id of a run is fresh.
- Trajectory.TrajectorySummary: agents, models, tool and media counts and the previews of each step are not modelled.
- AgentImport.ImportAgentRuns: the list grows at the front by finitely many bursts, and a trace id determines its run's content; the snapshots of trajectories are a field of the run.
- RunComparison.CompareRuns: nothing is rounded, metrics are a map rather than a list sorted by name, and the checks that both runs exist and match are left to the caller.
- Broker.TraceBroker.Publish: one step, as the lock is never held across an await that waits for something else.
- RunningRegistry.Registry.ListFor: the clock is monotone.
- RateAlerts.EvalAlerts.HandleEval: the clock is monotone and never less than 0; the metric's name is taken as already normalised, and delivery is the list of alerts that is returned.
- TaskResolution.EditKeepsHistoryExactly: an overlapping update is one read of the head and one write.
- Agreement.PearsonIsExact: exact arithmetic; the square root is any function with its property.
- Placeholders.ScanIsLossless: ASCII only.
- PromptVersions.Prompt.Update: edits are serial; deletion and the older deployed flag are left out.
- TaskResolution.ResolveTask: parsing of messages, tools and chained steps, and the clamp of the token budget, are left out.
- TaskGeneration.Generate: latency, error messages, the few-shot text and the layout of the transcript are left out; what a provider answers to the n-th call is a function of the call.
- The patterns, entropy test and redaction of the output scanner around the checksum.
- The security and agentic summaries of a run beyond the number of completed traces, trials folding, and multi-run comparison.
- HTTP routes, authentication, provider transports, judge calls, Slack rendering and object storage: input and output around libraries that the repository does not contain. The constraints, defaults and indexes in the schemas of the databases.
- Sampling, choice tables, prefix routing, time-to-live caches and the disagreement list: correct but shallow next to the above.
