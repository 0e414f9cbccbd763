# Conduix engines, modelled and verified

Conduix is a data-pipeline platform written in Go. This project models the engines behind its
connectors and proves, for every input or every run, what they keep:

- the **filter language** (`FilterModel`, `FilterConverter`, `FilterEvaluator` and the modules about
  them): the printer, the recursive parser and the two evaluators of one boolean language. The parser's
  answer to every printed tree is computed exactly; the round trip holds if and only if a condition on
  the tree does; the verdict on a record, errors included, survives it. `FilterLiteral` says character by
  character which text is which condition.
- the **schedulers** (`Graph`, `DagExecutor`, `HierarchySort`, `BatchExecution`): the executor by
  dependency waves, the depth-first hierarchy sort and the batch loop that follows it, on graphs with or
  without cycles.
- the **protocols** (`RealtimePipeline`, `Supervisor`, `SqlEventSource`, `BufferedSink`,
  `PendingCommands`, `CircuitBreaker`, `LocalCache`): each is a state, a step and the runs made of steps.
  The theorems speak about every run and every interleaving.
- **translation and accounting** (`PipelineConfig`, `StageChain`, `HourlyStats`).

Each stateful part has two layers. A `Step` function (with `Runs` and `After`) says what one event does to
the state, and the theorems are about runs. A class with the fields of the Go object has the methods of the
source, with their loops, and each method is proved to move the object by exactly those steps. In
`FilterLoops` the loops of the converter and the evaluators are proved equal to the recursive functions the
filter theorems speak about.

Time is a nondecreasing integer. The order in which a Go map is iterated is arbitrary. What stages, sinks,
publishers, pipeline runs and batch writes answer is arbitrary, and so are field lookup and value comparison
in filters; where a record has to be shown, it is a nested map looked into as the source does
(`FilterRecord`). Go errors are an `Option`, a verdict `Error`, or an ending; their messages are not modelled.

## Where the code does not do what one would expect

Each of these is proved, with a witness and with the exact condition under which the code does what one
would expect.

- A group with one child prints without its operator, and the parentheses around a nested group are chosen
  by operators that are then not printed: `LostParentheses` gives a tree whose text parses to another tree
  with another verdict. `RoundTrip` says exactly when this does not happen.
- An unquoted value that ends in the word `exists` makes its condition read back as an existence test of
  another field (`ComparisonWithExists`, `OrderedExactly`). The operators contains, startswith, endswith,
  in, notin and the negated existence test print texts the parser refuses, and null tests come back as
  comparisons with the word null, with another verdict (`ParseCondition`, `NullTestChanges`).
  `ReadsBackExactly` says which conditions come back as themselves.
- A symbol at the start of a text is refused by the parser and read with an empty field by the evaluator on
  text (`LeadingSymbol`). Of two symbols in a text the one tried first is taken, so a value may end up in
  the field (`EarlierSymbolWins`); `ComparisonsParsed` says when a value is safe.
- The evaluator on text cuts at `&&` before `||`, the parser at `||` first (`OppositePrecedence`). With one
  connective they agree (`SingleConnective`). If each comparison of the tree can be met and no field lies on
  the way to another, they agree on every record only then (`AgreeExactly`).
- Under a policy that goes on after failures, pipelines waiting for a failed one end the run as "circular
  dependency" (`FailureLooksCircular`, `EndingExactly`).
- A dangling reference makes the hierarchy sort add an empty pipeline, a repeated id lose one
  (`DanglingAdds`, `RepeatLoses`, `PermutesExactly`).
- The batch keeps no output of a pipeline that is itself expanded, so a grandchild runs over its own data
  type, or not at all (`GrandchildStarves`, `NestedExactly`).
- If the event id is read from the event-type field, the upsert changes the id and duplicates are written
  within the retention time (`TwoUpdatesCollide`, `DuplicatesKeptApart`).
- An id column that is not selected or not numeric makes the same rows come with every poll
  (`UntrackedRepeats`, `SentOnceInOrder`).
- A retry pass that starts while another holds a waiting command can publish it twice
  (`OverlapPublishesTwice`, `StartSafeExactly`).
- A failure in the half-open state does not open the breaker again (`TrialFailureStays`, `ClosesExactly`).
- The validator visits transforms in map order, so a translated pipeline with two processing steps is refused
  in some orders (`TwoStepsRefused`, `AlwaysAccepted`, `TranslationAlwaysAccepted`).
- Two stages with one name share their counters (`SameNameMiscounts`, `BalancedExactly`).
- A flush does not reset the hourly sums, so the buckets of an hour must not be added up
  (`FlushCountsTwice`, `AddsUpExactly`), and all of them share one map of stage counts (`LastBucketIsExact`).

## Model

| member | source | states |
|---|---|---|
| `FilterLoops.SplitLogical` | pipeline-core/pkg/filter/converter.go:247-275 | the byte loop computes the recursive cut at separators of depth 0, with an empty last piece dropped |
| `FilterConverter.SplitShorter` | pipeline-core/pkg/filter/converter.go:247-275 | every part of a text that was cut is shorter than the text, so the parser terminates on every text |
| `FilterScan.PiecesJoin` | pipeline-core/pkg/filter/converter.go:247-275 | cutting loses nothing: for every text, depth and separator, the pieces joined by the separator are the text |
| `FilterScan.JoinPieces` | pipeline-core/pkg/filter/converter.go:247-275 | nested texts without a top-level connective, joined by it, are cut back into the same texts up to white space |
| `FilterLoops.ParseExpression` | pipeline-core/pkg/filter/converter.go:54-75 | the parser with its loops gives the tree of the recursive function `Parse`, or fails when it does |
| `FilterLoops.ParseLogicalGroup` | pipeline-core/pkg/filter/converter.go:78-97 | the group is refused as soon as a part is, otherwise it holds the trees of all parts in order |
| `FilterLoops.ParseSingleCondition` | pipeline-core/pkg/filter/converter.go:100-154 | the loop over the symbols gives the tree of `ParseSingle`: parentheses, the exists suffix, then the first symbol in table order; which text means which comparison is stated literally by `FilterLiteral` |
| `FilterScan.ParseJoined` | pipeline-core/pkg/filter/converter.go:54-97 | texts without that connective at top level, joined by it, parse to the group of what each parses to, or to nothing if one does not |
| `FilterScan.ParseAtomic` | pipeline-core/pkg/filter/converter.go:54-75 | a text without top-level connectives goes to the single-condition case |
| `FilterScan.ParseParen` | pipeline-core/pkg/filter/converter.go:104-107 | parentheses around any nested text do not change what it parses to |
| `FilterLoops.NodeToExpression` | pipeline-core/pkg/filter/converter.go:157-166 | printing with loops equals `Print`, unknown kinds of node refused; the printed texts are stated literally by `FilterLiteral` |
| `FilterLoops.GroupToExpression` | pipeline-core/pkg/filter/converter.go:211-244 | the loop over the children prints the group as `Print` does: empty, one child, unknown connective and parenthesised children included |
| `FilterLiteral.ComparisonTexts` | pipeline-core/pkg/filter/converter.go:169-208 | for every field and value the seven comparisons print as the literal texts `.f == 'v'`, `.f != 'v'`, `.f ~= 'v'`, `.f > v`, `.f >= v`, `.f < v`, `.f <= v` |
| `FilterLiteral.WordTexts` | pipeline-core/pkg/filter/converter.go:169-208 | contains, startswith and endswith print their word and a quoted value, in and notin their word and a bare one |
| `FilterLiteral.TestTexts` | pipeline-core/pkg/filter/converter.go:169-208 | the tests without a value print as `.f exists`, `!(.f exists)`, `.f == null`, `.f != null` |
| `FilterLiteral.ComparisonsParsed` | pipeline-core/pkg/filter/converter.go:100-154 | each of these seven literal texts parses to its own comparison, for every plain field and value (bare values not ending in the word exists) |
| `FilterLiteral.ComparisonsEvaluated` | pipeline-core/pkg/filter/evaluator.go:204-247 | and the text evaluator gives it the verdict of that comparison |
| `FilterLiteral.AnySpelling` | pipeline-core/pkg/filter/converter.go:100-154 | with or without the leading dot, with any white space around symbol and text and any quotes around the value, each of the seven symbols is read as its own comparison of field and value, by the parser and by the text evaluator |
| `FilterLiteral.EarlierSymbolWins` | pipeline-core/pkg/filter/converter.go:123-151 | the order of the search: of two different symbols in one text the one tried first is read, though it stands later, and all before it is the field |
| `FilterLiteral.ExistsRead` | pipeline-core/pkg/filter/converter.go:109-120 | the text `.f exists` is read as the exists test by both readers |
| `FilterLiteral.ExistsSpelling` | pipeline-core/pkg/filter/converter.go:109-120 | and so it is without the dot and with any further white space |
| `FilterLiteral.ConnectiveTexts` | pipeline-core/pkg/filter/converter.go:54-97 | two conditions joined by a literal `&&` or double bar: the text of the group, and what it parses to |
| `FilterLiteral.NestedTexts` | pipeline-core/pkg/filter/converter.go:211-244 | a group under the other connective stands in parentheses, one under its own does not, as literal texts |
| `FilterLiteral.LeadingSymbol` | pipeline-core/pkg/filter/converter.go:136-137 | a symbol at the very start is refused by the parser and read with an empty field by the text evaluator |
| `FilterLiteral.TrailingSeparator` | pipeline-core/pkg/filter/converter.go:270-274 | a separator at the end of a text adds no part |
| `FilterLiteral.SplitAllJoin` | pipeline-core/pkg/filter/evaluator.go:171-187 | the text evaluator cuts without losing anything: the parts joined by the separator are the text |
| `FilterLeaf.ParseCondition` | pipeline-core/pkg/filter/converter.go:100-208 | for each of the sixteen operators, the printed text of a plain condition is read back as exactly `Reread`: same comparison with a string value, null tests as comparisons, word operators not at all, and an unquoted value ending in the word exists as an exists test of all that stands before it |
| `FilterLeaf.ParseLeaf` | pipeline-core/pkg/filter/converter.go:54-154 | the same for the whole parser |
| `FilterLeaf.ReadsBackExactly` | pipeline-core/pkg/filter/converter.go:100-208 | of the plain conditions exactly the exists tests without a value and the comparisons with a string parse back to themselves, unquoted strings only if they do not end in the word exists |
| `FilterLeaf.OrderedExactly` | pipeline-core/pkg/filter/converter.go:109-151 | an ordered comparison with a string parses back to itself if and only if the string is not, and does not end in a blank and, the word exists |
| `FilterLeaf.FindPrinted` | pipeline-core/pkg/filter/converter.go:123-151 | of the seven symbols tried in order, the one printed is found, at the place where it was printed |
| `FilterRoundTrip.PrintAlts` | pipeline-core/pkg/filter/converter.go:157-244 | every plain tree prints as a disjunction of conjunctions of texts the scanner does not cut |
| `FilterRoundTrip.ParseRender` | pipeline-core/pkg/filter/converter.go:54-154 | a disjunction of conjunctions of such texts parses to exactly the or-group of and-groups it shows |
| `FilterRoundTrip.PrintThenParse` | pipeline-core/pkg/filter/converter.go:54-275 | what the parser makes of the text of any plain tree, whether or not it is the tree |
| `FilterNormal.RoundTrip` | pipeline-core/pkg/filter/converter.go:54-275 | for every plain tree the text parses to `Normal` of the tree (one-child groups replaced by their child, same-operator groups spliced, a child printed in parentheses kept whole) if and only if every condition reads back and no and-group has a child showing a bare `or` connective |
| `FilterNormal.BranchingRoundTrip` | pipeline-core/pkg/filter/converter.go:54-275 | with at least two children in every group the round trip always holds for conditions that read back |
| `FilterNormal.NormalFlat` | pipeline-core/pkg/filter/converter.go:211-244 | the tree that comes back from a branching tree has no group directly under a group of its own operator, and keeps the operator at the top |
| `FilterNormal.OneAlternative` | pipeline-core/pkg/filter/converter.go:216-218 | a tree's text falls into several alternatives exactly when the tree shows a `or` connective outside parentheses |
| `FilterShape.ParsedShape` | pipeline-core/pkg/filter/converter.go:54-154 | for every text, a tree the parser returns has known connectives, at least two children in each group, and only exists tests and comparisons with strings |
| `FilterShape.ParsedTextValid` | pipeline-core/pkg/filter/model.go:208-263 | for every text, the parsed tree passes validation if and only if every condition names a field |
| `FilterShape.BlankRefused` | pipeline-core/pkg/filter/converter.go:19-34 | the check for blank text changes nothing: for every text the result is that of the parser |
| `FilterShape.TextRoundTrip` | pipeline-core/pkg/filter/converter.go:19-275 | whatever text a plain tree was parsed from, printing and parsing it gives the tree with same-operator groups spliced if and only if no unquoted value ends in the word exists, and then the same verdict on every record |
| `FilterShape.SecondTripIsIdentity` | pipeline-core/pkg/filter/converter.go:54-275 | the flattened tree is printed and parsed to itself: later round trips change nothing |
| `FilterLoops.EvaluateNode` | pipeline-core/pkg/filter/evaluator.go:40-49 | the evaluator with its early-return loops gives the verdict of `Eval` |
| `FilterLoops.EvaluateGroup` | pipeline-core/pkg/filter/evaluator.go:52-85 | the verdict of `Eval`, and of the children the first one that errs or decides gives it; without one the connective stays open; the empty group passes, an unknown connective is an error |
| `FilterEvaluator.GroupVerdict` | pipeline-core/pkg/filter/evaluator.go:52-85 | for every group and record: the verdict is that of the first child whose verdict is an error or decides the connective, every child before it leaving it open; if there is none, pass for and, fail for or; empty groups pass and unknown connectives are errors |
| `FilterEvaluator.TestVerdicts` | pipeline-core/pkg/filter/evaluator.go:88-111 | what exists, notexists, isnull, isnotnull and the comparisons say of a missing, a nil and any other value |
| `FilterEvaluator.NormalEval` | pipeline-core/pkg/filter/evaluator.go:40-111 | collapsing and splicing groups keeps the verdict, true, false or error, on every record |
| `FilterEvaluator.ReparsedEval` | pipeline-core/pkg/filter/evaluator.go:40-111 | printing, parsing and evaluating gives the verdict of the tree on every record, for every plain tree with string values that round-trips |
| `FilterEvaluator.NullTestChanges` | pipeline-core/pkg/filter/evaluator.go:88-111 | a null test comes back as a comparison with the word null: on every record without the field the one passes and the other fails |
| `FilterEvaluator.FoldConcat` | pipeline-core/pkg/filter/evaluator.go:57-81 | short-circuit evaluation of a concatenation is the short-circuit of the two halves, errors included |
| `FilterLoops.EvaluateExpression` | pipeline-core/pkg/filter/evaluator.go:166-201 | the text evaluator with its loops computes `EvalText` |
| `FilterEvaluator.TextVerdict` | pipeline-core/pkg/filter/evaluator.go:166-201 | for every text and record: cut at every `&&`, or without one at every double bar, the verdict is that of the first part that errs or decides, and open if there is none |
| `FilterLoops.EvaluateParts` | pipeline-core/pkg/filter/evaluator.go:171-197 | the verdict is that of the first part that errs or decides, or open |
| `FilterLegacy.EvalConditions` | pipeline-core/pkg/filter/evaluator.go:166-247 | the text evaluator on conditions joined by one connective is the fold of their verdicts |
| `FilterLegacy.SingleConnective` | pipeline-core/pkg/filter/evaluator.go:166-247 | for every tree with a single connective and every record, the text evaluator on the printed text gives the verdict of the tree |
| `FilterLegacy.LostParentheses` | pipeline-core/pkg/filter/converter.go:216-218 | a concrete tree whose text parses to a tree with another verdict |
| `FilterLegacy.OppositePrecedence` | pipeline-core/pkg/filter/evaluator.go:169-197 | a concrete tree that round-trips and on which the text evaluator gives the other verdict |
| `FilterAgreement.AgreeExactly` | pipeline-core/pkg/filter/evaluator.go:166-262 | for every fixed comparison of values, and every tree with at least two children in each group, no field on the dotted way to another and a passing value for each comparison: the text evaluator gives the verdict of the tree on every nested record if and only if the tree uses one connective |
| `FilterAgreement.BothConnectivesDiffer` | pipeline-core/pkg/filter/evaluator.go:166-262 | the record on which they differ, for every such tree with both connectives and every fixed comparison |
| `FilterAgreement.DecidedEitherWay` | pipeline-core/pkg/filter/evaluator.go:52-111 | for every field of such a tree two records, alike in all that lies apart from the field, of which the tree passes one and fails the other |
| `FilterAgreement.HopelessAgrees` | pipeline-core/pkg/filter/evaluator.go:169-182 | why comparisons must be ones that can be met: a comparison no value passes, in front of an and, makes text and tree agree on every record whatever follows |
| `FilterRecord.GetNestedValue` | pipeline-core/pkg/filter/evaluator.go:250-272 | the loop over the parts of a dotted field follows its nonempty parts through nested maps |
| `FilterRecord.DotsJoin` | pipeline-core/pkg/filter/evaluator.go:250-257 | the parts of a dotted field joined by dots are the field |
| `FilterRecord.PathJoin` | pipeline-core/pkg/filter/evaluator.go:250-257 | the way of a field has no empty part, and joined by dots it is the field if that has none |
| `FilterRecord.PutOther` | pipeline-core/pkg/filter/evaluator.go:250-272 | putting a value at the end of a way leaves every lookup that lies apart from it unchanged |
| `FilterPrecedence.Unread` | pipeline-core/pkg/filter/evaluator.go:166-247 | the text evaluator gives the same verdict on records that differ only along a field no piece of the text touches |
| `FilterPrecedence.NodeSilent` | pipeline-core/pkg/filter/converter.go:235-238 | no piece of the printed text touches a field whose condition stands right after an opening parenthesis |
| `Graph.ClosedHasCycle` | pipeline-core/pkg/executor/group_executor.go:243-245 | a nonempty set whose members each depend on a member contains a cycle, by counting |
| `Graph.CycleIsClosed` | pipeline-core/pkg/executor/group_executor.go:243-245 | the members of a cycle form such a set |
| `DagExecutor.StartsOnceAfterDependencies` | pipeline-core/pkg/executor/group_executor.go:202-288 | in every run, under every policy, a pipeline starts at most once and only after each dependency succeeded in an earlier wave |
| `DagExecutor.UpstreamSucceeded` | pipeline-core/pkg/executor/group_executor.go:202-288 | everything a started pipeline depends on, directly or not, was started and succeeded, so nothing downstream of a failure starts |
| `DagExecutor.WaveIsLongestChain` | pipeline-core/pkg/executor/group_executor.go:228-288 | in every run a started pipeline runs in the wave given by its longest dependency chain |
| `DagExecutor.EndingExactly` | pipeline-core/pkg/executor/group_executor.go:228-291 | every run nobody cancels: failed if and only if there is no policy or it is stop_all, and a failing pipeline lies in no blocked set; otherwise circular if and only if there is a cycle or some pipeline waits for a failing or missing one; otherwise every pipeline was started |
| `DagExecutor.CancelledExactly` | pipeline-core/pkg/executor/group_executor.go:228-233 | in every run no wave starts once it is cancelled, and it ends as cancelled if and only if, without a failure that stops it, it is cancelled before the next wave with pipelines not yet started |
| `DagExecutor.BlockedExactly` | pipeline-core/pkg/executor/group_executor.go:243-245 | pipelines that hold each other up or wait for something that never completes exist if and only if there is a cycle or a dependency on a failing or missing pipeline |
| `DagExecutor.FailureLooksCircular` | pipeline-core/pkg/executor/group_executor.go:277-287 | two pipelines, the first failing, under a policy that goes on: the run ends as circular although there is no cycle |
| `DagExecutor.CircularMeansCycle` | pipeline-core/pkg/executor/group_executor.go:185-291 | with every dependency listed and every run succeeding, circular is reported if and only if the graph has a cycle; otherwise every pipeline runs |
| `DagExecutor.WavesAvoid` | pipeline-core/pkg/executor/group_executor.go:228-288 | in every run, cancelled or not, nothing in a blocked set is ever started |
| `DagExecutor.DependenciesExactly` | pipeline-core/pkg/executor/group_executor.go:190-200 | of the pipelines with one id the last counts, and its entry in the graph holds exactly the members of its dependency list |
| `DagExecutor.RunDependenciesFirst` | pipeline-core/pkg/executor/group_executor.go:185-291 | in every run, in terms of the listed pipelines: each dependency of a started one succeeded in an earlier wave |
| `DagExecutor.GroupExecutor.RunDAG` | pipeline-core/pkg/executor/group_executor.go:185-291 | the waves and the ending are those of `Run`; whatever a started pipeline lists in its dependencies succeeded in an earlier wave; results and totals grow by exactly the started pipelines, each once |
| `DagExecutor.GroupExecutor.RunWaves` | pipeline-core/pkg/executor/group_executor.go:228-291 | the loop on remaining and completed pipelines follows `Run` from the start |
| `DagExecutor.GroupExecutor.RunWave` | pipeline-core/pkg/executor/group_executor.go:247-287 | a wave completes exactly its succeeding pipelines and books each run once, in whatever order they report |
| `DagExecutor.GroupExecutor.RunPipeline` | pipeline-core/pkg/executor/group_executor.go:253-270 | one run adds its result, if any, to the results, its written records to the total and its errors to the failed ones, and succeeds when the pipeline does |
| `HierarchySort.ListsReachableOnce` | control-plane/internal/services/execution.go:315-353 | on every input, cyclic or not, the sort lists each id reachable from a listed pipeline exactly once, and no other |
| `HierarchySort.ParentsFirstExactly` | control-plane/internal/services/execution.go:315-353 | the parent and every dependency of each listed pipeline stand before it if and only if parents and dependencies form no cycle |
| `HierarchySort.VisitFrame` | control-plane/internal/services/execution.go:327-347 | a visit only adds to the order, keeps what is being visited, and leaves no reference of a newly listed id unvisited |
| `HierarchySort.VisitRefsFirst` | control-plane/internal/services/execution.go:327-347 | without a cycle each visit keeps references before referrers |
| `HierarchySort.VisitSteps` | control-plane/internal/services/execution.go:333-345 | a visit of a new id goes to its parent first, then to its dependencies in turn, and lists the id last |
| `BatchExecution.PermutesExactly` | control-plane/internal/services/execution.go:315-353 | for pipelines with names the sort is a permutation if and only if ids are distinct and no reference dangles: a repeated id loses a pipeline, a dangling one adds an empty one |
| `BatchExecution.DanglingAdds` | control-plane/internal/services/execution.go:334-345 | one pipeline with an unknown parent: the sort lists an empty pipeline |
| `BatchExecution.RepeatLoses` | control-plane/internal/services/execution.go:317-320 | two pipelines with one id: the first is not in the sorted list |
| `BatchExecution.SortByHierarchy` | control-plane/internal/services/execution.go:315-353 | the sort with its visited map and result list gives the rows of `Order`; on tidy input without a circle of parents and dependencies these are a permutation of the pipelines with each after its parent and its dependencies |
| `BatchExecution.SortedAfterReferences` | control-plane/internal/services/execution.go:315-353 | on tidy input without a circle, in terms of the fields: every parent and every dependency is the id of an earlier row |
| `BatchExecution.CircularIsCyclic` | control-plane/internal/services/execution.go:315-353 | for distinct ids, a circle of parents and dependencies is a cycle of the graph the sort walks |
| `BatchExecution.Sorter.constructor` | control-plane/internal/services/execution.go:316-324 | the table keeps the last pipeline of each id; nothing is visited |
| `BatchExecution.Sorter.Visit` | control-plane/internal/services/execution.go:327-347 | the closure moves the visited set and the result as the function `Visit` does |
| `BatchExecution.Sorter.VisitEach` | control-plane/internal/services/execution.go:339-350 | the loops over dependencies and over all pipelines visit each in order |
| `BatchExecution.ChildrenSeeParents` | control-plane/internal/services/execution.go:241-286 | on tidy acyclic input every parent stands before its children and the batch executes exactly the configured jobs: a child of a parent that is not expanded runs once for each record the parent's data type held right after it ran, or of its own data type if there is none; a child of an expanded parent runs over its own data type |
| `BatchExecution.NestedExactly` | control-plane/internal/services/execution.go:252-285 | every expanded child runs over what its parent left, in all surroundings and wherever the batch stops, if and only if for each such child the parent is not expanded, has no data type, or has that of the child with nothing between them that can run |
| `BatchExecution.GrandchildStarves` | control-plane/internal/services/execution.go:252-285 | three levels of pipelines, tidy, acyclic and in the order the sort gives them, where the grandchild runs no job whatever its parent's data type holds |
| `BatchExecution.RunRows` | control-plane/internal/services/execution.go:241-286 | the loop runs exactly the pipelines before the first cancellation, as `Batch` does, and the totals count each execution once |
| `BatchExecution.RunPipeline` | control-plane/internal/services/execution.go:250-284 | an expanded pipeline runs once for each of its records, with its place and the record; any other runs once, its counts are added and what its data type then holds is kept if it has children |
| `BatchExecution.RunJobs` | control-plane/internal/services/execution.go:262-271 | the expansion loop executes the jobs in order and adds up their counts |
| `BatchExecution.RunBatch` | control-plane/internal/services/execution.go:219-286 | the sort followed by the loop: each execution belongs to a pipeline of the batch, with a record exactly if that is expanded; uncancelled, on tidy acyclic input, exactly the configured executions, each counted once |
| `BatchExecution.BatchBelongs` | control-plane/internal/services/execution.go:250-284 | in every batch each execution carries the id of its pipeline, and an index and a record exactly if that pipeline is expanded |
| `RealtimePipeline.UpdatesFollowCreates` | pipeline-core/pkg/pipeline/pipeline.go:157-249 | in every run a written update follows a create or update of its entity with no delete in between, and the entity set is the replay of the written history |
| `RealtimePipeline.AdmittedExactly` | pipeline-core/pkg/pipeline/pipeline.go:225-249 | in every run a record that is no duplicate is admitted as it arrived, except that the type of an UPDATE of a nonempty entity not alive in the written history becomes CREATE |
| `RealtimePipeline.DuplicateWasWritten` | pipeline-core/pkg/pipeline/pipeline.go:157-176 | in every run a record is taken for a duplicate only if its nonempty event id has been written before |
| `RealtimePipeline.CountersExactly` | pipeline-core/pkg/pipeline/pipeline.go:117-222 | in every run each counter is the number of its own events: arrivals, writes, drops, and failures of source, processors and sink |
| `RealtimePipeline.ChainDecided` | pipeline-core/pkg/pipeline/pipeline.go:178-190 | the first processor that does not pass the record on decides; without one the record of the last comes out |
| `RealtimePipeline.ReplayAlive` | pipeline-core/pkg/dedup/dedup.go:107-128 | an entity is in the replay if and only if some create or update of it was not followed by a delete |
| `RealtimePipeline.DuplicatesKeptApart` | pipeline-core/pkg/pipeline/pipeline.go:157-222 | in every run two successful writes with one nonempty event id are more than the retention time apart, if and only if the upsert cannot change the id field |
| `RealtimePipeline.TwoUpdatesCollide` | pipeline-core/pkg/pipeline/pipeline.go:225-249 | the run that breaks it whenever it can |
| `RealtimePipeline.TtlStep` | pipeline-core/pkg/dedup/dedup.go:79-105 | every step, cleanup included, keeps each write remembered or older than the retention time |
| `RealtimePipeline.Accounting` | pipeline-core/pkg/pipeline/pipeline.go:117-222 | in every run, records plus source errors are processed, filtered, duplicate and failed ones, and the one in hand |
| `RealtimePipeline.Pipeline.constructor` | pipeline-core/pkg/pipeline/pipeline.go:46-90 | a pipeline starts with an empty store and zero counts |
| `RealtimePipeline.Pipeline.SourceFailed` | pipeline-core/pkg/pipeline/pipeline.go:122-130 | a source error counts once |
| `RealtimePipeline.Pipeline.Cleanup` | pipeline-core/pkg/dedup/dedup.go:79-89 | the loop keeps exactly the ids at most the retention time old |
| `RealtimePipeline.Pipeline.RunChain` | pipeline-core/pkg/pipeline/pipeline.go:178-190 | the first processor that fails or drops decides |
| `RealtimePipeline.Pipeline.HandleRecord` | pipeline-core/pkg/pipeline/pipeline.go:132-222 | one record moves the pipeline by exactly its steps of the run; which counters grow in each outcome, and with which type the record reaches the processors, is stated outright |
| `RealtimePipeline.Pipeline.WriteAndMark` | pipeline-core/pkg/pipeline/pipeline.go:192-221 | a written record is counted, its nonempty id remembered with the time, its nonempty entity added by CREATE or UPDATE and removed by DELETE |
| `Supervisor.RestartLimit` | pipeline-core/pkg/actor/supervisor.go:58-122 | in every run the restart maxRestarts places later comes at least a window later, and a failure is refused exactly when there are that many grants and the one maxRestarts places back lies in the window that ends now |
| `Supervisor.SoundFailure` | pipeline-core/pkg/actor/supervisor.go:89-122 | the pruned list answers like the full history of grants, and one failure keeps it so |
| `Supervisor.RunKeeps` | pipeline-core/pkg/actor/supervisor.go:58-122 | adding, removing and failing children in any order keeps that |
| `Supervisor.Configured` | pipeline-core/pkg/actor/supervisor.go:31-55 | positive settings are kept, others fall back to 3 restarts in 60 seconds |
| `Supervisor.SupervisorActor.constructor` | pipeline-core/pkg/actor/supervisor.go:31-55 | settings with their defaults, no children |
| `Supervisor.SupervisorActor.AddChild` | pipeline-core/pkg/actor/supervisor.go:58-68 | a child starts, or starts again, without restarts |
| `Supervisor.SupervisorActor.RemoveChild` | pipeline-core/pkg/actor/supervisor.go:71-75 | a child and its restarts are forgotten |
| `Supervisor.SupervisorActor.Prune` | pipeline-core/pkg/actor/supervisor.go:103-109 | the loop keeps exactly the restarts after the start of the window, in order |
| `Supervisor.SupervisorActor.HandleFailure` | pipeline-core/pkg/actor/supervisor.go:89-122 | decision and new state of every failure, that of an unknown child included; a restart is counted and dated |
| `SqlEventSource.NothingSkipped` | pipeline-core/pkg/source/sql_event.go:141-302 | in every run, aborted polls, restarts and restored checkpoints included, every matching row up to the last id or a saved checkpoint has been sent |
| `SqlEventSource.PollExactly` | pipeline-core/pkg/source/sql_event.go:141-271 | from every state a complete poll sends, in order, the lowest matching rows of the table above the last id, as many as a batch holds |
| `SqlEventSource.SentOnceInOrder` | pipeline-core/pkg/source/sql_event.go:141-240 | without aborts and restores rows are sent in id order, each once, in every run if and only if the id column is among the columns asked for, or of the table if none are, and its values arrive as one of the eight numeric types |
| `SqlEventSource.PollsSendAll` | pipeline-core/pkg/source/sql_event.go:141-271 | then, from every reachable state, as many polls as the pending rows need, without new rows between them, send every matching row |
| `SqlEventSource.UntrackedRepeats` | pipeline-core/pkg/source/sql_event.go:189-237 | otherwise two polls send the same row twice |
| `SqlEventSource.StepKeeps` | pipeline-core/pkg/source/sql_event.go:141-302 | every step keeps the last id and all checkpoints covered |
| `SqlEventSource.EventSource.constructor` | pipeline-core/pkg/source/sql_event.go:35-68 | a new source starts at id 0 |
| `SqlEventSource.EventSource.DoPoll` | pipeline-core/pkg/source/sql_event.go:141-240 | a poll, complete or aborted after any number of rows, moves the last id and the rows sent as its step says |
| `SqlEventSource.EventSource.TrackId` | pipeline-core/pkg/source/sql_event.go:186-204 | the loop over the columns of a row raises the largest id exactly when the id column is selected and numeric |
| `SqlEventSource.EventSource.GetCheckpoint` | pipeline-core/pkg/source/sql_event.go:274-282 | taking a checkpoint is the saving step of the run, and every matching row up to it has been sent |
| `SqlEventSource.EventSource.SetCheckpoint` | pipeline-core/pkg/source/sql_event.go:285-302 | setting a saved checkpoint is the restoring step of the run; a checkpoint without id, or with one that is no number, changes nothing |
| `BufferedSink.NothingLost` | pipeline-core/pkg/stream/sink.go:116-179 | in every interleaving of a writer with timer flushes: batches in swap order and buffer are the accepted records in order, the buffer stays within the batch size, every record is delivered, failed, in flight or buffered; after closing with no flush left all are counted |
| `BufferedSink.StepKeeps` | pipeline-core/pkg/stream/sink.go:116-179 | every step keeps this |
| `BufferedSink.Sink.constructor` | pipeline-core/pkg/stream/sink.go:38-47 | a batch size of 0 stands for 1000; the buffer is empty |
| `BufferedSink.Sink.Write` | pipeline-core/pkg/stream/sink.go:116-132 | an append, and a flush exactly when the batch is full |
| `BufferedSink.Sink.Flush` | pipeline-core/pkg/stream/sink.go:134-154 | a nonempty buffer is swapped out and counted as a whole, as output or as errors |
| `BufferedSink.Sink.CloseSink` | pipeline-core/pkg/stream/sink.go:156-164 | closing flushes, and fails exactly when there was something to flush and the batch write fails |
| `PendingCommands.NoCommandLost` | control-plane/internal/services/redis_service.go:101-171 | in every interleaving of sends and retry passes, overlapping or not, a command no longer being sent is published, waiting, or was dropped at an age over 24 hours |
| `PendingCommands.PublishedOnce` | control-plane/internal/services/redis_service.go:140-171 | if every pass starts in the clear, no pass under way holding a waiting command of at most 24 hours, no command is published twice in the whole run |
| `PendingCommands.StartSafeExactly` | control-plane/internal/services/redis_service.go:59-74 | after any such run, starting one more pass leaves no way to publish a command twice without further passes if and only if it starts in the clear |
| `PendingCommands.OverlapPublishesTwice` | control-plane/internal/services/redis_service.go:68-70 | two overlapping passes publish a waiting command twice |
| `PendingCommands.OnceRun` | control-plane/internal/services/redis_service.go:140-171 | every run of passes started in the clear keeps each command that may still be published waiting, unpublished and held by one pass |
| `PendingCommands.RedisService.constructor` | control-plane/internal/services/redis_service.go:45-53 | nothing is waiting at first |
| `PendingCommands.RedisService.SendCommand` | control-plane/internal/services/redis_service.go:101-132 | a new command is published, or waits when publishing fails |
| `PendingCommands.RedisService.Snapshot` | control-plane/internal/services/redis_service.go:141-146 | the loop lists every waiting command once, in any order |
| `PendingCommands.RedisService.Retry` | control-plane/internal/services/redis_service.go:148-170 | one command of a pass takes exactly its steps: dropped if older than 24 hours, else published and removed if publishing works, else left waiting |
| `PendingCommands.RedisService.RetryAll` | control-plane/internal/services/redis_service.go:148-170 | the loop takes the steps of each command of the snapshot in turn |
| `PendingCommands.RedisService.RetryPending` | control-plane/internal/services/redis_service.go:140-171 | a whole pass is the start with a list of the waiting commands, the steps of each of them with its answer and time, and the end |
| `CircuitBreaker.CountersFromHistory` | shared/redis/resilient_client.go:325-398 | after every history the counters are functions of it, in every state: the failures since the last reset or success that found the breaker closed or closed it; the successes in a row since the trial began while half-open, none otherwise |
| `CircuitBreaker.OpensExactly` | shared/redis/resilient_client.go:325-349 | a closed breaker opens exactly on the failure that completes the threshold in a row |
| `CircuitBreaker.ClosesExactly` | shared/redis/resilient_client.go:351-379 | a half-open breaker closes exactly on a reset or the success that completes the threshold in a row within the trial, and no failure opens it |
| `CircuitBreaker.TrialFailureStays` | shared/redis/resilient_client.go:325-349 | a failure, a trial and another failure: the breaker is still half-open |
| `CircuitBreaker.RefusalFollowsFailure` | shared/redis/resilient_client.go:381-398 | a refusal implies a failure at most the open timeout before |
| `CircuitBreaker.RefusesExactly` | shared/redis/resilient_client.go:381-398 | after every history an open breaker whose last failure is at most the open timeout old refuses and stays open, otherwise it allows and begins a trial; a breaker that is not open allows and keeps its state |
| `CircuitBreaker.Breaker.constructor` | shared/redis/resilient_client.go:150-160 | a new breaker is closed with an empty history |
| `CircuitBreaker.Breaker.RecordFailure` | shared/redis/resilient_client.go:325-349 | the fields follow from the history with one more failure |
| `CircuitBreaker.Breaker.RecordSuccess` | shared/redis/resilient_client.go:351-370 | the fields follow from the history with one more success |
| `CircuitBreaker.Breaker.ResetCircuit` | shared/redis/resilient_client.go:372-379 | the fields follow from the history with one more reset |
| `CircuitBreaker.Breaker.CanExecute` | shared/redis/resilient_client.go:381-398 | the answer and the fields follow from the history with one more question |
| `LocalCache.BoundedSubmap` | shared/redis/resilient_client.go:660-698 | in every run with arbitrary evictions the cache is a part of the unbounded cache and within the size limit |
| `LocalCache.HitIsLatest` | shared/redis/resilient_client.go:684-698 | a hit is the value of the last store of that key, not deleted since, within the given expiry or the default one, and the size stays within the limit |
| `LocalCache.ExactUnlessEvicted` | shared/redis/resilient_client.go:311-321 | in every run, for every key, the answer is that of the unbounded cache, unless the key was thrown out for another since it was last stored: then there is none |
| `LocalCache.Fallback.constructor` | shared/redis/resilient_client.go:150-160 | an empty cache |
| `LocalCache.Fallback.Put` | shared/redis/resilient_client.go:660-682 | a full cache, and no other, loses one arbitrary key; the entry is stored with the given or the default expiry and all other entries stay |
| `LocalCache.Fallback.Lookup` | shared/redis/resilient_client.go:684-698 | an unexpired entry or nothing |
| `LocalCache.Fallback.Remove` | shared/redis/resilient_client.go:487-495 | the loop deletes exactly the given keys |
| `LocalCache.Fallback.CleanUp` | shared/redis/resilient_client.go:311-321 | the loop deletes exactly the expired entries |
| `PipelineConfig.ToLegacyConfig` | pipeline-core/pkg/config/simple_config.go:262-321 | the loop with its previous step builds the graph of `Translate` |
| `PipelineConfig.SinkReadsPrefix` | pipeline-core/pkg/config/simple_config.go:262-321 | the only way back from each sink to a source goes through exactly the processing steps up to that save, in order |
| `PipelineConfig.TransformKinds` | pipeline-core/pkg/config/simple_config.go:262-321 | a step becomes a transform exactly if it filters, samples or transforms, of the kind filter before sample before remap |
| `PipelineConfig.SinkNames` | pipeline-core/pkg/config/simple_config.go:262-321 | a step that saves has a sink named after it, of the kind of its save |
| `PipelineConfig.FeedUnique` | pipeline-core/pkg/config/simple_config.go:262-321 | two ways through a graph of single inputs that end alike are the same |
| `PipelineConfig.ValidateFlat` | pipeline-core/pkg/config/config.go:124-157 | the validator accepts exactly when there are sources and sinks, each transform in visiting order reads from sources and earlier transforms, and sinks read from known parts |
| `PipelineConfig.CheckInputs` | pipeline-core/pkg/config/config.go:139-143 | all inputs are available |
| `PipelineConfig.CheckSinks` | pipeline-core/pkg/config/config.go:148-154 | all inputs of all sinks are available |
| `PipelineConfig.TranslationAccepted` | pipeline-core/pkg/config/config.go:124-157 | with a save, the translation is accepted in step order |
| `PipelineConfig.AcceptedAcyclic` | pipeline-core/pkg/config/config.go:124-157 | a configuration accepted in some order, transforms named apart from sources, has no cycle |
| `PipelineConfig.AcceptableExactly` | pipeline-core/pkg/config/config.go:124-157 | some order is accepted if and only if there are sources and sinks, every input is known and there is no cycle |
| `PipelineConfig.AlwaysAccepted` | pipeline-core/pkg/config/config.go:124-157 | every order is accepted if and only if, besides, no transform reads from a transform |
| `PipelineConfig.TranslationAlwaysAccepted` | pipeline-core/pkg/config/simple_config.go:262-321 | a translation with a save is accepted in every order if and only if at most one step processes |
| `PipelineConfig.TwoStepsRefused` | pipeline-core/pkg/config/config.go:138-145 | two processing steps, accepted in step order and refused in the other |
| `StageChain.IntakeAccounted` | pipeline-core/pkg/stream/processor.go:164-231 | whatever the stages are called, before every record of every run input is output plus filtered plus errors |
| `StageChain.IntakeExactly` | pipeline-core/pkg/stream/processor.go:176-187 | in every run the input counter grows by the records that arrive while not paused |
| `StageChain.CountersBalance` | pipeline-core/pkg/stream/processor.go:164-277 | with distinct names, before every record of every run each stage takes in what the one before lets out, filtered is the sum over stages, errors the sum plus sink errors, and what the last stage lets out is written or fails in the sink |
| `StageChain.BalancedExactly` | pipeline-core/pkg/stream/processor.go:94-277 | the stage counters balance in every run of every chain with these names if and only if no two stages share a name |
| `StageChain.TraverseLinks` | pipeline-core/pkg/stream/processor.go:236-277 | one record through the chain keeps the links for one more unit and counts what became of it once |
| `StageChain.FreshBalances` | pipeline-core/pkg/stream/processor.go:118-120 | a new processor is balanced, so the law holds from the start |
| `StageChain.SameNameMiscounts` | pipeline-core/pkg/stream/processor.go:118-120 | for every list with a repeated name one record through an all-passing chain upsets the balance |
| `StageChain.StreamProcessor.constructor` | pipeline-core/pkg/stream/processor.go:94-123 | zero counts, one table entry per stage name |
| `StageChain.StreamProcessor.ProcessRecord` | pipeline-core/pkg/stream/processor.go:236-277 | the loop over the stages counts and returns as `Traverse` does |
| `StageChain.StreamProcessor.OnRecord` | pipeline-core/pkg/stream/processor.go:164-231 | one record of the processing loop moves all counters as `Handle` does: input always, and one of output, filtered and errors by what the chain and the sink say |
| `HourlyStats.LastBucketIsExact` | pipeline-core/pkg/executor/stats_collector.go:255-316 | in every run of additions and flushes the last bucket of a closed hour holds exactly the sums of that hour; an hour without additions has no bucket; every bucket shows the stage counts of its whole hour, since all buckets of an hour share one map |
| `HourlyStats.BucketsAreSnapshots` | pipeline-core/pkg/executor/stats_collector.go:280-306 | in every run each bucket, in order of emission, holds the sums of its hour up to the event that emitted it |
| `HourlyStats.SumsByQuantity` | pipeline-core/pkg/executor/stats_collector.go:267-271 | the totals of an hour are, quantity by quantity, the sums over the samples of that hour |
| `HourlyStats.SumsByStage` | pipeline-core/pkg/executor/stats_collector.go:272-276 | the stage counts of an hour name the stages its samples name, each with its counts added up |
| `HourlyStats.AddsUpExactly` | pipeline-core/pkg/executor/stats_collector.go:255-316 | the buckets of a closed hour hold as many samples as it had additions if and only if no flush stands between an addition to that hour and the first to a later one, and then their totals add up to the hour's; otherwise they hold more samples |
| `HourlyStats.FlushCountsTwice` | pipeline-core/pkg/executor/stats_collector.go:280-284 | one flush and the single sample of an hour is in two buckets |
| `HourlyStats.StepKeeps` | pipeline-core/pkg/executor/stats_collector.go:255-316 | every addition or flush keeps the sums of the open hour and the last buckets of the closed ones exact |
| `HourlyStats.Aggregator.constructor` | pipeline-core/pkg/executor/stats_collector.go:243-252 | the hour of the start time is open and empty |
| `HourlyStats.Aggregator.AddSample` | pipeline-core/pkg/executor/stats_collector.go:255-277 | the fields follow from the history with one more addition, the hour rolled over first when it has changed |
| `HourlyStats.Aggregator.AddUp` | pipeline-core/pkg/executor/stats_collector.go:267-276 | totals, sample count and stage counts grow by the sample |
| `HourlyStats.Aggregator.ForceFlush` | pipeline-core/pkg/executor/stats_collector.go:280-284 | the fields follow from the history with one more flush |
| `HourlyStats.Aggregator.FlushLocked` | pipeline-core/pkg/executor/stats_collector.go:286-306 | a bucket is emitted exactly when there are samples, and nothing is reset |
| `HourlyStats.Aggregator.ResetLocked` | pipeline-core/pkg/executor/stats_collector.go:308-316 | sums are zero and the stage counts a new map |

## Left out

- `FilterNormal.RoundTrip` speaks of plain trees: no empty groups; no parenthesis, quote or double `&` or `|` in fields and values; no operator character in fields, and none of the symbols looked for earlier in values; no white space at the end of a field or around an unquoted value. The scanner ignores quotes, so other texts are cut inside values.
- Filters: identifiers of conditions for the editor, error messages, and the byte encoding of text (a character is a code point).
- `FilterAgreement.AgreeExactly` says nothing of trees with a comparison no value passes, such as a regular expression that does not compile, or with a field on the way to another: there both connectives may still agree on every record.
- Condition comparison, regular expressions and number parsing are one arbitrary function of value, operator and operand.
- Group executor: sequential and parallel modes, sorting by priority, and the inside of a pipeline run.
- Batch execution: parameter bindings of expanded children; what a data type holds is an arbitrary function of the executions so far; starting, stopping, pausing and resuming executions; saving results and offsets.
- Realtime pipeline: other modes, the Redis store, and errors of the store (the memory store has none).
- `Supervisor.RestartLimit` does not model the execution of decisions: which siblings restart with a child (one_for_one, one_for_all, rest_for_one) is not part of the model.
- SQL event source: timestamp checkpoints, a custom order of rows, and connecting; rows inserted below an existing id; the truncation of ids that arrive as floating-point numbers.
- Buffered sink: several writers at once, the reset of the timer, and the batch writers of the single sinks.
- Pending commands: the count of retries, and the contents of commands.
- Redis client: connecting and its backoff, retries of single requests, latencies and metrics.
- Configuration: options of sources and sinks, the actor form and its validation, the checks on single steps.
- Stream processor: start, pause and stop, and records that are nil.
- Hourly statistics: identifiers in buckets, and an aggregator without a flush callback (it emits nothing).
- Integers are unbounded: the wrap-around of 64-bit counters is not modelled.
- The web interface, HTTP routes, agents, Kafka, CDC, HTTP and file sources, provisioners, the database layer, JSON and YAML are input, output or foreign libraries.
