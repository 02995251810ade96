# Data-quality engine: a verified model

This project models the parts of the data-quality platform where a mistake is hardest to see, and
proves what they promise for all inputs, all runs and all interleavings:

- **Trino lowering.** Row rules and their filters are printed as SQL. `TrinoText` holds the printer and
  an independent reader of the printed text (quoted literals as in section 5.3 of ISO/IEC 9075-2,
  delimited identifiers 5.2, BETWEEN 8.3, IN 8.4); `TrinoLowering` proves that reading inverts
  printing; `Sql` and `SparkRows` give both engines a three-valued meaning and prove that they select
  the same rows.
- **JSON extraction** from a language model's answer (`JsonExtract`): the bracket scanner against a
  full JSON grammar (sections 2, 4, 5 and 7 of RFC 8259).
- **The reliable queue** (`ReliableQueue`, `Exclusivity`, `Delivery`, `ExceptionChain`) and the
  **join-pair stage** in front of it (`JoinPair`, `JoinPairFleet`): any number of workers as interleaved
  steps over two Redis lists, with crashes, failed acknowledgements, failure reports and recoveries; one
  turn of the join-pair worker as a class.
- **Expectation evaluation and reporting** (`Expectations`, `Evaluation`, `Verdicts`,
  `Results`, `Progress`, `GroupedDispatch`): from the failure condition of one expectation to the
  status, diagnostics and percentages of a grouped run.
- **Bounded streaming** (`Streaming`), the **Kafka publisher** (`Kafka`), **draft matching**
  (`Drafts`) and **polling** (`Polling`).

`dafny verify dfyconfig.toml` checks all of it.

Where a promise fails for some inputs, the code is modelled as it is, and the exact condition is proved:

- A row rule `in` or `not_in` with an empty value list is lowered to `c IN ()`, which is not SQL; every
  other lowered rule reads back exactly (`QueryRoundTrip`, `EmptyListExample`).
- A JSON text that holds a code fence can be destroyed by extraction, and so can one with a stray fence
  before it: it comes back iff no two fences stand apart in the answer or it lies inside the first fence
  (`ExtractionExactly`, `FenceInStringExample`).
- An in-set expectation with a null in its value set never fails any row (`InSetFaithful`); in the
  context of another column it then fails only rows without a value (`SetConditionMeaning`,
  `InSetForFaithful`), and compared without case it lets the text "none" pass (`NullBecomesNone`).
- The row-count cache is keyed by object identity. If two scoped frames share an identity, the second
  reports the size of the first, even a negative number of succeeded records (`StaleCountExample`). All
  counts are right iff any two frames that ask for a count under one identity have the same size, hence
  whenever identities are not reused (`CountsRightExactly`, `RecordedExactly`).
- The discard guard of the dispatch worker waits for the failure code `GX_API_REQUEST_FAILED`, while
  the report request raises `DQ_API_REQUEST_FAILED`, so it never fires (`DiscardNeverFires`,
  `WiredRemovals`).
- A recovering worker can take back a message that another one is processing, so delivery is at least
  once and not exactly once, even if workers start only while none has work (`ClaimedTwice`). A run
  keeps every copy with at most one worker iff each recovery takes back a copy that no worker holds
  (`ExclusiveExactly`); starting workers only while all others are down is enough (`RestartsAreSafe`).
- A join-pair job leaves its processing list in the turn that claimed it exactly when it is not the
  empty text and the acknowledgement goes through; and a run is reported failed although its payload
  was handed on exactly when only the last progress report fails (`RunIteration`).

## Model

| member | source | states |
|---|---|---|
| TrinoLowering.EscapeTrinoIdentifier | dq-engine/trino_adapter.py:19-33 | The loop over the parts returns the escaped identifier, or the error for an identifier with an empty part. |
| TrinoLowering.IdentifierRoundTrip | dq-engine/trino_adapter.py:19-33 | An escaped dotted identifier reads back as its parts, stopping exactly at its end, and the parts rebuild the identifier. |
| TrinoLowering.IdentifierInjective | dq-engine/trino_adapter.py:19-33 | Two identifiers with the same escaped text are the same identifier. |
| TrinoLowering.EscapesExactly | dq-engine/trino_adapter.py:21-28 | An identifier is accepted iff none of its dotted parts is empty. |
| TrinoText.EscapedPartExactly | dq-engine/trino_adapter.py:29-32 | A part is left unquoted exactly when it is a letter or underscore followed by letters, digits and underscores. |
| TrinoText.QuotedRoundTrip | dq-engine/trino_adapter.py:30-48 | A quoted token holding any characters, quotes included, is self-delimiting: its reader returns the string and what follows, whenever the next character is not a quote. |
| TrinoText.QuotedInjective | dq-engine/trino_adapter.py:30-48 | Quoting is injective. |
| TrinoText.SplitRoundTrip | dq-engine/trino_adapter.py:22-27 | Splitting an identifier at its dots and joining it again is the identity, and no part holds a dot. |
| TrinoText.LiteralRoundTrip | dq-engine/trino_adapter.py:36-48 | A null, boolean, integer or string literal reads back as the value it was printed from. |
| TrinoText.LiteralsRoundTrip | dq-engine/trino_adapter.py:118-122 | An IN list of any length decodes to exactly its values, up to its own closing parenthesis. |
| TrinoText.EmptyListUnreadable | dq-engine/trino_adapter.py:197-200 | An empty IN list has no reading. |
| TrinoText.PredRoundTrip | dq-engine/trino_adapter.py:94-135 | Every comparison, IN, BETWEEN and null test reads back as itself in front of any continuation that does not extend its last token. |
| TrinoText.WhereRoundTrip | dq-engine/trino_adapter.py:138-152 | A conjunction reads back as exactly its predicates in order, whatever quotes, commas, parentheses or ` AND ` its strings hold and however many BETWEENs it mixes in. |
| TrinoLowering.FilterMeaning | dq-engine/trino_adapter.py:94-135 | A filter is accepted iff it denotes a predicate, and then its text is the text of that predicate (with `<>` read as `!=`). |
| TrinoLowering.OperatorMeaning | dq-engine/trino_adapter.py:94-135 | Which predicate each operator text denotes, read without case and surrounding spaces: the six comparisons (`<>` is `!=`, none is `=`), IN and NOT IN with values, BETWEEN with both bounds, the two null tests; any other text is refused. |
| TrinoLowering.FormatAllMeaning | dq-engine/trino_adapter.py:146-152 | A filter list is accepted iff each filter denotes a predicate, and prints them in order. |
| TrinoLowering.ExpectationMeaning | dq-engine/trino_adapter.py:187-214 | The expectation text of each of the nine row rules is the text of the predicate the rule stands for. |
| TrinoLowering.LoweredParts | dq-engine/trino_adapter.py:167-215 | A lowered query is SELECT over the rule's table with the filters and then the expectation as its WHERE text, and the expectation is the text of the rule's predicate. |
| TrinoLowering.TableExactly | dq-engine/trino_adapter.py:173-173 | The table is the name without surrounding spaces, and "source" when that is empty. |
| TrinoLowering.LowersExactly | dq-engine/trino_adapter.py:167-215 | A rule is lowered iff its kind is known, column and table are names, the parameters of its kind are given and every filter denotes a predicate. |
| TrinoLowering.QueryRoundTrip | dq-engine/trino_adapter.py:167-215 | The lowered text reads back as the intended table and predicates in order, unless the rule lists an empty set of values; then it has no reading. |
| TrinoLowering.EmptyListExample | dq-engine/trino_adapter.py:197-200 | A concrete `in` rule whose lowered text is `c IN ()`. |
| Sql.MemberMeaning | dq-engine/spark_expectations_execution_adapter.py:288-297 | IN is true iff the value is known and listed, and false iff the list is empty or value and list are known and it is not listed. |
| Sql.CompareMeaning | dq-engine/spark_expectations_execution_adapter.py:276-287 | A comparison is unknown iff a side is null, and otherwise what the order and equality say. |
| Sql.WithinMeaning | dq-engine/spark_expectations_execution_adapter.py:282-287 | BETWEEN is true iff the value is known to lie between known bounds, and false as soon as it is known to lie outside one. |
| Sql.TruthLaws | dq-engine/spark_expectations_execution_adapter.py:384-387 | The connectives decide as much as their known sides decide. |
| SparkRows.AcceptanceGap | dq-engine/spark_expectations_execution_adapter.py:261-297 | Of the rules Trino lowers, Spark refuses exactly those with a null bound or an empty value list. |
| SparkRows.BuildsExactly | dq-engine/spark_expectations_execution_adapter.py:261-297 | Which rules Spark accepts, by kind and parameters. |
| SparkRows.PredicateAgreement | dq-engine/spark_expectations_execution_adapter.py:261-297 | On every row both engines agree on "true", and on the whole truth value except where Spark's min and max decide a null. |
| SparkRows.SelectionAgreement | dq-engine/spark_expectations_execution_adapter.py:384-389 | The rows the intended query selects are the in-scope rows that Spark passes. |
| SparkRows.EnginesAgree | dq-engine/trino_adapter.py:167-215 | The rows selected by the query that the lowered text reads back as are exactly the rows Spark passes among those that satisfy the filters. |
| SparkRows.TruthSplit | dq-engine/spark_expectations_execution_adapter.py:384-389 | Passed, failed and unknown rows add up to the input; a predicate and its negation select the true and the false rows. |
| SparkRows.UnknownExactly | dq-engine/spark_expectations_execution_adapter.py:261-297 | Exactly which values of the column make a rule's predicate unknown. |
| SparkRows.SplitIsComplete | dq-engine/spark_expectations_execution_adapter.py:384-389 | Passed plus failed plus unknown is the input size, and unknown is zero for not_null, is_null, min and max. |
| JsonExtract.JsonNeutral | dq-llm/entrypoint.py:1265-1285 | The scanner reads any JSON value, with brackets, escaped quotes and backslashes in its strings, back to the stack it started from, and never below it. |
| JsonExtract.BalancedIsJson | dq-llm/entrypoint.py:1257-1287 | From the opening bracket of a JSON object or array the scan returns exactly its text, whatever follows. |
| JsonExtract.BalancedJsonText | dq-llm/entrypoint.py:1257-1287 | The loop over characters with stack, string and escape flags refines the scanner. |
| JsonExtract.BalancedExactly | dq-llm/entrypoint.py:1257-1287 | On any text the scan returns the shortest piece that closes the bracket, and everything up to the end when nothing does. |
| JsonExtract.FindChar | dq-llm/entrypoint.py:1301-1302 | The first index of a character, or the length when it is absent. |
| JsonExtract.ExtractFirstJson | dq-llm/entrypoint.py:1301-1310 | The four-way choice between object and array starts takes the first opening bracket. |
| JsonExtract.ExtractJsonText | dq-llm/entrypoint.py:1252-1311 | Extraction computes the specification, with the error for an empty answer. |
| JsonExtract.UnfencedExtraction | dq-llm/entrypoint.py:1252-1311 | If no fence matches and the first opening bracket starts a JSON object or array, exactly that JSON text is returned. |
| JsonExtract.ExtractionExactly | dq-llm/entrypoint.py:1252-1311 | For any prose before the JSON text and anything behind it: the text comes back iff no two fences stand apart in the answer or the text lies inside the first fence; only a fence that opens and closes behind the text is taken in its place. |
| JsonExtract.BetweenProse | dq-llm/entrypoint.py:1289-1311 | Between pieces of text without a fence, inline code allowed, the JSON text comes back iff it does not itself hold two fences. |
| JsonExtract.FencedExtraction | dq-llm/entrypoint.py:1289-1299 | JSON inside a fence, with a language tag or prose before it and anything after it, comes back iff no two fences stand apart before it and it holds none. |
| JsonExtract.FenceInStringExample | dq-llm/entrypoint.py:1289-1299 | A valid JSON answer that extraction does not return. |
| JsonExtract.PlainAnswers | dq-llm/entrypoint.py:1252-1306 | Only a blank answer is an error; an answer without a bracket comes back trimmed, and a single fenced text comes back trimmed and without its "json" tag. |
| ReliableQueue.DiscardNeverFires | dq-engine/gx_dispatch_api.py:247-250 | A report request raises iff there is no response below 400, and no exception it raises satisfies the discard guard. |
| ReliableQueue.FlowKept | dq-engine/gx_dispatch_worker.py:186-267 | Every step of every worker keeps the accounting of messages. |
| ReliableQueue.AttemptsKept | dq-engine/gx_dispatch_worker.py:186-267 | Every step keeps each attempt with one worker and removes only on behalf of a settled attempt. |
| ReliableQueue.HistoryKept | dq-engine/gx_dispatch_api.py:111-146 | Every step keeps removals within the attempts that returned, were reported failed or hit the discard rule, and reports only messages that name a run. |
| ReliableQueue.InvAlways | dq-engine/gx_dispatch_worker.py:114-280 | The invariant holds in every state reachable by any number of workers with crashes and recoveries. |
| ReliableQueue.Conservation | dq-engine/gx_dispatch_worker.py:158-267 | In every reachable state each message's count in queue, processing and removed adds up to its count enqueued. |
| ReliableQueue.RemovalsAreSettled | dq-engine/gx_dispatch_worker.py:186-267 | A message is never removed more often than attempts on it returned, were reported failed or hit the discard rule. |
| ReliableQueue.InvalidNeverRemoved | dq-engine/dq_plan_execution_payload.py:30-44 | A message that is not a JSON object is never removed from the two lists. |
| Delivery.LremFirst | dq-engine/gx_dispatch_worker.py:198-198 | LREM takes out the first occurrence and nothing else. |
| Delivery.SuccessfulTurn | dq-engine/gx_dispatch_worker.py:186-207 | After return and acknowledgement one copy of the message, and nothing else, is out of processing and counted as removed, and the worker is idle. |
| Delivery.FailedTurn | dq-engine/gx_dispatch_worker.py:208-280 | After a failed turn the message is out of processing iff it names a run, its report got through or met the discard rule, and the clean-up worked; the worker stops iff the failure is one to stop for. |
| Delivery.ClaimTakesOldest | dq-engine/gx_dispatch_worker.py:186-192 | An idle worker can claim whenever something waits, and gets the oldest message. |
| Delivery.CrashLeaves | dq-engine/gx_dispatch_worker.py:155-164 | A crash takes the worker down with what it had in hand and leaves both lists as they are. |
| Delivery.LostClaim | dq-engine/gx_dispatch_worker.py:186-192 | A claim whose reply is lost still moves the message, and no worker has it. |
| Delivery.ClaimsInOrder | dq-engine/gx_dispatch_worker.py:186-192 | As long as nothing is taken back or lost, messages are claimed in the order they arrived. |
| Delivery.NewestFirst | dq-engine/gx_dispatch_worker.py:186-192 | Processing has its newest claim at the head. |
| Delivery.HitsAreFaults | dq-engine/gx_dispatch_worker.py:186-280 | No more attempts end without a removal than there were crashes, failures and failed acknowledgements. |
| Delivery.ProcessingExactly | dq-engine/gx_dispatch_worker.py:158-280 | What is in processing: copies in hand, abandoned and lost ones, less those taken back; abandoned ones are bounded by the faults. |
| Delivery.NothingStaysBehind | dq-engine/gx_dispatch_worker.py:158-267 | Without a fault, once no worker has an attempt in hand, processing is empty and all that was enqueued is waiting or removed. |
| Exclusivity.RecoverExactly | dq-engine/gx_dispatch_worker.py:160-162 | Taking a message back keeps "no more workers than copies in processing" iff the message has a copy that no worker holds. |
| Exclusivity.StepExactly | dq-engine/gx_dispatch_worker.py:158-267 | Every other step keeps it. |
| Exclusivity.ExclusiveExactly | dq-engine/gx_dispatch_worker.py:114-280 | A run keeps it throughout iff each of its recoveries takes back a copy that no worker holds. |
| Exclusivity.OneWorkerPerCopy | dq-engine/gx_dispatch_worker.py:158-267 | In such runs no message is in the hands of more workers than it was enqueued times. |
| Exclusivity.RestartsAreSafe | dq-engine/gx_dispatch_worker.py:158-164 | Runs in which a worker starts only while all others are down, with any crashes, are such runs. |
| Exclusivity.QuietRecoveriesAreSafe | dq-engine/gx_dispatch_worker.py:158-164 | So are runs, with any number of workers, that recover only while no worker has an attempt in hand. |
| Exclusivity.ClaimsSplit | dq-engine/gx_dispatch_worker.py:186-267 | Every claim of a message removed it, is in some worker's hands, or was abandoned. |
| Exclusivity.ClaimsBounded | dq-engine/gx_dispatch_worker.py:186-267 | A message has no more workers than copies in processing iff its claims and waiting copies do not exceed enqueues plus abandoned attempts. |
| Exclusivity.RestartRestores | dq-engine/gx_dispatch_worker.py:158-164 | From any reachable state, a worker that starts and recovers puts every message that was not removed back into the queue, recovered ones in their order behind the waiting ones. |
| Exclusivity.ClaimedTwice | dq-engine/gx_dispatch_worker.py:158-164 | A run in which every worker starts while none has work in hand, and one message still ends up with two workers at once. |
| ReliableQueue.WiredRunsNeverDiscard | dq-engine/dq_plan_execution_api.py:77-97 | In runs whose report errors come from the report request, no attempt ever hits the discard rule. |
| ReliableQueue.WiredRemovals | dq-engine/gx_dispatch_worker.py:230-256 | In such runs only attempts that returned or were reported failed remove a message. |
| ReliableQueue.RedisLists.RequeueOne | dq-engine/gx_dispatch_worker.py:160-162 | One RPOPLPUSH from processing to queue. |
| ReliableQueue.RedisLists.RecoverAll | dq-engine/gx_dispatch_worker.py:158-164 | Recovery ends with processing empty and queue equal to old processing followed by old queue; stopped early, the concatenation of the lists is still unchanged. |
| ExceptionChain.ChainIsReachable | dq-engine/gx_dispatch_api.py:45-54 | A closed chain holds exactly the exceptions reachable from its head. |
| ExceptionChain.NextExactly | dq-engine/gx_dispatch_api.py:51-53 | The explicit cause comes first; the context counts only without one. |
| ExceptionChain.IterExceptionChain | dq-engine/gx_dispatch_api.py:45-54 | The walk ends on every graph of causes and contexts, cyclic ones included, and visits each reachable exception once. |
| ExceptionChain.ShouldFailClosedWorker | dq-engine/gx_dispatch_api.py:96-97 | The worker stops iff a Spark runtime exception is reachable from the failure. |
| JoinPair.RequireMapping | dq-engine/join_pair_materialization_worker.py:117-143 | The join keys are the fully named pairs in order, or else the named plain keys, and none at all is an error. |
| JoinPair.EarlyMeaning | dq-engine/join_pair_materialization_worker.py:342-392 | The checks before the start cover the contract except for join keys and join type, and when they blame the payload rather than the contract. |
| JoinPair.JoinTypeExactly | dq-engine/join_pair_materialization_worker.py:146-160 | The five join types and what they resolve to, without regard to case and spaces; a missing one is inner. |
| JoinPair.DeliveredExactly | dq-engine/join_pair_materialization_worker.py:342-462 | A job hands on its own next payload under the trimmed queue key, exactly when job and turn meet all that is asked, said without the checks. |
| JoinPair.ReportsExactly | dq-engine/join_pair_materialization_worker.py:513-533 | A failure is reported for a job that names a run, unless everything went through. |
| JoinPair.BuildJoined | dq-engine/join_pair_materialization_worker.py:162-208 | The joined dataset is built iff the contract holds, the steps up to there succeed and every join key is a column of its dataset. |
| JoinPair.Stage.WriteJoined | dq-engine/join_pair_materialization_worker.py:452-456 | The write of the output is recorded exactly when it succeeds. |
| JoinPair.Stage.JoinAndWrite | dq-engine/join_pair_materialization_worker.py:433-460 | The part inside the Spark session succeeds iff the output is built and written, and only then records the write. |
| JoinPair.Stage.Claim | dq-engine/join_pair_materialization_worker.py:507-509 | The job that arrived first moves to the head of processing. |
| JoinPair.Stage.ProcessJob | dq-engine/join_pair_materialization_worker.py:342-481 | A job succeeds iff its contract holds and every action succeeds; its next payload is handed on exactly when everything up to the push succeeds. |
| JoinPair.Stage.HandOn | dq-engine/join_pair_materialization_worker.py:457-481 | Needs the recorded write of the claimed job, which proves that its output was written; the next payload is handed on iff session end and push succeed. |
| JoinPair.Stage.ReportFailure | dq-engine/join_pair_materialization_worker.py:513-533 | A failure is reported only for a payload that names a run. |
| JoinPair.Stage.Acknowledge | dq-engine/join_pair_materialization_worker.py:534-538 | LREM takes off exactly the newest claim. |
| JoinPair.Stage.RunIteration | dq-engine/join_pair_materialization_worker.py:505-538 | One turn claims the next job in arrival order; whatever its outcome it leaves processing iff it is not the empty text and the acknowledgement goes through; what is handed on and what is reported. |
| JoinPair.PushesBounded | dq-engine/join_pair_materialization_worker.py:462-462 | Along any history there are no more pushes than claims. |
| JoinPair.PushOrigin | dq-engine/join_pair_materialization_worker.py:342-462 | Each payload handed on is the next payload of a claimed job that met its contract and whose output was written, as its turn says and as the log records before the push. |
| JoinPair.Run | dq-engine/join_pair_materialization_worker.py:505-538 | Over any number of turns, with crashes, jobs are claimed at most once and in arrival order, what is handed on is exactly what the turns deliver, in order, and processing ends empty when acknowledgements go through. |
| JoinPairFleet.SoundAlways | dq-engine/join_pair_materialization_worker.py:505-538 | Any interleaving of any number of workers with crashes keeps the accounting of jobs. |
| JoinPairFleet.FleetExactly | dq-engine/join_pair_materialization_worker.py:505-538 | In every reachable state jobs were claimed in arrival order, processing holds one copy per worker with the job in hand and one per abandoned claim, and per job pushes do not exceed writes, writes not claims and claims not enqueues. |
| JoinPairFleet.AbandonedStays | dq-engine/join_pair_materialization_worker.py:505-538 | The copy of a crashed or unacknowledged claim stays in processing for good. |
| Expectations.ConditionMeaning | dq-engine/gx_dispatch_expectations.py:476-799 | The three-valued failure condition of each row-wise kind without a value set is true iff the row violates its two-valued specification: nulls, ignore modes, strict bounds, null context columns, comparison without case, regular expressions and measures that may be missing. |
| Expectations.SetConditionMeaning | dq-engine/gx_dispatch_expectations.py:577-710 | The same for the set kinds, with the exact effect of a null in the set. |
| Expectations.FailsExactly | dq-engine/gx_dispatch_expectations.py:476-733 | For null-free sets every row-wise kind fails a row iff the row violates it. |
| Expectations.InSetFaithful | dq-engine/gx_dispatch_expectations.py:693-701 | In-set agrees with its two-valued meaning on every row iff its set holds no null. |
| Expectations.InSetForFaithful | dq-engine/gx_dispatch_expectations.py:577-618 | In-set in the context of another column, compared with case, does iff its set holds no null or no row in context can have a known value outside it. |
| Expectations.NullBecomesNone | dq-engine/gx_dispatch_expectations.py:611-617 | Compared without case, a null in the set lets the text "none" pass; it makes no difference iff there is none, a known value has that text already, or no row in context can have it. |
| Expectations.FoldTexts | dq-engine/gx_dispatch_expectations.py:611-617 | The texts that values are compared by without case. |
| Expectations.JudgeCoherent | dq-engine/gx_dispatch_expectations.py:303-849 | One expectation passes iff it adds no diagnostic, and what it adds carries its own index. |
| Evaluation.EvaluateExpectations | dq-engine/gx_dispatch_expectations.py:278-859 | The loop over all kinds, with its counters, lists and row-count cache, computes the summary of the judgements, or the first error. |
| Verdicts.EvaluatesExactly | dq-engine/gx_dispatch_expectations.py:354-804 | A suite is evaluated to the end iff each expectation has the arguments its kind needs, checked in the order of the code. |
| Verdicts.ScopedExactly | dq-engine/gx_dispatch_expectations.py:343-352 | The frame of an expectation is the rows on which its row condition is true, in order. |
| Verdicts.RowVerdict | dq-engine/gx_dispatch_expectations.py:436-817 | A row-wise expectation fails iff a column it reads is missing or a row in scope violates it. |
| Verdicts.CompoundVerdict | dq-engine/gx_dispatch_expectations.py:381-415 | Compound uniqueness passes iff the columns exist and no two rows in scope agree on all of them. |
| Verdicts.UniqueVerdict | dq-engine/gx_dispatch_expectations.py:479-480 | Uniqueness passes iff the column exists and no two rows in scope agree on it. |
| Verdicts.ProportionVerdict | dq-engine/gx_dispatch_expectations.py:679-692 | The share of known values passes iff their count lies within the bounds, strict ones included; of no rows the share is 0. |
| Verdicts.OtherVerdicts | dq-engine/gx_dispatch_expectations.py:417-441 | A query comparison passes iff its outcome says so; an unknown kind never passes. |
| Verdicts.IdentifierExactly | dq-engine/gx_dispatch_expectations.py:207-217 | A row has an identifier iff all its primary key fields are known: name and value of each, joined by bars. |
| Verdicts.DiagnosticsExactly | dq-engine/gx_dispatch_expectations.py:818-849 | A failed row-wise expectation has one diagnostic per failing row with a known key, in order, or a single one without a key. |
| Verdicts.MissingDiagnostics | dq-engine/gx_dispatch_expectations.py:449-470 | A missing column has one diagnostic; it carries the key of the first row in scope only for the column of the expectation itself. |
| Evaluation.SummaryMeaning | dq-engine/gx_dispatch_expectations.py:303-859 | The counter of passed ones counts exactly the expectations that passed, passed plus failed is their number, an index has a diagnostic iff it failed, and the flag is true iff there is no diagnostic. |
| Evaluation.JudgedWith | dq-engine/gx_dispatch_expectations.py:292-296 | Each judgement is made with the size of the first frame that asked for a count under the same identity. |
| Verdicts.UsedCountExactly | dq-engine/gx_dispatch_expectations.py:292-296 | That size in terms of the identities alone: the whole frame, the first frame of the same identity that was asked for, or the own one. |
| Evaluation.CountsRightExactly | dq-engine/gx_dispatch_expectations.py:292-296 | Every expectation that asks is told the size of its own frame iff any two frames that ask under one identity have the same size. |
| Evaluation.RecordedExactly | dq-engine/gx_dispatch_expectations.py:806-817 | A recorded number of checked rows is that first size; all reported sizes are right iff those sizes agree. |
| Evaluation.RowCountVerdict | dq-engine/gx_dispatch_expectations.py:354-379 | A row-count expectation is judged by that first size, and by its own frame's when the sizes agree. |
| Evaluation.JudgedAlone | dq-engine/gx_dispatch_expectations.py:292-296 | When the sizes agree, each judgement is the one made with the true size of its frame. |
| Evaluation.FailedIffViolated | dq-engine/gx_dispatch_expectations.py:463-827 | A row-wise expectation is marked failed iff a column is missing or some in-scope row violates it. |
| Evaluation.RecordedCounts | dq-engine/gx_dispatch_expectations.py:806-817 | When the sizes agree, a recorded result counts the violating rows, failed plus succeeded is checked, and checked plus filtered-out is the total. |
| Evaluation.RecordedFailures | dq-engine/gx_dispatch_expectations.py:806-817 | A null-free row-wise expectation then records the violating rows as failed and the others as succeeded. |
| Evaluation.StaleCountExample | dq-engine/gx_dispatch_expectations.py:292-296 | Two frames with one identity give a negative number of succeeded records. |
| Results.DiagnosticsByIndex | dq-engine/gx_dispatch_results.py:48-105 | The index dictionary holds each index's diagnostics in order. |
| Results.EvaluatedByIndex | dq-engine/gx_dispatch_results.py:48-105 | The dictionary of evaluated results holds the last result of each index. |
| Results.BuildRuleResults | dq-engine/gx_dispatch_results.py:48-105 | One entry per expectation, in order, from its own diagnostics and result. |
| Results.EntryVerdict | dq-engine/gx_dispatch_results.py:48-105 | A rebuilt entry carries its expectation's verdict and diagnostics, also for kinds that record no result. |
| Results.EntryCounts | dq-engine/gx_dispatch_results.py:69-102 | A rebuilt entry has the checked, failed, succeeded and filtered-out counts that its expectation recorded; without a record it has only the size of the whole frame. |
| Results.RebuiltSummary | dq-engine/gx_dispatch_results.py:108-137 | As many entries are "passed" as the evaluator counted. |
| Results.RebuiltCounts | dq-engine/gx_dispatch_results.py:48-137 | When the sizes agree, a recorded entry is about its own frame, failed plus succeeded is checked and checked plus filtered-out is the total. |
| Results.RebuiltFailures | dq-engine/gx_dispatch_results.py:69-102 | Then the failed records of a null-free row-wise entry are the violating rows of its frame, and the succeeded ones all others. |
| Progress.RoundHalfEven | dq-engine/dq_plan_execution_api.py:120-122 | The nearest integer, ties to even. |
| Progress.PercentMonotone | dq-engine/dq_plan_execution_api.py:110-128 | However the two floating-point operations round, a larger number of completed steps never gives a smaller percentage. |
| Progress.PercentEnds | dq-engine/dq_plan_execution_api.py:110-128 | No step done is 0 and all steps done is 100. |
| Progress.PercentNear | dq-engine/dq_plan_execution_api.py:110-128 | The percentage is the share of completed steps to within half a point and the errors of the two operations. |
| Progress.PercentOutside | dq-engine/dq_plan_execution_api.py:110-128 | Without steps or before the first it is 0, from the last on it is 100. |
| Progress.StepsClimb | dq-engine/gx_dispatch_dispatch.py:131-324 | One report per step stays in 0..100 and never goes back, wherever the run stops. |
| Progress.ProgressClimbs | dq-engine/gx_dispatch_dispatch.py:131-324 | The percentages of a completed run stay in 0..100, never decrease, start at 0 and end at 100. |
| GroupedDispatch.RunSuite | dq-engine/gx_dispatch_dispatch.py:247-300 | A suite is evaluated iff it is attached to the target and returns; its result is ok iff every expectation passes. |
| GroupedDispatch.RunBatch | dq-engine/gx_dispatch_dispatch.py:188-311 | A batch runs iff it names a target, its dataset can be read and its suites, at least one, all run; its result is ok iff every suite is, and its diagnostics are theirs, tagged. |
| GroupedDispatch.RunGrouped | dq-engine/gx_dispatch_dispatch.py:96-397 | The run reports its end iff there are batches that all run, locations and session are there and every progress report gets through; the status is then "succeeded" iff every suite of every batch is ok, suite_count is the sum over batches, and the diagnostics are all those collected. Wherever it stops, the percentages sent never went back. |
| GroupedDispatch.RunBatches | dq-engine/gx_dispatch_dispatch.py:181-397 | The same for the loop over the batches and the final report. |
| GroupedDispatch.SuccessIsSilent | dq-engine/gx_dispatch_dispatch.py:340-397 | A succeeded run has collected no diagnostic, so the empty list it reports loses nothing. |
| GroupedDispatch.TagOrigin | dq-engine/gx_dispatch_dispatch.py:181-311 | The collected diagnostics are exactly those of the suites, each with the target and the suite that produced it. |
| Streaming.BoundedExtends | dq-engine/trino_executor.py:151-178 | Taking what fits of the next batch extends the bounded sample of the rows so far. |
| Streaming.ExecuteQuery | dq-engine/trino_executor.py:151-178 | However the rows are batched: the first min(n, limit) rows, the count n, truncated iff n exceeds the limit. |
| Streaming.BuildErrorManagementPlan | dq-engine/spark_expectations_execution_adapter.py:677-723 | The same bounded sample, with the number of chunks; rejected iff a limit is not allowed. |
| Streaming.ChunksIsCeiling | dq-engine/spark_expectations_execution_adapter.py:677-723 | The number of chunks is n divided by the chunk size, rounded up. |
| Kafka.Normalize | dq-engine/kafka_client.py:210-245 | A record is accepted iff its metadata is an object or missing, each required field is given under one of its keys and its time is ISO-8601; each field then comes from its snake-case key unless that is empty, and likewise the metadata. |
| Kafka.NormalizeIdempotent | dq-engine/kafka_client.py:210-245 | Normalizing a normalized record changes nothing. |
| Kafka.NormalizeAll | dq-engine/kafka_client.py:139-139 | All records are normalized, each to its own image, iff each of them can be. |
| Kafka.Publisher.FlushBatch | dq-engine/kafka_client.py:188-205 | The batch and its byte count are emptied; what was sent stays sent. |
| Kafka.Publisher.SendOne | dq-engine/kafka_client.py:141-174 | An accepted record is sent with its key and the sizes of the batch it joins; the batch is flushed iff one of the limits is reached. |
| Kafka.Publisher.PublishViolations | dq-engine/kafka_client.py:133-174 | One invalid record means nothing of the call is sent; otherwise the images of exactly the accepted records are, in order. |
| Kafka.Publisher.RunAll | dq-engine/kafka_client.py:133-205 | Over every sequence of publishes, send errors and flushes, tracked bytes are the size of the batch, the batch is what was sent since the last flush and below both limits, and the topic holds exactly what was accepted. |
| Drafts.TargetKeyInjective | dq-llm/entrypoint.py:1819-1821 | Different targets have different keys. |
| Drafts.TargetKeyExactly | dq-llm/entrypoint.py:1819-1821 | The key of a target is "target_" and its number, counted from 1. |
| Drafts.FillsExactly | dq-llm/entrypoint.py:1585-1593 | Keys are filled in iff there is one definition per target and none has a key but spaces. |
| Drafts.FillKeys | dq-llm/entrypoint.py:1584-1593 | Keys are filled in by position iff all are missing and there are as many definitions as targets. |
| Drafts.ValidateDraftPayload | dq-llm/entrypoint.py:1579-1616 | Validation succeeds iff the keys of the definitions are the keys of the targets, each once, and returns each definition under its key. |
| Drafts.BundleIsPermutation | dq-llm/entrypoint.py:1897-1900 | The bundle is a rearrangement of the definitions with exactly one per target, in target order, each under its own key. |
| Drafts.FilledInOrder | dq-llm/entrypoint.py:1584-1593 | Definitions without any key are accepted and taken in the order given, each unchanged but for its key. |
| Polling.FewContinue | dq-airflow-sdk/app/airflow_sdk.py:302-323 | A poll that goes on waiting is among the first ceil(timeout/interval). |
| Polling.CeilDivExactly | dq-airflow-sdk/app/airflow_sdk.py:302-323 | The bound is the number of intervals that just covers the timeout. |
| Polling.WaitForRunCompletion | dq-airflow-sdk/app/airflow_sdk.py:302-323 | Waiting polls at least once and at most ceil(timeout/interval)+1 times, stops at the first poll that ends it, and returns only when that poll read "succeeded". |

## Left out

- Literals other than null, booleans, integers and strings: floats and dates do not print injectively.
- Reserved words as plain identifiers: the reader is positional, so an unquoted `select` reads as a name.
- Case folding beyond ASCII, in operators, join types and comparisons without case.
- Trino compatibility checks, aggregate, HAVING and query rules: table lookups and string assembly.
- Spark predicates for contains, prefixes, lengths and regular expressions, which Trino lowering does not share.
- EvaluateExpectations: does not interpret what a regular expression matches, how a text becomes a timestamp or how a difference is compared with a limit; they are functions given with the expectation.
- QueryMatch: the outcome of a query comparison is a parameter.
- Row conditions are condition trees; building them from text is not modelled. Nested row fields in primary keys are not modelled.
- Thresholds, rule identifiers and messages in rule results: copied fields.
- Progress: the rounding of floating-point operations is any order-keeping function that is exact on 0, 1 and 100.
- Redis: LREM, RPOPLPUSH and LPUSH either apply atomically or raise without effect; BRPOPLPUSH may also apply and raise, which leaves its message claimed by nobody. Heartbeat and back-off are not modelled.
- Queue steps: processing a message has an arbitrary outcome, except that it cannot return for a message that is not a JSON object; a failure to obtain a token is an error without a failure code.
- Report delivery: `report_run` is asynchronous and called without await at dq-engine/gx_dispatch_dispatch.py:348; the model is about the values reported.
- Grouped runs: resolving locations, creating a session, reading datasets and sending progress reports are outcomes of the surroundings (a suite comes with its frame); suite envelopes and the single-object and join-pair dispatch paths are not modelled.
- Join-pair stage: location parsing, the actuality pre-filter and the join itself are outcomes of the surroundings, and only the failure codes of the early checks are modelled; with several workers a turn is its claim, write, push and acknowledgement.
- Kafka: the ISO-8601 check and the serialized size are parameters, timestamps are not modelled, field values are text, and the limits are positive.
- Drafts: the body of a definition is opaque, and merging it with its target is not modelled.
- Polling: the clock advances by at least the interval per sleep, and times are real numbers.
- HTTP, S3, Spark and Trino clients, configuration, telemetry, authentication, prompts and scripts.
