# Decision engines of the API gateway, in Dafny

The gateway simulates an API-management service. Around its HTTP shell it has a number of
decision engines that keep state across requests or transform a structure. This project
models those engines and proves what they are for, on every input or over every run.

Throughout, a component comes in up to three layers:

- a *specification* of the operation on values (`Apply`, `Choose`, `ParseStatement`, `Step`, ...);
- a *class or method* in the form of the source (loops over positions, dictionaries and lists
  updated in place), proved to compute the specification;
- *theorems* that connect the specification with an independent account of the same thing: a
  complete log, a grammar, a family of queues, an order of recency, a printer.

| files | engine |
|---|---|
| `CSharpScanner`, `CSharpText`, `CSharpTernary`, `CSharpParser`, `CSharpBraces`, `CSharpPrinter`, `CSharpReturns`, `CSharpPaths` | the front end for C# policy expressions |
| `RoundRobin`, `BackendPool`, `CircuitBreaker`, `HealthStore` | backend pools |
| `PolicyInheritance` | policy inheritance, in both of its implementations |
| `TimeLog`, `SlidingWindow`, `RateLimiter`, `QuotaWindow`, `QuotaLedger`, `QuotaKeeper`, `TokenBudget` | throttling |
| `Broker`, `BrokerLedger`, `BrokerStore` | the local message broker |
| `SchemaGraph`, `SchemaReferences` | the recursion check on imported schemas |
| `TlsClientPool`, `TlsClientRuns`, `TlsClientCache` | the TLS client cache |
| `Monitoring`, `MonitoringStore` | metrics windows and alert rules |
| `ApiRevisions`, `ApiRecord` | API revisions and releases |

`dafny verify dfyconfig.toml` checks everything.

## Where the code does not do what one would expect

Each of these has a lemma at an input and a theorem with the exact condition under which the
code does meet the expectation.

- **A stray closing brace hangs the expression parser.** At top level the statement parser
  consumes nothing at a `}` and the sequence loop calls it again (`CSharpParser.StuckExactly`).
  By the brackets alone: no well-bracketed text hangs, and a closing brace behind a
  well-bracketed text is never passed (`CSharpBraces`). `return 1;}` hangs
  (`CSharpPrinter.ReturnBraceHangs`), as does every printable program with a brace too many.
- **A statement that starts with the letters `else` behind an `if` is taken for its `else`
  branch**, as in an assignment to `elsewhere`, because no word boundary is asked for
  (`CSharpPrinter.ElseTakesPrefix`). Likewise `if_count` is taken for the keyword
  (`CSharpParser.KeywordExamples`). Leaves that do not start so are read as they are
  (`ParseUndoesPrint`).
- **The two inheritance implementations differ when one scope has two documents with the same
  section**, although `app/policy_inspection.py:1` says they share inheritance: the XML merge
  concatenates the documents, the run-time resolution keeps the last one unless it has a base
  marker. `PolicyInheritance.AgreementExact` shows this is the only reason, and
  `SharedSectionDisagrees` builds the differing contents.
- **Retry-After is too short, or promises room that never comes.** It looks only at the oldest
  entry, while an increment may need several to leave, and one above `calls`, which is
  accepted, never fits. `SlidingWindow.RetryAfterExactIff` has the condition for one bucket and
  `RetryAfterExact` for runs with a constant increment: exact if and only if the increment is
  at most `calls`. `RetryAfterTooShort` and `IncrementNeverFits` are the inputs.
- **Two rules with one key can overshoot**: each charge is checked on its own before any is
  made. `SlidingWindow.WindowBoundExact` says when the window bound holds: if and only if every
  admitted call left room for the sum of what it charges to the key. `SharedKeyOvershoots` is an
  input; calls with distinct keys always meet the condition (`WindowBound`).
- **Two quota rules with one key can overshoot** in the same way: `QuotaLedger.QuotaBoundExact`
  has the condition, `SharedQuotaOvershoots` an input, and `QuotaBounds` the bounds for calls
  with distinct keys.
- **Overlapping token calls overshoot** by more than one call. `TokenBudget.OvershootExact` says
  when the bound holds: if and only if no call finds, when it is charged, more than the budget
  charged already. `OverlapOvershoots` is an input; calls that do not overlap meet the condition
  (`OvershootByLastCall`).
- **An edit of the current revision that says it is not current is lost**: the snapshot is
  overwritten with the live definition. `ApiRevisions.RevisionWriteStores` has the exact
  condition and `EditLost` a run.
- **A fired rule that is removed and put back reports Fired twice**, without Resolved between.
  `Monitoring.AlternateExact`: alerts alternate if and only if no evaluation fires a rule after
  one dropped it while fired. `RemovalForgets` and `FiredTwice` give the runs.

## Modelling decisions

- Time is `real`; theorems about runs assume a clock that does not go back.
- Every lemma turns automatic induction off; an induction is in the body.
- A leaf expression is opaque. Its evaluation is an oracle that may read and change the
  locals and may raise.
- A dictionary or list that the source mutates is a `map` or `seq` field that the methods
  reassign.
- The default of a missing dictionary entry is part of `EntryOf`, `Bucket` or `Get`, so that
  reading an entry, which creates it in the source, does not change the modelled decisions.
- A quota rule has an optional configured anchor (`first`). The quota policy always leaves it
  out, so its anchor is the first use; the window theorems hold for either.
- Configurations (`calls` and period per key, breaker per backend) are fixed per key during a run.

## Model

| member | source | states |
|---|---|---|
| CSharpScanner.ScanAfter | app/apim_expr.py:499-505 | a scanner that crosses a text scans what follows it as if it started there: literals and escapes never leak state |
| CSharpScanner.StopsFirst | app/apim_expr.py:653-667 | nothing in front of the stopping point would have stopped the scanner |
| CSharpScanner.FindTopLevelQuestion | app/apim_expr.py:653-667 | the loop over positions finds the first question mark outside literals and brackets, or none |
| CSharpScanner.FindTernaryColon | app/apim_expr.py:670-688 | the loop finds the colon that pairs with the question mark, counting nested conditionals, or none |
| CSharpScanner.BalancedEnd | app/apim_expr.py:841-859 | the loop finds the closing parenthesis of the one at `start`, or reports it unclosed |
| CSharpScanner.SimpleStatementEnd | app/apim_expr.py:884-902 | the loop ends at the first semicolon or closing brace outside literals and brackets, or at the end of the text, one past it after an open escape |
| CSharpText.QuestionCrosses | app/apim_expr.py:642-667 | any well-bracketed text without a top-level question mark is skipped by the search for one, with the bracket levels restored |
| CSharpText.ColonCrosses | app/apim_expr.py:670-688 | over any well-bracketed text the colon search changes its nesting by exactly the conditionals the text leaves open |
| CSharpText.ParenCrosses | app/apim_expr.py:841-859 | the parenthesis search skips any well-bracketed text and comes back to its depth |
| CSharpText.StatementCrosses | app/apim_expr.py:884-902 | the statement-end search skips any well-bracketed text without a top-level semicolon |
| CSharpTernary.FindTernaryParts | app/apim_expr.py:691-698 | the two searches cut the text as the specification `PartsOf` does, with the missing colon as an error |
| CSharpTernary.PartsRejoin | app/apim_expr.py:691-698 | the three parts joined by `?` and `:` are the text again, and the condition has no further top-level question mark |
| CSharpTernary.TranslateReads | app/apim_expr.py:701-708 | every accepted text is the C# text of some fully split conditional tree whose Python text is the output: nothing lost, added or reordered |
| CSharpTernary.TranslateTree | app/apim_expr.py:701-708 | at every nesting depth the C# text of a tree of well-bracketed atoms is rewritten to exactly the Python text of the same tree |
| CSharpParser.StatementProgress | app/apim_expr.py:862-902 | the statement parser never loops, and consumes more than whitespace if and only if the next character is not a closing brace |
| CSharpParser.NestedNotStuck | app/apim_expr.py:905-916 | inside braces the sequence loop ends on every text |
| CSharpParser.StuckExactly | app/apim_expr.py:905-916 | at top level the sequence loop hangs if and only if a statement is expected where a closing brace stands |
| CSharpBraces.StatementLeads | app/apim_expr.py:862-902 | what a statement leaves of a well-bracketed text, up to the end or to a brace it does not open, is well-bracketed |
| CSharpBraces.NestedLeads | app/apim_expr.py:905-916 | a nested sequence that parses ends exactly at the brace that closes it |
| CSharpBraces.WellBracketedEnds | app/apim_expr.py:905-916 | no well-bracketed text hangs the parser |
| CSharpBraces.StrayBraceNeverPassed | app/apim_expr.py:895-916 | a closing brace behind a well-bracketed text is never passed: the parser hangs there unless a syntax error came first |
| CSharpBraces.UnclosedBlockFails | app/apim_expr.py:905-916 | a block that is not closed is a syntax error, whatever well-bracketed text is in it |
| CSharpBraces.ConditionMissingFails | app/apim_expr.py:864-867 | an `if` without a parenthesis behind it is a syntax error |
| CSharpBraces.UnclosedConditionFails | app/apim_expr.py:841-868 | so is one whose condition is not closed |
| CSharpBraces.StrayCloserHides | app/apim_expr.py:642-667 | behind a closing parenthesis or bracket that opens nothing, text without brackets has no end of statement and no conditional operator |
| CSharpParser.SkipSpaceAt | app/apim_expr.py:835-838 | the position loop drops exactly the leading whitespace |
| CSharpParser.StatementAt | app/apim_expr.py:862-881 | the position-based statement parser gives the tree and position of the specification, or its error |
| CSharpParser.SimpleAt | app/apim_expr.py:880-881 | a simple statement is the stripped text up to its end, with one semicolon consumed |
| CSharpParser.StripExact | app/apim_expr.py:880-881 | stripping takes whitespace off both ends, and all of it |
| CSharpParser.IfAt | app/apim_expr.py:864-876 | the keyword and the parenthesised condition of an `if`, with both syntax errors |
| CSharpParser.BranchesAt | app/apim_expr.py:869-876 | the branches of an `if`, a single statement wrapped into a block |
| CSharpParser.SequenceAt | app/apim_expr.py:905-916 | the statement loop computes the specified sequence, the missing brace being an error, on every text without a stray brace |
| CSharpPrinter.StmtRound | app/apim_expr.py:862-881 | one printed statement, with or without braces around its branches and a semicolon at its end, parses back to itself and leaves exactly what is behind it |
| CSharpPrinter.SequenceRound | app/apim_expr.py:905-916 | a printed sequence, nested or not, parses back to itself and stops behind its closing brace |
| CSharpPrinter.ParseUndoesPrint | app/apim_expr.py:835-916 | parsing the printed text of any printable program returns that program and uses the whole text, with any whitespace chosen for each token, single-statement branches with or without braces, and last semicolons written or not |
| CSharpPrinter.BranchRound | app/apim_expr.py:869-876 | a branch parses to a block of its body, or, without braces, to its single statement |
| CSharpPrinter.LeafOpen | app/apim_expr.py:884-902 | a simple statement at the end of a program or block needs no semicolon |
| CSharpPrinter.ElseTakesPrefix | app/apim_expr.py:872-874 | behind an `if`, a leaf that starts with the letters `else` is taken for an `else` branch |
| CSharpPrinter.StrayBraceHangs | app/apim_expr.py:895-916 | every printable program followed by a closing brace too many hangs the parser |
| CSharpPrinter.ReturnBraceHangs | app/apim_expr.py:895-916 | the text `return 1;}` hangs the parser |
| CSharpReturns.GuaranteesHold | app/apim_expr.py:1014-1023 | a sequence that the check accepts cannot fall through, under any oracle and any locals |
| CSharpReturns.FindFall | app/apim_expr.py:1014-1023 | for a rejected sequence, condition outcomes under which it falls through, extending any outcomes already used |
| CSharpReturns.ReturnCheckExact | app/apim_expr.py:1014-1034 | the check accepts if and only if no execution falls off the end |
| CSharpPaths.RunIsPath | app/apim_expr.py:972-1011 | a run is the walk along the path of leaves and tests that its condition outcomes select, true taking the first branch and false the second or none: some outcomes select a path it does not leave, and along every such path it evaluates the same things in order and ends the same way |
| CSharpPaths.FirstReturn | app/apim_expr.py:972-977 | the value of a walk is that of the first return on its path, and a walk that falls through has none |
| CSharpReturns.Execute | app/apim_expr.py:972-1011 | the loop over statements with its locals computes the specified execution: the first return or raise ends it |
| CSharpReturns.EvaluateMultistatement | app/apim_expr.py:1026-1037 | the whole evaluation; the fallback error behind the execution is never produced |
| RoundRobin.WalkIsNext | app/backend_pool.py:113-126 | the walk takes the next available slot at or behind the cursor, else the first, and fails if and only if no slot is available |
| RoundRobin.PicksInOrder | app/backend_pool.py:113-126 | repeated walks visit the available slots in cyclic order from the cursor |
| RoundRobin.FullTurn | app/backend_pool.py:113-126 | as many walks as there are available slots visit each of them exactly once, from any cursor |
| BackendPool.ChooseInSpec | app/backend_pool.py:113-126 | a group yields a member with a closed circuit, or nobody if and only if it has none |
| BackendPool.RotateSpec | app/backend_pool.py:113-126 | groups are tried in priority order; a later one is used only when no earlier one has a closed circuit |
| BackendPool.SelectionSound | app/backend_pool.py:95-126 | a selection, affinity included, is a configured member with a closed circuit, by rotation from the best usable priority; nobody if and only if no configured member is closed |
| BackendPool.SelectionsArePicks | app/backend_pool.py:95-126 | while the open circuits stay fixed, the selections that do not stick to their session are successive picks of the rotation from the stored cursor, whatever sticky selections come between |
| BackendPool.NamesByWeight | app/backend_pool.py:115-118 | the closed slots of a schedule name each backend as often as the pool's entries for it weigh, an entry below one weighing one |
| BackendPool.ScheduleFollowsPool | app/backend_pool.py:115-118 | the schedule of a group lists the pool's configured entries of that priority in pool order, each as often as its weight, or once |
| BackendPool.FreshPool | app/backend_pool.py:113-125 | with nothing recorded the first selection is the first slot of the first group |
| BackendPool.Fairness | app/backend_pool.py:95-126 | exact fairness, in pools with and without affinity: one full turn of selections by rotation returns each closed backend exactly as often as the pool's configured entries for it at the first usable priority weigh, and no other |
| CircuitBreaker.RecordKeepsStep | app/backend_pool.py:72-92 | one result keeps the pruned entry in step with the complete log |
| CircuitBreaker.BreakerExact | app/backend_pool.py:72-92 | over every run a failure trips the circuit if and only if the failures of the complete log since the last success or trip that lie in the interval, with this one, are at least `failure_count`; `open_until` is that of the latest trip |
| CircuitBreaker.NoSelectionBeforeTripEnds | app/backend_pool.py:72-126 | after every run no selection, affinity included, returns a member before its latest trip ends, and nobody is returned if and only if the latest trip of every configured member has not ended |
| HealthStore.Store.constructor | app/backend_pool.py:64-69 | the health dictionary starts empty |
| HealthStore.Store.EntryFor | app/backend_pool.py:64-69 | an entry is returned, and created with its defaults when missing; no other entry changes |
| HealthStore.RecentFailures | app/backend_pool.py:85-85 | the filter loop keeps exactly the failures after the cutoff, in order |
| HealthStore.Store.RecordResult | app/backend_pool.py:72-92 | the stored entry becomes that of the specification and no other changes |
| HealthStore.Store.Select | app/backend_pool.py:95-126 | the selection of the specification, with only the cursor of the chosen group moved |
| HealthStore.Store.SelectInTurn | app/backend_pool.py:113-126 | the loop over the priority groups |
| HealthStore.Store.WalkSchedule | app/backend_pool.py:119-125 | the inner loop finds the first closed slot from the cursor and changes no entry |
| PolicyInheritance.GroupResolves | app/effective_policy.py:46-75 | a scope with one source of the section is merged as the run-time resolution resolves it |
| PolicyInheritance.ImplementationsAgree | app/effective_policy.py:46-102 | for every stack of scopes in which at most one document per scope has the section, the merged section is the run-time section without its labels |
| PolicyInheritance.AgreementExact | app/policy_inspection.py:1-1 | given which documents have the section, both implementations agree on all contents if and only if no scope has two such documents |
| PolicyInheritance.SharedSectionDisagrees | app/effective_policy.py:64-75 | contents on which they differ, for every stack in which some scope has two documents with the section |
| PolicyInheritance.MergePrefixFirst | app/effective_policy.py:78-102 | merging any prefix of the stack first gives the same result |
| PolicyInheritance.MergedBaseFree | app/effective_policy.py:46-61 | a merged section has no base marker at any depth |
| PolicyInheritance.StepsKeepScope | app/policy.py:6476-6506 | every effective step is an authored one, labelled with the scope of its document |
| PolicyInheritance.StepMultiplicity | app/policy.py:6476-6506 | an authored step appears exactly as often as the product of the base counts of the later documents with its section |
| PolicyInheritance.ReplaceBaseSteps | app/policy.py:6476-6484 | the loop replaces each base marker by the parent's steps and labels the rest |
| PolicyInheritance.EffectiveSectionSteps | app/policy.py:6487-6506 | the loop over the documents computes the run-time resolution |
| PolicyInheritance.MergeSectionChildren | app/effective_policy.py:46-61 | the loop over the children computes the merge, a base marker below a child being an error |
| PolicyInheritance.MergeFailsExactly | app/effective_policy.py:37-43 | a section is refused if and only if some child has a base marker below it, at any depth |
| PolicyInheritance.MergePolicyScopes | app/effective_policy.py:78-94 | the nested loops produce all four sections of the merged document, and fail only if some section cannot be merged |
| SchemaGraph.PathMovesBack | app/openapi_import.py:148-157 | in the order in which the search finishes names, every path of references goes strictly backwards |
| SchemaGraph.TopologicalIsAcyclic | app/openapi_import.py:139-160 | a graph whose names are all finished has no cycle |
| SchemaGraph.Search.constructor | app/openapi_import.py:144-146 | the search starts with nothing visiting and nothing visited |
| SchemaGraph.Search.Visit | app/openapi_import.py:148-157 | a visit ends with the name finished and the rest of the colours as before, or there is a cycle; it always terminates |
| SchemaGraph.CheckGraph | app/openapi_import.py:139-160 | the search accepts a finite graph if and only if it has no cycle, self-references included, in whatever order names are visited |
| SchemaReferences.ResolveExact | app/openapi_import.py:110-123 | a reference resolves to a name if and only if it is `#/` with the segments of one of the three places and one more that decodes to the name, and there is such a schema |
| SchemaReferences.ResolveEncoded | app/openapi_import.py:120-123 | every schema can be referred to, whatever its name: decoding undoes the escapes of section 4 of RFC 6901 |
| SchemaReferences.RefsExact | app/openapi_import.py:126-136 | the collected edges are exactly the targets of the references anywhere inside the value; collection fails if and only if one does not resolve |
| SchemaReferences.GraphIsReferences | app/openapi_import.py:139-146 | the graph has a cycle if and only if the schemas refer to themselves through references |
| SchemaReferences.ValidateSchemas | app/openapi_import.py:139-160 | a schema set is accepted if and only if every schema is an object, every reference in it resolves and none is recursive |
| SlidingWindow.CheckDecides | app/policy.py:1166-1197 | checking the rules one after another on pruned buckets refuses if and only if the complete logs leave some rule no room |
| SlidingWindow.RefusesFirst | app/policy.py:1172-1197 | a refusal names the first rule that the complete log leaves no room |
| SlidingWindow.RunAgrees | app/policy.py:1530-1535 | over every run pruning has removed only admissions that no later window reaches |
| SlidingWindow.DecidesAsLog | app/policy.py:1166-1213 | after every run the pruned store admits a call if and only if the complete log would |
| SlidingWindow.RunSpaced | app/policy.py:1166-1209 | when every admitted call left room for all it charges to the key, any `calls + 1` consecutive units of its log span at least a period |
| SlidingWindow.WindowBoundExact | app/policy.py:1166-1209 | over every run, every window of a rule is within its limit if and only if every admitted call left room for the sum of its charges to the rule's key |
| SlidingWindow.DistinctFits | app/policy.py:1166-1213 | calls that charge distinct keys always leave that room |
| SlidingWindow.WindowBound | app/policy.py:1166-1209 | over every run every window `(t - period, t]` holds at most `calls` admitted units, for the root and every nested rule with a key of its own |
| SlidingWindow.ChargesAllOrNone | app/policy.py:1166-1209 | a refusal charges no rule; an admission charges every rule its units |
| SlidingWindow.SharedKeyOvershoots | app/policy.py:1166-1209 | a run in which two rules on one key break the window bound |
| SlidingWindow.RetryAfterExactIff | app/policy.py:1538-1544 | for every refusing bucket and increment, the advertised wait is the least sufficient one if and only if enough entries can leave and the last that has to does so within it; more units than `calls` never fit |
| SlidingWindow.RetryAfterExact | app/policy.py:1919-1983 | over every run with a constant increment, Retry-After is the least whole number of seconds after which the refusing rule has room (delay-seconds, section 10.2.3 of RFC 9110) if and only if the increment is at most `calls` |
| SlidingWindow.AdvertisedExact | app/policy.py:1172-1197 | the wait a refusal advertises, from the bucket the refusal leaves behind, is that exact one, under the same condition |
| SlidingWindow.RetryAfterTooShort | app/policy.py:1960-1982 | a run with increments 1, 2 and 2 that is told to wait 40 seconds and has no room then |
| SlidingWindow.IncrementNeverFits | app/policy.py:1364-1372 | an accepted increment above `calls` is refused with a finite wait and never fits |
| RateLimiter.Limiter.constructor | app/policy.py:1514-1520 | the store starts empty |
| RateLimiter.Limiter.PrunedBucket | app/policy.py:1514-1535 | the bucket of a key is created when missing and pruned in place; no other changes |
| RateLimiter.Limiter.ApplyRateLimit | app/policy.py:1166-1209 | the two loops decide and charge as specified; a refusal carries the refusing rule, its remaining calls and its wait |
| RateLimiter.Limiter.ApplyByKey | app/policy.py:1919-1983 | the keyed limit with a known increment; without an increment it only prunes |
| QuotaWindow.WindowsTile | app/policy.py:1694-1737 | from the anchor on, every time lies in exactly one window |
| QuotaWindow.IntervalMeetsTwo | app/policy.py:1694-1737 | an interval as long as a period meets at most two windows |
| QuotaWindow.ChargesAllOrNone | app/policy.py:1223-1255 | a refused call counts under no key, an admitted one under every key that counts calls |
| QuotaLedger.TouchHolds | app/policy.py:1694-1737 | bringing an entry to the current window gives it exactly the counts of that window |
| QuotaLedger.RunSound | app/policy.py:1223-1255 | over every run of calls and finalizations, rules that share a key included, each stored entry holds the counts of its window of the complete logs |
| QuotaLedger.DecidesAsLog | app/policy.py:1223-1255 | a call is decided by the stored counts as by the complete logs |
| QuotaLedger.QuotaBoundExact | app/policy.py:1223-1255 | over every run no window of a key holds more than `calls` if and only if every admitted call left room for all the rules that count under the key |
| QuotaLedger.DistinctFits | app/policy.py:1223-1259 | calls whose rules have distinct keys always leave that room |
| QuotaLedger.SharedQuotaOvershoots | app/policy.py:1223-1255 | a call under two rules with one key counts twice where one call was left |
| QuotaLedger.QuotaBounds | app/policy.py:1223-1255 | over every run of calls with distinct keys no window admits more than `calls`, no interval of one period more than twice that, and a quota without renewal no more than `calls` in all |
| QuotaKeeper.Keeper.constructor | app/policy.py:1694-1737 | the store starts empty |
| QuotaKeeper.Keeper.WindowState | app/policy.py:1694-1737 | the entry of a key is created, rolled to the current window or kept; no other changes |
| QuotaKeeper.Keeper.ApplyQuota | app/policy.py:1223-1255 | the two loops decide and charge as specified, a negative period being an error |
| QuotaKeeper.Keeper.FinalizeQuota | app/policy.py:1741-1762 | bandwidth is charged to the window of the response |
| TokenBudget.RunAgrees | app/policy.py:2293-2296 | over every run pruning has removed only charges that no later minute reaches |
| TokenBudget.DecidesAsLog | app/policy.py:2487-2516 | a call is admitted by the pruned bucket if and only if the tokens of the last sixty seconds of the complete log leave room for its estimate, or without one are below the limit |
| TokenBudget.NoLimit | app/policy.py:2487-2500 | without a positive limit every call is admitted and nothing is recorded |
| TokenBudget.OvershootExact | app/policy.py:2354-2363 | over every run, overlapping calls included, each minute exceeds the budget by at most the last call charged in it if and only if no call is charged when its minute is over the budget already |
| TokenBudget.OvershootByLastCall | app/policy.py:2354-2363 | when calls do not overlap, the tokens charged in any minute exceed the budget by at most those of the last call charged in it |
| TokenBudget.OverlapOvershoots | app/policy.py:2487-2516 | a run of two calls, checked before either is finalized, that breaks that bound |
| TokenBudget.Meter.constructor | app/policy.py:2285-2290 | the bucket starts empty |
| TokenBudget.Meter.PruneBucket | app/policy.py:2293-2296 | the loop drops the entries that left the minute |
| TokenBudget.Meter.CheckCall | app/policy.py:2487-2516 | the check prunes and decides as specified and charges nothing |
| TokenBudget.Meter.FinishCall | app/policy.py:2354-2363 | the finalization prunes and charges the consumed tokens |
| Broker.StepKeepsInv | app/local_pubsub.py:34-104 | every operation keeps the row bound, the id order and distinct subscriptions |
| Broker.RunKeepsInv | app/local_pubsub.py:34-104 | after every run at most 10000 rows are held, in id order, although ids are reused |
| Broker.QueuePurge | app/local_pubsub.py:48-72 | purging the table purges every queue of expired items and nothing else |
| Broker.QueueInsert | app/local_pubsub.py:48-72 | inserting rows appends to each queue one item per occurrence of its key |
| Broker.OldestIsHead | app/local_pubsub.py:86-104 | the row with the smallest id of a consumer is the head of its queue |
| Broker.QueueDelete | app/local_pubsub.py:86-104 | deleting that row by id takes the head off that queue and leaves every other alone |
| BrokerLedger.TargetsOnce | app/local_pubsub.py:48-72 | a publish to a topic targets each existing subscription once |
| BrokerLedger.EnterKeepsStep | app/local_pubsub.py:34-104 | each operation moves the table and the ledger of a consumer together |
| BrokerLedger.TableIsPending | app/local_pubsub.py:34-104 | after every run the rows of a consumer are exactly its pending copies, oldest first |
| BrokerLedger.PublishFansOut | app/local_pubsub.py:48-72 | a publish reaches exactly the queue or the subscriptions existing then, once each, with the message and the time it was sent, or changes nothing |
| BrokerLedger.ConsumeTakesOldest | app/local_pubsub.py:86-104 | a consume delivers the oldest copy that has not expired, and nothing if and only if there is none |
| BrokerLedger.PublishDecides | app/local_pubsub.py:48-72 | when a publish is refused as invalid, missing or full, each if and only if, and how many copies an accepted one makes |
| BrokerLedger.ConsumeDecides | app/local_pubsub.py:86-95 | a consume fails if and only if the queue or topic, or the subscription to the topic, does not exist |
| BrokerLedger.CreateDecides | app/local_pubsub.py:34-42 | a create is refused for a bad name and for a subscription to a topic that does not exist |
| BrokerLedger.ExistsWhenCreated | app/local_pubsub.py:34-42 | after every run exactly the queues, topics and subscriptions exist that were created, a subscription after its topic |
| BrokerLedger.NameExamples | app/local_pubsub.py:28-32 | names at the limits of what is allowed, and names beyond them |
| BrokerLedger.LedgerSound | app/local_pubsub.py:34-104 | over every run published = delivered + expired + pending, copy by copy; each copy is delivered at most once and in publish order; a copy with a time to live is delivered only before it has run out and dropped only after, one without is never dropped |
| BrokerStore.Store.constructor | app/local_pubsub.py:17-27 | the tables start empty |
| BrokerStore.Store.Create | app/local_pubsub.py:34-42 | entities and subscriptions are inserted unless present; a bad name or a subscription to a missing topic changes nothing |
| BrokerStore.Store.Publish | app/local_pubsub.py:48-72 | purge, count and insert in one transaction, rolled back when the broker is full |
| BrokerStore.Store.Consume | app/local_pubsub.py:86-104 | purge and delete of the oldest row of the consumer |
| TlsClientPool.RetireKeeps | app/certificate_security.py:296-300 | retiring a client takes exactly it out of the live ones and frees its slot |
| TlsClientPool.TrimKeeps | app/certificate_security.py:292-294 | the trimming loop restores the limit, by retiring just the first in line |
| TlsClientPool.AddKeeps | app/certificate_security.py:259-262 | a new client joins a free slot and is counted once |
| TlsClientPool.ClientForSound | app/certificate_security.py:247-266 | the invariant is kept, and the answer was built for exactly the requested slot and digest and is the most recently used |
| TlsClientPool.ClientForHit | app/certificate_security.py:247-266 | asking for a live client's slot and credentials returns that client and moves it behind the others, which keep their order; nothing is built, retired or closed and the invariant holds |
| TlsClientPool.ClientForMiss | app/certificate_security.py:247-266 | the slot's old client leaves, then the first in line if still full, and exactly those that left are retired |
| TlsClientPool.ClientForAnswers | app/certificate_security.py:224-266 | when the shared fallback is returned and when a request is refused, by the settings of the backend, each if and only if |
| TlsClientPool.PreviousLeaves | app/certificate_security.py:251-253 | what a slot had leaves, exactly the clients of that slot, and the others keep their order |
| TlsClientPool.LoadFailureRetires | app/certificate_security.py:250-254 | when the credentials of a new client do not load, the slot has lost its old client and nothing is built |
| TlsClientRuns.CloseKeeps | app/certificate_security.py:311-324 | closing one or all retired clients keeps the invariant |
| TlsClientRuns.IdleCloses | app/certificate_security.py:311-315 | a retired client that has become idle is closed, a client in use is left alone, and nothing else changes |
| TlsClientRuns.ShutdownClosesAll | app/certificate_security.py:317-324 | after a shutdown exactly the clients ever built are closed |
| TlsClientRuns.RunKeepsInv | app/certificate_security.py:211-324 | after every run live keys and slots are in bijection, at most `max_clients` are live, and every client built is exactly one of live, retired and closed |
| TlsClientRuns.RecencyOrder | app/certificate_security.py:247-294 | after every run the live clients stand in order of their last use |
| TlsClientRuns.EvictsLeastRecent | app/certificate_security.py:292-294 | the client that leaves for a new one is the one whose last use is oldest; every other stays |
| TlsClientCache.Cache.constructor | app/certificate_security.py:214-222 | an empty cache with a limit of at least one |
| TlsClientCache.Cache.RetireClient | app/certificate_security.py:296-300 | the in-place retirement is the specified one |
| TlsClientCache.Cache.TrimCache | app/certificate_security.py:292-294 | the in-place trimming loop is the specified one |
| TlsClientCache.Cache.ClientFor | app/certificate_security.py:224-266 | the in-place checks, lookup, replacement and insertion are the specified ones and keep the invariant |
| TlsClientCache.Cache.CloseIdle | app/certificate_security.py:311-315 | a retired client that has become idle is closed once |
| TlsClientCache.Cache.Close | app/certificate_security.py:317-324 | everything ever built ends up closed |
| Monitoring.RunFaithful | app/local_monitoring.py:56-123 | over every run the pruned buckets hold, for every second that a window can still reach, the counts of the complete request log |
| Monitoring.WindowExact | app/local_monitoring.py:56-63 | the windowed count equals the number of requests of the complete log whose time is at or after the start of the window, for every window of up to 86400 seconds |
| Monitoring.PruneForgets | app/local_monitoring.py:56-59 | what pruning keeps is at most a day old |
| Monitoring.PassDecides | app/local_monitoring.py:65-87 | a pass over the rules sets each rule's state by its count and reports a change once |
| Monitoring.PassTells | app/local_monitoring.py:65-87 | every alert is about a rule, carries its count and says if that is above the threshold |
| Monitoring.EvaluateDecides | app/local_monitoring.py:65-87 | one evaluation on faithful buckets leaves fired exactly the enabled rules that the complete log puts above threshold |
| Monitoring.FiredExactly | app/local_monitoring.py:65-123 | after every run that ends with an evaluation, that of a recorded request included, the fired rules are exactly the enabled ones for which more requests than the threshold lie in the window, by their times in the complete log |
| Monitoring.EvaluateReports | app/local_monitoring.py:65-87 | an evaluation appends an alert for a configured rule if and only if its state changed |
| Monitoring.AlertsAlternate | app/local_monitoring.py:65-87 | while a rule stays configured its alerts alternate, Fired first, and the last one is its state |
| Monitoring.AlternateExact | app/local_monitoring.py:65-87 | over every run, whatever rules come and go, the alerts of a rule alternate if and only if no evaluation fires it after one dropped it while fired |
| Monitoring.FiredTwice | app/local_monitoring.py:65-87 | a run whose alerts for one rule are Fired, Fired |
| Monitoring.RemovalForgets | app/local_monitoring.py:65-87 | a rule that fires, is taken out of the configuration and is put back above its threshold reports Fired twice in a row, after any run |
| Monitoring.KeepsLastAlerts | app/local_monitoring.py:42-54 | the stored alerts are the last thousand ever appended |
| MonitoringStore.Monitor.constructor | app/local_monitoring.py:42-54 | an empty store |
| MonitoringStore.Monitor.PruneBuckets | app/local_monitoring.py:56-59 | the loop drops the buckets older than a day |
| MonitoringStore.Monitor.WindowCount | app/local_monitoring.py:61-63 | the sum over the buckets of the window |
| MonitoringStore.Monitor.EvaluateRule | app/local_monitoring.py:69-87 | one rule's turn: fired or not by its count, and an alert if that changed |
| MonitoringStore.Monitor.EvaluateRules | app/local_monitoring.py:65-87 | the loop updates fired rules and alerts as specified |
| MonitoringStore.Monitor.RecordRequest | app/local_monitoring.py:89-123 | a request is counted in its second and the rules are evaluated, the gateway's own paths excepted |
| ApiRevisions.SetCurrentKeeps | app/management_service.py:1108-1118 | promoting a revision leaves it the only one flagged and named by the API |
| ApiRevisions.SyncCompletes | app/management_service.py:82-90 | publishing makes the current revision's snapshot the live definition and changes nothing else |
| ApiRevisions.PutRevisionKeeps | app/management_service.py:751-808 | a successful revision write keeps the API coherent |
| ApiRevisions.DropRevisionKeeps | app/management_service.py:810-823 | a successful deletion keeps the API coherent |
| ApiRevisions.PutReleaseKeeps | app/management_service.py:825-840 | a successful release keeps the API coherent |
| ApiRevisions.StepKeeps | app/management_service.py:708-847 | every write keeps the API coherent |
| ApiRevisions.RunCoherent | app/management_service.py:708-847 | after every sequence of writes the API names an existing revision, only that one can be flagged current, its snapshot is the live definition, and every release names an existing revision |
| ApiRevisions.ReleasePublishesSnapshot | app/management_service.py:825-840 | a release makes live the definition its revision has stored, under the revision's name and marked current, stores that, and leaves what the other revisions have stored |
| ApiRevisions.ReleaseRoundTrip | app/management_service.py:825-840 | releasing another revision and then the old one again brings the old definition back |
| ApiRevisions.RevisionWriteStores | app/management_service.py:751-808 | a successful revision write stores the given definition if and only if its revision is not current, or stays current, or the edit changes nothing; otherwise the live definition stays |
| ApiRevisions.RevisionWriteKeeps | app/management_service.py:751-808 | a successful revision write leaves the releases and everything the other revisions have stored |
| ApiRevisions.RevisionWriteFields | app/management_service.py:781-808 | fields of the revision that are not given stay as they were, and a new revision is online |
| ApiRevisions.RevisionWriteRefused | app/management_service.py:751-780 | a revision write is refused if and only if the id is empty, the definition is not valid, or it gives a revision that is not current another identity than the live one |
| ApiRevisions.CreateMakesLive | app/management_service.py:708-740 | a new API starts with revision 1, current and online, that has stored the given definition |
| ApiRevisions.UpdateMakesLive | app/management_service.py:708-740 | an update makes the given definition live and stored for the current revision, and leaves the rest |
| ApiRevisions.ReleaseRecorded | app/management_service.py:825-840 | a release is recorded under its name if and only if its revision exists |
| ApiRevisions.ReleaseDropped | app/management_service.py:842-847 | a deleted release is gone, and nothing else changes |
| ApiRevisions.RevisionDropped | app/management_service.py:810-823 | a revision can be deleted if and only if it exists, is not current and no release names it; then it is gone, and nothing else changes |
| ApiRevisions.FailureChangesNothing | app/management_service.py:241-271 | a write that is not published changes nothing |
| ApiRevisions.EditLost | app/management_service.py:751-808 | a run in which a successful edit of the current revision is lost |
| ApiRecord.Record.constructor | app/management_service.py:63-79 | a new API gets its initial revision |
| ApiRecord.Record.SyncRevision | app/management_service.py:82-90 | the current revision's snapshot is refreshed in place |
| ApiRecord.Record.MakeCurrent | app/management_service.py:1108-1118 | the loop clears every other flag and applies the snapshot |
| ApiRecord.Record.Update | app/management_service.py:708-740 | an update of an existing API keeps its revision fields, revisions and releases |
| ApiRecord.Record.PutRevision | app/management_service.py:751-808 | the in-place revision write, a refused one changing nothing |
| ApiRecord.Record.DropRevision | app/management_service.py:810-823 | the in-place deletion, refused for the current revision and for one that a release names |
| ApiRecord.Record.PutRelease | app/management_service.py:825-840 | the in-place release, refused for a missing revision |
| ApiRecord.Record.DropRelease | app/management_service.py:842-847 | the in-place deletion of a release, refused when missing |

## Left out

- The token-bucket mode of the rate limiter, route resolution, the request pipeline and the leased TLS transport.
- Translation of expression fragments, the whitelist over Python's syntax tree and evaluation itself: leaf expressions are opaque.
- Parsing of a body that is a bare expression, string interpolation and `_csharp_divide`.
- Non-ASCII letters and digits directly behind `if`: `IsAlnum` covers ASCII only, so such a word is read as the keyword.
- Increments of rate-limit-by-key that are known only after the response, and quota-by-key: they add without checking again.
- The longer-period quota of the token limit, and the estimation and extraction of token counts, which are parameters.
- Floating-point rounding of times: they are `real`.
- The construction of rule keys from subscription, API and operation names: keys are strings, and distinctness is a hypothesis where it matters.
- Messages, headers, traces and the reset time of a quota response.
- XML and JSON as text: documents and values are trees; `PolicyInheritance` takes a section as its list of elements, one run-time step for each.
- Policy fragments and the expansion of one element into several steps.
- The broker's secrets, authorization and HTTP layer; several subscriptions of one topic get their rows in the order they were created.
- Repair of a malformed health entry left by other code in the health dictionary.
- Activity and resource logs, request totals and sampling of the monitoring store.
- Computation of slots and digests: a cache key is the pair of both, so hash collisions are not modelled; each TLS setting of a backend is a flag, and finding and loading certificates are verdicts of a request.
- Scheduling of the closing tasks: a retired client that becomes idle is an event of a run.
- APIs loaded from a file without any revision, and the import of APIs: the revision theorems are about APIs created by the management service.
- Fields of an API definition other than its revision fields: they are opaque, identity and content apart, and a definition patch replaces either as a whole.
- Saving of the configuration to disk, and its roll-back when saving fails.
