# Verified models of Vendrai's decision cores

Vendrai is a procurement platform: agents investigate suppliers and invoices,
people review and approve, and an ERP is written to at the end. This project
models the small algorithms and protocols that the rest of the platform leans
on and proves what they are relied on for.

| file | what it models |
|---|---|
| `Planning.dfy` | acceptance of an investigation plan and its layering into parallel execution groups |
| `EventStream.dfy` | the browser's resumable event-stream client and the server loop that feeds it |
| `Chunking.dfy` | cutting a policy document into sections, sentences and chunks |
| `TokenBudget.dfy` | when the token counts that chunks report keep to the target |
| `Workflow.dfy` | the agent workflow graph with its review, human and ERP gates |
| `WorkflowRuns.dfy` | a second account of its runs, told from the executed inputs |
| `AuditChain.dfy` | the audit hash chain, its verifier, and what tampering leaves behind |
| `Statistics.dfy` | the robust outlier test and the interpolated percentile |
| `Circuit.dfy` | the model gateway's circuit breaker and retry loop |
| `ErpTable.dfy` | the ERP's write-once tables and the idempotency keys of gate and worker |
| `CaseLifecycle.dfy` | the table of allowed case status changes, read as runs |
| `Common.dfy`, `Text.dfy` | shared helpers: order-keeping filters, pigeonhole, decimal numerals |

`dafny verify dfyconfig.toml` checks all of it.

## How the source is read

- Loops that update variables are methods with loops, and objects whose methods
  update fields are classes. Each is proved equal to a function on values, and
  the properties are lemmas about that function.
- Answers of models, replies of people, network chunks, clock readings and
  database snapshots are arbitrary inputs.
- Hashes are parameters. Results that need collision resistance assume the
  hash injective; results that do not are stated for every function.
- Token counts are exact. `round(n * 1.3)` is modelled as rounding `13 n / 10`
  to the nearest integer, ties to even. In double precision the product at a
  tie is the tie itself, because the error in representing 1.3 is below half a
  unit in the last place of the product, so this is what the program computes.
- Statistics are over the real numbers.

## Where the code and its description differ

- `chunk_policy` reports a `token_count` that can exceed `child_target`, in two
  ways: a sentence too long for the target gets a chunk of its own, and the
  sentences are rounded one by one but the joined text once.
  `TokenBudget.AlwaysWithinIff` says for which sentence lengths and targets the
  count is kept, in both directions; `TokenBudget.SectionWithinIff` says it for
  one section; `TokenBudget.BudgetExceeded` gives a document for every target.
- `chunk_policy` keeps heading paths by slicing at `level - 1`. That misplaces a
  heading once levels have been skipped (`Chunking.SkippedLevelMisplaces`).
  `Chunking.SectionPathsIff` says exactly when all paths are right.
- In `validate_plan` the dependency-closure check refuses nothing that the
  earlier checks let through, for the shipped catalogue
  (`Planning.ClosureIsImplied`).
- The audit chain is read by time and id, and an append looks for its
  predecessor the same way, but times are the database's transaction times and
  ids are random. So an untouched log verifies exactly when every append got a
  time and id after all earlier ones (`AuditChain.HonestLogVerifiesIff`); two
  appends at one time can break it (`AuditChain.SameTimeCanBreak`).
- No hash covers ids and times, so rewriting them is noticed exactly when it
  changes the order of the records (`AuditChain.RewrittenKeysVerifyIff`). Cutting
  off the end of a chain is not reported (`AuditChain.DeletionIsReported`).

## Model

| member | source | states |
|---|---|---|
| Planning.ExecutionGroups | services/api/app/agents/planning.py:257-282 | the loop fails if and only if the selection, restricted to itself, has a dependency cycle; otherwise it returns the layering in the planner's order |
| Planning.GroupIndexIsLongestChain | services/api/app/agents/planning.py:264-281 | the index of a capability's group is the length of the longest chain of selected dependencies below it: such a chain exists and none is longer |
| Planning.GroupsPartitionSelection | services/api/app/agents/planning.py:264-281 | the groups together hold every selected capability exactly as often as it was selected |
| Planning.GroupsDisjoint | services/api/app/agents/planning.py:276-281 | no capability is in two groups |
| Planning.OrderIrrelevant | services/api/app/agents/planning.py:257-282 | two selections of the same capabilities in different orders get equally many groups with the same members |
| Planning.NoScheduleIsEarlier | services/api/app/agents/planning.py:264-281 | no schedule that respects the dependencies starts any capability before its group |
| Planning.NoScheduleIsShorter | services/api/app/agents/planning.py:264-281 | no schedule that respects the dependencies uses fewer rounds than there are groups |
| Planning.LayeringRespects | services/api/app/agents/planning.py:265-272 | everything a capability waits for is in an earlier group, so the layering is itself such a schedule |
| Planning.StuckMeansCycle | services/api/app/agents/planning.py:273-274 | a round that finishes nothing new while something is left implies a cycle |
| Planning.IdDeterminesEntry | services/api/app/agents/planning.py:70-239 | within one workflow, a capability id names one catalogue entry, so the dictionary by id loses none |
| Planning.EligibleIff | services/api/app/agents/planning.py:242-254 | the dictionary holds a capability if and only if the catalogue has an entry of this workflow with this id for which every prerequisite is recorded as true |
| Planning.FalseFactsDoNotCount | services/api/app/agents/planning.py:250-253 | dropping all facts recorded as false changes neither what is eligible nor which plans are accepted nor the number of groups |
| Planning.AcceptableIff | services/api/app/agents/planning.py:285-311 | a plan passes the checks if and only if it selects all that the facts make eligible, listed fact by fact, except that the bank check may be left out |
| Planning.ClosureIsImplied | services/api/app/agents/planning.py:304-311 | a selection of eligible capabilities that includes every mandatory one is closed under eligible dependencies |
| Planning.ValidatePlan | services/api/app/agents/planning.py:285-312 | a plan is accepted if and only if it selects all that the facts make eligible, except that the bank check may be left out; an accepted plan gets the layering, in exactly as many groups as the facts ask for, at most two for a supplier and three for an invoice |
| Planning.GroupCount | services/api/app/agents/planning.py:70-282 | the exact number of groups of every accepted plan: for a supplier two if and only if documents are ready, else one; for an invoice three with a purchase order reference, and otherwise by whether documents, vendor identity and invoice number are at hand and the bank check was selected |
| Planning.GroupOfEach | services/api/app/agents/planning.py:70-282 | the group of every capability in every accepted plan, by the facts alone |
| EventStream.SplitIsLeftmost | apps/web/src/lib/api.ts:632-633 | the split at blank lines is the one way to write the text as pieces in which every separator stands as far left as it can |
| EventStream.CutsDoNotMatter | apps/web/src/lib/api.ts:627-642 | however the text is cut into chunks, the frames dispatched are those of the whole text's split without its last piece, and the buffer is that piece |
| EventStream.ReadBody | apps/web/src/lib/api.ts:627-642 | the read, split and dispatch loops compute the state that the fold over the chunks gives |
| EventStream.SubscribeRunEvents | apps/web/src/lib/api.ts:618-644 | the reconnect loop computes the fold over the connections: delivered data, remembered id, and the Last-Event-ID header of each request |
| EventStream.RequestsMade | apps/web/src/lib/api.ts:620-643 | the client asks again exactly as long as responses end; the first error status or failing read ends the subscription |
| EventStream.RequestsResume | apps/web/src/lib/api.ts:620-623 | each request carries the id that the connections before it left, and no header as long as there is none |
| EventStream.DispatchEvent | apps/web/src/lib/api.ts:635-640 | from a frame as the server writes it the client reads the event's number and its data, and nothing else |
| EventStream.FrameIsRead | apps/web/src/lib/api.ts:635-640 | of any frame the first id line is remembered unless it is empty, and the data lines are delivered as one text unless that is empty |
| EventStream.DataRoundTrip | apps/web/src/lib/api.ts:635-640 | data sent as one line each, however many lines it has, is delivered as it was and changes nothing else; empty data is not delivered |
| EventStream.HeaderResumes | services/api/app/routers/runs.py:518-521 | the header of a client that has seen k events is read by the server as the number of the k-th |
| EventStream.CursorReads | services/api/app/routers/runs.py:518-521 | a numeral in the header is read as its number, and a missing, empty or other header as 0 |
| EventStream.BatchIsNext | services/api/app/routers/runs.py:532-536 | one poll finds the next events of the log after the cursor, up to one hundred |
| EventStream.ServerInOrder | services/api/app/routers/runs.py:523-538 | whatever the polls see, the server sends keepalives and the events after the cursor, in order and without gaps |
| EventStream.ConnectionKeepsStep | apps/web/src/lib/api.ts:626-642 | a connection broken off at any character leaves the client in step with the log, never further back |
| EventStream.NothingSentIsLost | apps/web/src/lib/api.ts:626-642 | a connection read to its end delivers everything the server sent on it |
| EventStream.DeliveredExactlyOnce | apps/web/src/lib/api.ts:618-644 | over any number of connections, what was delivered is the data of a prefix of the log, each event once and in order, and the remembered id is that of the last one |
| EventStream.EnoughPollsCatchUp | services/api/app/routers/runs.py:524-538 | n polls that see the whole log bring a client that is at most 100 n events behind to its end |
| Text.ValueOfDecimal | services/api/app/routers/runs.py:519-541 | a sequence number printed into an id and read back from the header is the same number |
| Chunking.WordsAppend | services/api/app/domain/chunking.py:17-18 | cutting a text next to white space cuts no word |
| Chunking.BreakAtIff | services/api/app/domain/chunking.py:39 | a sentence break begins exactly at white space after a full stop, exclamation or question mark, or at a blank line, and takes the whole run |
| Chunking.SplitKeepsWords | services/api/app/domain/chunking.py:39 | splitting a text into sentences keeps its words in order |
| Chunking.SentencesRoundTrip | services/api/app/domain/chunking.py:39-47 | sentences that end in a stop mark and hold no break, joined with blanks, are split and stripped into themselves again |
| Chunking.CutSections | services/api/app/domain/chunking.py:23-34 | the heading loop yields one section per heading with its recorded path and the stripped text up to the next heading |
| Chunking.PackSection | services/api/app/domain/chunking.py:39-60 | the sentence loop yields the chunks of the greedy packing, numbered from 1 |
| Chunking.ChunkPolicy | services/api/app/domain/chunking.py:21-61 | the chunker yields the chunks of all sections in document order |
| Chunking.PackIsValid | services/api/app/domain/chunking.py:45-60 | the packing cuts the sentences into consecutive groups, each a single sentence or within the budget |
| Chunking.PackIsGreedy | services/api/app/domain/chunking.py:45-60 | a chunk is closed only when the next sentence would exceed the budget |
| Chunking.PackIsFewest | services/api/app/domain/chunking.py:45-60 | no such cut of the sentences has fewer groups |
| Chunking.SectionUsesFewestChunks | services/api/app/domain/chunking.py:36-60 | a section gets no more chunks than any such cut of its sentences |
| Chunking.SectionKeepsWords | services/api/app/domain/chunking.py:36-60 | the words of a section's chunks, in order, are the words of the section |
| Chunking.PolicyKeepsWords | services/api/app/domain/chunking.py:35-61 | the words of all chunks, in order, are the words of the sections in document order |
| Chunking.SectionsCoverDocument | services/api/app/domain/chunking.py:23-34 | the document is what stands before the first heading, then each heading as it stands followed by a text that, stripped, is its section |
| Chunking.DocumentKeepsWords | services/api/app/domain/chunking.py:21-61 | the words of all chunks, in order, are the words of the document with its headings, and all before the first of them, blanked out |
| Chunking.ChunksTell | services/api/app/domain/chunking.py:36-60 | every chunk carries its own section's heading path, the token count of its own text, and the opening words of its section |
| Chunking.ParentIsOpening | services/api/app/domain/chunking.py:43-44 | the parent context holds the opening words of the section, as many as the parent target allows |
| Chunking.ClauseIdsIncrease | services/api/app/domain/chunking.py:36-60 | clause ids increase strictly through the document |
| Chunking.RenderInjective | services/api/app/domain/chunking.py:52 | different clause ids are printed differently |
| Chunking.SectionPathsIff | services/api/app/domain/chunking.py:29-34 | all sections are recorded under the titles of their place in the outline if and only if every heading closes no open heading or has an enclosing heading for each level above its own |
| Chunking.NeverSkipsIsEnough | services/api/app/domain/chunking.py:29-34 | in a document that never skips a level every recorded path is the outline's |
| Chunking.SkippedLevelMisplaces | services/api/app/domain/chunking.py:31 | headings of levels 1, 3, 3: the last is recorded under the second, though the outline has it under the first |
| TokenBudget.TokenBound | services/api/app/domain/chunking.py:49-60 | a chunk of two sentences or more has at most `child_target` words and reports at most the count of a text of that many words |
| TokenBudget.SectionWithinIff | services/api/app/domain/chunking.py:17-60 | for any section and target, all reported counts keep to the target if and only if the words of each packed group satisfy 13 w < 10 t + 5, or equality with t even; single sentences included |
| TokenBudget.RoundsDownIff | services/api/app/domain/chunking.py:17-18 | the token count of a sentence is below 1.3 per word exactly for word numbers that end in 1, 4, 7 or 8 or leave 5 when divided by 20 |
| TokenBudget.AlwaysWithinIff | services/api/app/domain/chunking.py:21-61 | for any set of sentence lengths: every document of such sentences keeps to every target from a least one on if and only if no length is rounded down and each fits the least target alone |
| TokenBudget.BudgetExceeded | services/api/app/domain/chunking.py:21-61 | for every target from 2 on there is a document for which the chunker yields one chunk that reports more than the target, and as much as the bound allows |
| Workflow.DeterministicVerification | services/api/app/agents/workflow.py:116-180 | the check, which appends findings to the list its result already holds, yields the state of the specification, findings included |
| Workflow.CheckPassesIff | services/api/app/agents/workflow.py:116-158 | the check lets a run through if and only if the packet's hash is the run's, it carries no hard reason code, and every citation names evidence in the packet |
| Workflow.FindingsAreExact | services/api/app/agents/workflow.py:116-180 | the check reports exactly whether the hash matches, which citations name no evidence and which codes block, and a blocked run carries the first of them |
| Workflow.BlockedForAReason | services/api/app/agents/workflow.py:130-179 | a run that the check blocks names a reason that holds: the alphabetically first hard reason code of the packet, else the hash, else a citation |
| Workflow.CritiquePassesIff | services/api/app/agents/workflow.py:183-221 | the critique is let through if and only if the model answered and cites only evidence in the packet; a fault of the model becomes the blocker |
| Workflow.ReviewGateNode | services/api/app/agents/workflow.py:254-285 | the review gate refuses foreign evidence and stale versions, and an approval appends the next required review |
| Workflow.StepKeepsInv | services/api/app/agents/workflow.py:223-361 | every successful node execution keeps the invariant, uses up budget, and lowers neither the case version nor the completed reviews |
| Workflow.ErpGateIsGuarded | services/api/app/agents/workflow.py:311-408 | the ERP gate is entered only after verification succeeded without a blocker, at an approval gate, with all required reviews completed, the human decision approved, and every accepted reply given for the run's evidence |
| Workflow.RunIsBounded | services/api/app/agents/workflow.py:364-409 | a run executes at most five nodes more than it has required reviews; completed reviews stay a prefix of the required ones and the version never falls |
| Workflow.BoundIsAttained | services/api/app/agents/workflow.py:364-409 | from every fresh state with a clean packet and an approval gate there is, for either answer of the ERP, a run that ends with it and uses the whole bound |
| Workflow.ReviewAlwaysPending | services/api/app/agents/workflow.py:254-258 | no run ever raises REVIEW_GATE_WITHOUT_PENDING_REVIEW |
| Workflow.EndingsAreSound | services/api/app/agents/workflow.py:288-361 | a finished run was blocked before any reply was accepted, written to the ERP with all conditions met, or ends with what the last accepted reply decided; its outcome is never a bare APPROVED, and it is completed exactly when the ERP succeeded |
| Workflow.CompletableIff | services/api/app/agents/workflow.py:116-158 | whether some run completes is settled at the start: exactly when the gate is an approval and the packet has the run's hash and no hard reason code |
| Workflow.GraphThread.constructor | services/api/app/workers/agent.py:1280-1333 | a thread starts at the first node in a fresh state with nothing executed, where the invariant holds |
| Workflow.GraphThread.Resume | services/api/app/agents/workflow.py:364-409 | resuming a thread executes one step of the graph, or reports the error of the gate and changes nothing |
| WorkflowRuns.RunIsExplained | services/api/app/agents/workflow.py:220-409 | every run from a fresh state is what its executed inputs say: citations, blocker, version, completed reviews, responses, confirmation, outcome and the node it waits at are told from them alone |
| WorkflowRuns.EndingIsLastInput | services/api/app/agents/workflow.py:288-306 | a finished run is completed if and only if its last executed input was the ERP's success, failed if and only if it was the ERP's failure, and holds exactly that answer as confirmation |
| WorkflowRuns.RefusedIff | services/api/app/agents/workflow.py:220-285 | what every reachable thread accepts next, and with which error it refuses any other input |
| WorkflowRuns.ExecutedArePart | services/api/app/agents/workflow.py:364-409 | the executed inputs are some of the inputs, in their order, and as many as nodes were executed |
| AuditChain.VerifyChain | services/api/app/domain/audit_integrity.py:96-138 | the pass reports, record by record, a link that does not fit and content that does not hash to its stored hash, and reports nothing exactly when every record passes both checks |
| AuditChain.ReportedIff | services/api/app/domain/audit_integrity.py:103-138 | for any records, a break is reported exactly when it is what is wrong with some record: its id, the kind, and what was expected and found |
| AuditChain.HashesDistinct | services/api/app/domain/audit_integrity.py:96-138 | the hashes within an intact chain are pairwise distinct |
| AuditChain.HeadCommits | services/api/app/domain/audit_integrity.py:77-138 | two intact chains that end in the same hash are equally long and hold the same payloads |
| AuditChain.RewrittenKeysVerifyIff | services/api/app/routers/evidence.py:112-119 | however the ids and times of an intact chain are rewritten, the records as read by time and id verify if and only if the rewritten keys keep the order of the chain |
| AuditChain.HonestLogVerifiesIff | services/api/app/services/events.py:95-113 | a log that honest appends made, each naming the newest record by time and id, verifies when read by time and id if and only if every append got a time and id after all earlier ones |
| AuditChain.SameTimeCanBreak | services/api/app/services/events.py:95-113 | two honest appends at one time, the second with the smaller id, give a log that does not verify |
| AuditChain.IntactIffAppended | services/api/app/services/events.py:95-113 | the chains that verify are exactly those that appends build |
| AuditChain.TamperingIsLocalised | services/api/app/domain/audit_integrity.py:106-136 | for any choice, repetition, reordering and in-place rewriting of an intact chain's records, links break exactly where the original order is left and content breaks exactly where a payload differs |
| AuditChain.TamperingReport | services/api/app/domain/audit_integrity.py:103-138 | the whole report on such records, break by break in order, told from the original chain: ids, kinds, expected and found hashes |
| AuditChain.OnlyPrefixesVerify | services/api/app/domain/audit_integrity.py:106-138 | rearranged genuine records verify if and only if they are a prefix of the chain |
| AuditChain.EditIsReported | services/api/app/domain/audit_integrity.py:122-133 | editing one record in place yields one CONTENT_ALTERED at that record, with the stored and the recomputed hash, and nothing else |
| AuditChain.RehashIsReported | services/api/app/domain/audit_integrity.py:109-120 | editing and rehashing a record yields one LINK_BROKEN at its successor, with the new and the old hash, or nothing at the last record |
| AuditChain.DeletionIsReported | services/api/app/domain/audit_integrity.py:109-120 | deleting a block yields one break just after the gap, CHAIN_ROOT_INVALID at the start of the chain and LINK_BROKEN elsewhere, with the hashes on both sides of the gap, and nothing when the end is cut off |
| Statistics.OrderStatistic | services/api/app/domain/fraud.py:34-36 | the k-th smallest sample is at most y if and only if more than k samples are |
| Statistics.MedianInside | services/api/app/domain/fraud.py:34 | if strictly more than half of the samples lie in an interval, so does the median |
| Statistics.MadBounded | services/api/app/domain/fraud.py:34-36 | and the median absolute deviation is at most the interval's width |
| Statistics.OutlierIsFlagged | services/api/app/domain/fraud.py:18-51 | with at least five samples, a value far enough outside an interval that holds a strict majority is flagged, whatever the other samples are |
| Statistics.ScoreIs | services/api/app/domain/fraud.py:18-51 | what is reported: below five samples the median only; from five on the median, the deviation and the score, which times the deviation is 0.6745 times the distance from the median |
| Statistics.FlaggedIff | services/api/app/domain/fraud.py:18-51 | a value is flagged exactly when there are at least five samples and it is off a median without spread, or its distance from the median reaches the threshold times the deviation, on the scale of 0.6745 |
| Statistics.VerdictIsScaleFree | services/api/app/domain/fraud.py:34-51 | the verdict does not depend on the unit or the origin in which amounts are measured |
| Statistics.HalfIsNotEnough | services/api/app/domain/fraud.py:34 | with exactly half of the samples at one point the median is halfway to the other half, however far that is |
| Statistics.PercentileInterpolates | services/api/app/domain/analytics.py:57-67 | for quantiles in the unit interval the lookup succeeds and interpolates between two neighbouring order statistics |
| Statistics.FewSamples | services/api/app/domain/analytics.py:57-62 | there is no value exactly when there are no samples, and a single sample is its own percentile |
| Statistics.LookupIs | services/api/app/domain/analytics.py:57-67 | at any quantile, inside the unit interval or not: the lookup fails exactly when the truncated position is no index, and otherwise goes on from that sample, counted from the end when negative, toward the next |
| Statistics.PercentileMonotone | services/api/app/domain/analytics.py:57-67 | the percentile never falls when the quantile rises |
| Statistics.PercentileEnds | services/api/app/domain/analytics.py:57-67 | at quantiles 0 and 1 it is the smallest and the largest sample |
| Statistics.PercentileBetween | services/api/app/domain/analytics.py:57-67 | it lies between the smallest and the largest sample |
| Statistics.PercentilePermuted | services/api/app/domain/analytics.py:60 | it does not depend on the order of the samples |
| Statistics.PercentileRaised | services/api/app/domain/analytics.py:57-67 | it never falls when samples are raised |
| Statistics.HalfIsMedian | services/api/app/domain/analytics.py:148-157 | at one half it is the median |
| Circuit.CircuitState.AssertAvailable | services/api/app/llm_gateway.py:176-184 | the check answers and resets the breaker as specified |
| Circuit.CircuitState.RecordSuccess | services/api/app/llm_gateway.py:187-190 | a success closes the breaker |
| Circuit.CircuitState.RecordFailure | services/api/app/llm_gateway.py:193-197 | a failure counts, and at the threshold stores its time |
| Circuit.BreakerMeaning | services/api/app/llm_gateway.py:85-93 | after any interleaving the count is that of the failures since the last reset, the circuit is open exactly when it reaches the threshold, and the stored time is then that of the latest failure |
| Circuit.RefusedIff | services/api/app/llm_gateway.py:176-184 | a call is refused exactly when those failures reached the threshold and the reset time since the latest has not passed |
| Circuit.NoCallWhileOpen | services/api/app/llm_gateway.py:176-197 | once the circuit has opened, no call is allowed before a success or before the reset time has passed since every failure up to then |
| Circuit.StructuredReasoning | services/api/app/llm_gateway.py:249-317 | a call is refused by an open circuit without an attempt or change; an admitted one retries exactly invalid outputs and retryable faults, ends with an answer, another fault or the last attempt, and leaves the breaker closed after an answer and with its failures counted otherwise |
| Circuit.MadeMeaning | services/api/app/llm_gateway.py:263-317 | how many attempts a call makes, told by the kinds of the attempts |
| Circuit.CallExtendsHistory | services/api/app/llm_gateway.py:249-317 | what a call adds carries on every faithful history with a faithful one |
| Circuit.OpenCircuitSheds | services/api/app/llm_gateway.py:176-317 | however calls interleave, while the circuit stays open no call starts, and at most the maximum number of attempts fails for each call that was in flight when it opened |
| ErpTable.MockErp.CreateVendor | services/mock_erp/app.py:29-55 | the vendor endpoint answers and writes as the table's specification says |
| ErpTable.MockErp.ResolveInvoiceException | services/mock_erp/app.py:58-84 | so does the invoice endpoint, whose rows also hold the case |
| ErpTable.FirstRequestWins | services/mock_erp/app.py:58-84 | after any history the table holds, for every key, exactly what the first request under it wrote |
| ErpTable.AnswersByFirst | services/mock_erp/app.py:65-82 | the first request under a key is new, an equal one later is a replay with the same id, any other is refused |
| ErpTable.AnswerIsSettled | services/mock_erp/app.py:58-84 | every request of every history: without a key it is refused and writes nothing, and otherwise the first request under its key settles the answer |
| ErpTable.KeysAreIndependent | services/mock_erp/app.py:65-82 | under one key a history does what its requests under that key would do alone |
| ErpTable.InterleavingIrrelevant | services/mock_erp/app.py:65-82 | histories with the same order under each key give the same table and the same answers |
| ErpTable.RepeatsKeepTable | services/mock_erp/app.py:69-75 | a replay or conflicting reuse inserted anywhere leaves the table as it would have been |
| ErpTable.RepeatsKeepAnswers | services/mock_erp/app.py:69-75 | and changes no other request's answer |
| ErpTable.KeysDistinguishWrites | services/api/app/agents/workflow.py:294-297 | two ERP gates share a key, and two workers send one key, exactly when workflow kind, case and evidence hash agree, for every case id and every hexadecimal hash |
| ErpTable.SharedKeyIff | services/api/app/agents/workflow.py:294-297 | for any texts at all: two gates share a key exactly when the kinds agree and the rest does, or one case id is the other plus a colon and a text that the other evidence hash begins with |
| ErpTable.OneWriteEach | services/api/app/workers/erp.py:179-361 | however often and in whatever order the writes of one kind are sent, the first for a case and its evidence is new in the ERP, and each later one is a replay of it if it says the same and refused otherwise |
| CaseLifecycle.AllowedIff | services/api/app/domain/cases.py:32-76 | a change is allowed if and only if both texts name statuses and the first is among the origins of the second, listed status by status; unknown texts are refused as such |
| CaseLifecycle.CompletionIsEarned | services/api/app/domain/cases.py:32-62 | every run from DRAFT to COMPLETED was scanned first, was last released by an approval that was pending or by an exception found within tolerance, and after that holds only ERP sync attempts |
| CaseLifecycle.StartIsNotRepeated | services/api/app/domain/cases.py:32-36 | drafting, submitting and scanning happen once, as the first three statuses |
| CaseLifecycle.CompletableIff | services/api/app/domain/cases.py:32-76 | a status can still lead to COMPLETED exactly when it is not REJECTED, FAILED or CANCELLED, and only those and COMPLETED are final |

## Left out

- Model calls, HTTP, SQL, Redis, policy checks and the graph library: what they return is an input.
- Checkpointing: a gate that raises leaves the thread as it was; replaying a node from its start is not modelled separately.
- Stale threads: workflow results are for threads started fresh, because no node clears an old blocker.
- The text of evidence, latencies, provider versions, stage names and other fields that no branch of the workflow reads.
- The list of invalid citations is kept as a set; its sorting is display only. The order of the hard reason codes is written out.
- Capability ids, facts and statuses are enumerations rather than texts; an id or status nobody knows is one more case. The sorted list of eligible ids that a validated plan returns is kept as a set.
- The purpose and failure policy of capabilities, which no branch of the planner reads.
- Matching of headings by the regular expression: headings are given by position, level and title. White space is ASCII.
- EventStream.SubscribeRunEvents: does not model failures of `JSON.parse` or of the callback, which end the subscription, nor an abort in the middle of a wait, which ends it with an error; delivered data is kept as text. Decoding of bytes to characters and the pause before a reconnect are not modelled.
- EventStream.HeaderResumes: headers that no client sends, such as numerals with signs or spaces, are read as 0 rather than as Python's `int` reads them.
- The event log is assumed numbered upwards from 1 without newlines in types or JSON texts, as services/api/app/services/events.py:35 and the JSON encoder make it; the race between writers that its lock prevents is not modelled.
- AuditChain.VerifyChain: keeps the details of a break as data, not as a sentence. SHA-256 and JSON canonicalisation are not modelled.
- AuditChain.IntactIffAppended: takes the append order as given; AuditChain.HonestLogVerifiesIff is about appends that look up the newest record.
- AuditChain.HonestLogVerifiesIff: ids are compared letter by letter, as for ids printed alike; one table stands for the records of one tenant, and ids are distinct, as its primary key makes them.
- Statistics.OutlierIsFlagged: real arithmetic; the rounding of displayed scores and the explanation text are not modelled. The isolation forest is a library.
- Statistics.PercentileMonotone: floating-point rounding is not modelled; outside the unit interval only Statistics.LookupIs is stated.
- Circuit.StructuredReasoning: one call on its own; Circuit.OpenCircuitSheds is about interleaved calls. Payload screening, the semaphore, sleeping and the classification of provider errors are not modelled.
- ErpTable.OneWriteEach: the worker's own table of operations, which it consults before it sends, is not modelled.
- ErpTable.MockErp.CreateVendor: validation of the request body and two connections inserting the same key at once are not modelled; the ids derived from keys are a parameter, and nothing is claimed about their uniqueness.
- Bank and clarification decision tables, payload walkers, sanctions parsing, user interface and migrations: each claim about them would follow from reading one function.
