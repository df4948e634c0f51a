# Verified model of PipelineStore

PipelineStore commits immutable revisions of pipeline contracts, records intents to run them, and
lowers a committed revision to an executable graph. This project models its five connected cores
in Dafny and proves what they promise over all inputs, all runs and all interleavings.

- **Automatic admission** (`Intents`, `PolicyLog`, `StoreSpec`, `MemoryStore`, `Admission`,
  `AdmissionSafety`, `AdmissionTheorems`, `AdmissionProgress`, `AdmissionAnswers`,
  `AdmissionHistory`, `AdmissionFailures`, `AdmissionRecords`, `StoreRules`). The in-memory store
  is a class with its six maps, each method proved equal to a function on values and shown to
  keep the index invariant. Above it every Service call is a program whose store accesses are
  single atomic steps, with a fault possible at every staged point; a schedule interleaves any
  number of clients and may crash any of them. History variables hold what the gate saw for each
  admitted intent, which holds were released since they were last set, and who appended each log
  entry. Legality, the frontier rule and the hold rule are never checked at the write; they are
  proved from the optimistic-concurrency argument.
- **Durable intent store** (`RowSpec`, `RowStore`, `RowRefinement`, `SqlText`, `SqlPredicates`).
  A table of rows under a primary key and three partial unique indexes refines the indexed store.
  The hand-written SQL tokenizer and the predicate reader are proved independent of spelling.
- **Canonical form** (`Json`, `Locality`, `StrictWalk`, `Surrogates`, `FieldNames`, `Canonical`,
  `Shapes`, `TrailingText`, `StringGrammar`, `CanonicalOrder`, `Validation`, `Cycles`,
  `ValidationOrder`, `ValidationRules`). The printer over sorted lists and the strict parser
  round-trip, canonical text identifies a contract up to order, the accepted bodies are
  characterised exactly, and commit validation, stated without any order, factors through it.
- **Revision commit** (`Digests`, `Preparation`, `RevisionTables`, `Revisions`, `RevisionSafety`,
  `RevisionTheorems`, `CommitHistory`). Replay, convergence, conflict, minting and crashes over
  three tables, for resolvers that change or fail from call to call.
- **Lowering** (`Lowering`, `SpecCheck`, `LoweringLaws`, `LoweringPass`, `LoweringEdges`,
  `LoweringAgreement`, `LoweringWitnesses`, `LoweredContent`, `LoweringRules`, `SpecRules`). The
  pass preserves the contract's edges, its output always has one consistent source, and it
  succeeds exactly where validation accepts, up to conditions spelled out in one if-and-only-if.

`CommitToRun` joins the last two: what a commit returned verifies and lowers under the
declarations it was accepted with.

The `...Rules` modules, `LoweredContent`, `CanonicalOrder`, `CommitHistory` and
`AdmissionRecords` say what the operations do in terms of the data alone, without the functions
that compute it.

`Prelude` holds results and error codes, `Ordering` the string order, sorting and list lemmas,
`Contracts` the contract types.

Assumptions, all explicit in the statements that use them: the publication order is transitive
(`Intents.Lawful`, needed only for the two backlog results); the hash is injective with non-empty
lower-case hex output (`Digests.HashLike`, with a function that meets it in
`Digests.HashLikePossible`). Go strings are modelled as sequences of Unicode scalar values, that
is, as valid UTF-8, on which byte order and code point order agree. The JSON decoder of Go's
standard library is part of the model: it matches a key with the field of that name or else of
that name in other letter case (with the long s and the Kelvin sign for S and K), its token
reader reads a token and no further, and a list is decoded onto whatever the field's storage
holds. Identifiers, faults, resolver answers and revision-reader answers are free parameters of
each step.

Where code and documentation disagree the model follows the code:

- `parse.go:17` documents that trailing data is refused. Any accepted body followed by a stray
  `]` or `}` and then anything with paired escapes is accepted, because the token reader's error
  ends the strict walk silently and the decoder's look-ahead stops at a closing bracket.
  `TrailingText.TrailingData` and `TrailingText.TrailingDataExact` give the exact condition,
  `TrailingText.StrayBracketAccepted` an input.
- `parse.go:14` documents that repeated keys are refused and never win in silence. The strict
  walk compares keys exactly, while the decoder takes a key in any letter case for its field, so
  a field given twice in two spellings is accepted. A later string stands, and a later list is
  decoded onto the elements of the earlier one. `Shapes.OverwritesExact` gives the exact
  condition, `Shapes.RespelledWins` and `Shapes.RespelledListMerges` inputs, and
  `Shapes.CapitalSpelling` keys that meet their hypotheses.
- The repository's README says `MemoryStore` is the only store; `SQLiteStore` exists and is
  modelled.

The two accepters differ, which nothing documents otherwise. Lowering accepts a node with an
empty CAS hash when a declaration is frozen under the empty key
(`LoweringWitnesses.EmptyPinOnlyLowered`), which validation refuses. Validation accepts contracts
without nodes, with unnamed ports on edges and with fan-out
(`LoweringWitnesses.NoNodesOnlyValid`, `LoweringWitnesses.UnnamedPortsOnlyValid`,
`LoweringWitnesses.FanOutOnlyValid`), which lowering refuses.
`LoweringAgreement.LoweringAgreesWithValidation` states exactly how the two relate.

## Model

| member | source | states |
|---|---|---|
| `AdmissionTheorems.AdmissionSafe` | intent/admission.go:362-437 | In every run of any number of interleaved clients, each intent with an admission epoch was recorded while its policy was ACTIVE at that epoch, with class NEW and a position strictly after the frontier of the log entry that opened the epoch |
| `AdmissionTheorems.LifecycleLegal` | intent/admission.go:260-349 | Every reachable policy log is one ACTIVATE, then alternating DISABLE and REENABLE with epochs rising by one, then at most one final RETIRE, and the stored record is the fold of the log with its number the log's length |
| `AdmissionTheorems.RetiredIsTerminal` | intent/admission.go:307-312 | Once a policy is RETIRED no continuation of the run appends to its log |
| `AdmissionTheorems.HoldsSurvive` | intent/admission.go:298-349 | In every reachable state a gate-admitted intent whose policy left the intent's epoch has a RunID, or holds a POLICY_DISABLE blocker, or was explicitly released after the last stop or acceptance record that set that blocker |
| `AdmissionHistory.OnlyReleaseFrees` | intent/admission.go:298-306 | If a gate-admitted intent without a RunID is clear although its policy is not ACTIVE in its epoch, some action of the run was the release that cleared its POLICY_DISABLE blocker: just before it the policy had left the epoch and the intent was held, and in every state since then the blocker was clear |
| `AdmissionTheorems.EligibleMeansActive` | intent/admission.go:481-491 | An eligible, unassigned gate-admitted intent that was not released since it was last held belongs to a policy still ACTIVE in the intent's epoch |
| `AdmissionTheorems.NoBacklogAdmitted` | intent/admission.go:250-259 | Under a transitive publication order an admitted position is strictly after the frontier of every opening up to its epoch |
| `AdmissionTheorems.BacklogStaysRefused` | intent/admission.go:279-287 | A position not strictly after some opening's frontier is refused by every later record, through any disables and re-enables |
| `AdmissionTheorems.OneIntentPerDomain` | intent/store.go:104-121 | In every reachable state the indexes are the exact inverses of the intents, so there is one intent per policy and subject, per operation and per RunID |
| `AdmissionTheorems.RunFreezes` | intent/intent.go:55-84 | Over any continuation of a run an intent is never lost, its identity, revisions and epoch never change, its RunID is set at most once, and logs only grow at the end |
| `AdmissionTheorems.MembershipWithinEpoch` | intent/admission.go:322-346 | Every membership a stop call returned holds only intents whose admission epoch is at most the epoch of the record it came with |
| `AdmissionTheorems.GivingUpNeedsEight` | intent/admission.go:222-224 | A call that ends in POLICY_STALE saw at least eight entries arrive on its policy's log since it began, none of them its own |
| `AdmissionAnswers.AnswersAreTrue` | intent/admission.go:260-479 | In every run every answer that is not an error is true: the record it shows was the policy's record at some moment since the call began, in the state claimed; a refusal's reason is the first rule of the gate that fails on that record; a created intent has, field by field, what the request names, the record's epoch, no RunID and clear blockers; a replay is the recorded intent of the request's keys, with a divergence exactly if a revision differs. RETIRED is answered only of a policy that is retired and stays so, FRONTIER_INVALID only of a DISABLED record seen since the call began |
| `AdmissionFailures.FailureReports` | intent/admission.go:260-479 | Every error a call ends with is true: either its arguments fail the check for that code, or the action that gave the answer found the reason in the shared state in the middle of that call: the missing policy, intent or revision, the operation recorded with other semantics, the RunID on another intent or another RunID on this one, the retired policy, the frontier that is not at or after the recorded one, the eighth attempt overtaken by the log, the identifier in use, or the fault; no other code is ever answered |
| `AdmissionFailures.RefusedMeans` | intent/admission.go:447-479 | The argument checks refuse exactly the calls with a missing coordinate, a CLEAR blocker state or an unknown owner, each with its code |
| `AdmissionRecords.RecordedBy` | intent/service.go:65-112 | Every intent of a reachable state was recorded by one action, a step of one create call, field by field as that call's complete request says, and still has that identity |
| `AdmissionRecords.AppendedBy` | intent/admission.go:260-349 | Every log entry of a reachable state was appended by one action, a step of an enable with that frontier or of a stop of that kind |
| `AdmissionRecords.WrittenAfterChecks` | intent/service.go:65-112 | Before an intent was recorded its call had found none recorded for the request and had its revision confirmed by the reader, both since the call began |
| `AdmissionHistory.StoppedReports` | intent/admission.go:314-349 | The record and the two lists of every answered stop, fresh or repeated, are the policy's own in one single state of the run, in which the policy had stopped as the call asked: the state in which the client, until then in the middle of this very call, got the answer it has had ever since |
| `AdmissionProgress.CallSettles` | intent/admission.go:222-224 | A call that is not crashed has its answer after at most 33 of its own turns under any interleaving and faults, and the answer is not POLICY_STALE if the log grew by fewer than eight entries |
| `AdmissionProgress.StepCloser` | intent/admission.go:267-295 | Each step of a call, whatever it finds, ends the call or brings it closer to its end |
| `AdmissionTheorems.StepKeeps` | intent/admission.go:260-437 | One atomic step of any client, with any fault, keeps the whole invariant and grows the shared state |
| `AdmissionSafety.AdmitAgrees` | intent/store.go:423-454 | At the conditional create, ACTIVE at the decided epoch holds exactly if the log has not moved since the record was read |
| `AdmissionSafety.AppendKeeps` | intent/store.go:375-420 | An append whose decision was legal on the record it was read from keeps logs legal, witnesses and holds, or is refused as stale |
| `PolicyLog.LegalIffShape` | intent/admission.go:89-103 | Logs built by the Service's legal appends are exactly the logs of the documented shape |
| `PolicyLog.ActiveAtEpochIsOnePoint` | intent/store.go:432-438 | Along one log an epoch is ACTIVE at a single point, so ACTIVE at the same epoch means the same record |
| `PolicyLog.FrontiersNeverFall` | intent/admission.go:279-287 | Frontiers along a log never move backwards, whatever disables lie between |
| `PolicyLog.AfterEveryEarlierFrontier` | intent/admission.go:250-259 | A position strictly after one opening's frontier is strictly after every earlier one |
| `PolicyLog.Refusal` | intent/admission.go:415-437 | The fail-closed chain of refusals lets facts through exactly if the published admission rule holds |
| `StoreSpec.StopMembershipExact` | intent/store.go:339-372 | The lists returned with a successful stop are sorted, disjoint and together exactly the policy's automatic intents at that write |
| `StoreSpec.AppendChanges` | intent/store.go:375-420 | An append adds its entry under the next number to one log; with holds it sets POLICY_DISABLE to BLOCKED on exactly the policy's unassigned automatic intents and changes nothing else |
| `StoreRules.SubjectReplays` | intent/store.go:186-215 | A recorded subject is replayed whatever the policy's state, the identifier drawn and the faults, and nothing changes |
| `StoreRules.SubjectRecorded` | intent/store.go:423-454 | A new subject is recorded exactly if the identifier is free, no fault is met and, behind the gate, the policy is ACTIVE at the epoch |
| `StoreRules.OperationCreates` | intent/store.go:233-261 | An explicit create refuses a draft of another shape, replays a recorded operation and records a new one exactly if the identifier is free and no fault is met |
| `StoreRules.LooksUp` | intent/store.go:135-164 | A lookup finds exactly the recorded intent of the key |
| `StoreRules.Attaches` | intent/store.go:264-295 | Attaching succeeds exactly if the intent has that RunID, or has none and no other intent has it and no fault is met; only that RunID changes |
| `StoreRules.Blocks` | intent/store.go:457-482 | A blocker update succeeds exactly on a recorded intent and a known owner unless a fault is met; only that owner's slot changes |
| `StoreRules.AppendsExactly` | intent/store.go:375-390 | An append is stale exactly if the log has another length than expected, and fails otherwise only by a fault |
| `StoreSpec.ExtendedValid` | intent/store.go:391-419 | Appending a transition with or without holds keeps the indexes exact and each record the fold of its log |
| `StoreSpec.AttachRunIDValid` | intent/store.go:264-295 | Attaching a RunID keeps every index exact |
| `StoreSpec.CreateAutomaticValid` | intent/store.go:186-215 | Recording an automatic intent keeps every index exact, whatever the fault |
| `StoreSpec.CreateExplicitValid` | intent/store.go:233-261 | Recording an explicit intent keeps every index exact, whatever the fault |
| `MemoryStores.MemoryStore.constructor` | intent/store.go:122-131 | A new store is empty and valid |
| `MemoryStores.MemoryStore.LookupAutomatic` | intent/store.go:135-148 | Finds an intent exactly if one is recorded for the policy and subject, and returns that intent |
| `MemoryStores.MemoryStore.LookupExplicit` | intent/store.go:151-164 | Finds an intent exactly if one is recorded for the operation |
| `MemoryStores.MemoryStore.CreateAutomatic` | intent/store.go:186-215 | Creates or replays any draft under the automatic key, with every fault leaving the store unchanged; keeps the invariant on the drafts of the Service |
| `MemoryStores.MemoryStore.CreateAutomaticAdmitted` | intent/store.go:423-454 | The same, conditional on the policy being ACTIVE at the evaluated epoch |
| `MemoryStores.MemoryStore.CreateExplicit` | intent/store.go:233-261 | Creates or replays under the operation id after the draft check |
| `MemoryStores.MemoryStore.AttachRunID` | intent/store.go:264-295 | Sets a RunID once, refuses a second RunID and a RunID attached elsewhere |
| `MemoryStores.MemoryStore.Get` | intent/store.go:298-310 | Reads one intent by id |
| `MemoryStores.MemoryStore.GetPolicy` | intent/store.go:314-324 | The record returned is the fold of the policy's log |
| `MemoryStores.MemoryStore.GetPolicyMembership` | intent/store.go:339-353 | Record and membership are read in one step, and the lists are the sorted held and attached intents of the policy |
| `MemoryStores.MemoryStore.MembershipLocked` | intent/store.go:355-372 | One pass over the automatic index in any order yields the sorted held and attached lists |
| `MemoryStores.MemoryStore.AppendPolicyTransition` | intent/store.go:375-420 | Compare-and-append on the log's length alone, with record, holds and membership in one write |
| `MemoryStores.MemoryStore.HoldUnassigned` | intent/store.go:391-405 | Collecting only the intents not yet BLOCKED holds every unassigned automatic intent of the policy |
| `MemoryStores.MemoryStore.UpdateBlocker` | intent/store.go:457-482 | Sets one owner's slot and no other, or reports an unknown owner |
| `Intents.Blockers.SetSlot` | intent/admission.go:140-152 | Writing one owner's slot changes that slot and no other owner's |
| `RowRefinement.RunRefines` | intent/sqlite_store.go:887-1121 | Any list of calls gives the same answers on the durable row store as on the indexed store, in the same order, whichever queries fail in the driver and whichever transactions fail to commit, and ends in related states; a call that cannot read or does not commit is one the indexed store skips |
| `RowRefinement.StoresAgree` | intent/sqlite_store.go:887-1121 | In particular the two stores agree from their creation on |
| `RowRefinement.EventRefines` | intent/sqlite_store.go:846-872 | One create, lookup, attach, get or blocker call from related states, with or without a failing query or commit, gives the same answer and keeps the relation |
| `RowRefinement.CreateAutomaticRefines` | intent/sqlite_store.go:956-983 | The row create agrees with the indexed create, an identifier collision differing only in its class |
| `RowRefinement.AttachRunIDRefines` | intent/sqlite_store.go:1019-1059 | The row attach agrees with the indexed attach, including both conflicts |
| `RowRefinement.UpdateBlockerRefines` | intent/sqlite_store.go:1089-1121 | The row blocker update agrees with the indexed one |
| `RowRefinement.FailureKeepsRows` | intent/sqlite_store.go:846-872 | A call that fails at any staged step or at the commit leaves every row unchanged |
| `RowRefinement.EpochLimitExact` | intent/sqlite_store.go:910-913 | For a draft whose epoch exceeds the column the stores agree exactly if the intent existed already or the attempt failed before the insert |
| `RowRefinement.ColumnsHold` | intent/sqlite_store.go:910-930 | Every column holds the field it is named after, and a row reads back unless its epoch is negative |
| `RowStores.SQLiteStore.QueryIntent` | intent/sqlite_store.go:887-908 | The row selected is the query's single match, whichever row the database finds first; a query that the driver fails, and a negative epoch, are errors |
| `RowStores.SQLiteStore.CreateAutomatic` | intent/sqlite_store.go:956-983 | Lookup and insert in one transaction; keeps the primary key and the unique indexes |
| `RowStores.SQLiteStore.CreateExplicit` | intent/sqlite_store.go:986-1016 | The same for explicit intents after the draft check |
| `RowStores.SQLiteStore.AttachRunID` | intent/sqlite_store.go:1019-1059 | Reads, checks the owner of the RunID and updates one row in one transaction |
| `RowStores.SQLiteStore.UpdateBlocker` | intent/sqlite_store.go:1089-1121 | Updates one blocker column of one row in one transaction |
| `RowStores.SQLiteStore.Get` | intent/sqlite_store.go:1062-1078 | Reads one row by id |
| `SqlText.SqlTokens` | intent/sqlite_store.go:513-584 | The index-driven tokenizer terminates, stays in bounds and computes the lexeme-by-lexeme reading |
| `SqlText.QuotedEnd` | intent/sqlite_store.go:589-601 | Finds the end of a quoted run with doubled closers, or none |
| `SqlText.RenderingReadsBack` | intent/sqlite_store.go:510-584 | However a token list is written, in any case and quoting and with gaps that begin with whitespace and may hold comments, it tokenizes back to that list |
| `SqlText.LeadingGap` | intent/sqlite_store.go:510-536 | Whitespace and comments before the text do not show |
| `SqlText.QuotingReadsBack` | intent/sqlite_store.go:537-561 | Quoting with doubled closers is undone up to ASCII case for identifiers and exactly for string literals |
| `SqlText.OneCharacter` | intent/sqlite_store.go:513-584 | Each single character is whitespace, a word in lower case, the start of a quoted run that does not end, or an operator |
| `SqlText.LiteralsDistinct` | intent/sqlite_store.go:537-543 | Different literal bodies give different literal tokens |
| `SqlPredicates.EnclosingIffWrapped` | intent/sqlite_store.go:642-656 | On balanced tokens the enclosing test holds exactly for a balanced list in one pair of parentheses |
| `SqlPredicates.StripRemovesLayers` | intent/sqlite_store.go:640-663 | Stripping balanced tokens removes whole enclosing layers and leaves a balanced list that no pair encloses |
| `SqlPredicates.StripIsTheCore` | intent/sqlite_store.go:640-663 | There is one such core, and stripping finds it |
| `SqlPredicates.StripWrap` | intent/sqlite_store.go:640-663 | One more pair of parentheses around balanced tokens makes no difference |
| `SqlPredicates.StripIdempotent` | intent/sqlite_store.go:640-663 | Stripping twice is stripping once, balanced or not |
| `SqlPredicates.StripOuterParens` | intent/sqlite_store.go:641-663 | The loop strips layer by layer with the depth count and terminates |
| `SqlPredicates.IndexPredicate` | intent/sqlite_store.go:621-638 | Reads the tokens after the first WHERE outside parentheses and strips them |
| `SqlPredicates.PredicateMeans` | intent/sqlite_store.go:619-638 | The predicate of a text is what follows the first bare word where with no parenthesis open, stripped |
| `SqlPredicates.PredicateIgnoresSpelling` | intent/sqlite_store.go:619-638 | The predicate read from an index text depends neither on how the text is written nor on how many parentheses enclose the predicate |
| `SqlPredicates.EqualTokens` | intent/sqlite_store.go:665-675 | Decides equality of token lists up to bare and quoted spellings of a name |
| `SqlPredicates.SameTokenMeans` | intent/sqlite_store.go:665-675 | Two tokens are the same exactly if they have one text and are both names, both literals or both punctuation |
| `SqlPredicates.ColumnDefinitions` | intent/sqlite_store.go:461-495 | The scan with its depth count computes the fold over the tokens |
| `SqlPredicates.DefinitionsOfList` | intent/sqlite_store.go:457-495 | For a definition list of balanced elements the result maps the first token of each element to its other tokens, the first of a name standing, whatever follows the list |
| `SqlPredicates.DefinitionsMean` | intent/sqlite_store.go:461-495 | A name is defined exactly if some element begins with it, and by the rest of the first such element |
| `Cycles.Search.Visit` | validate.go:253-280 | The three-colour visit keeps the finishing order, terminates on the white vertices, and returns a vertex only if it lies on a cycle |
| `Cycles.FindCycle` | lowering/check.go:139-170 | Reports a vertex exactly if some cycle is reachable from the listed vertices, and the vertex lies on one |
| `Cycles.ListedReachesAll` | validate.go:246-284 | When every edge starts at a listed vertex, no cycle escapes the search |
| `Validation.DetectCycle` | validate.go:246-284 | Answers none exactly if the dependency graph has no cycle; a returned node lies on one |
| `Validation.EdgeFault` | validate.go:86-110 | Answers none exactly on compatible placed edges, EDGE_INVALID exactly on dangling ones, and a format mismatch only on mismatched formats |
| `Validation.CheckNodes` | validate.go:31-72 | Accepts exactly lists of distinct, resolvable, well parameterised nodes and pins each to its declaration |
| `Validation.CheckEdges` | validate.go:79-112 | Accepts exactly duplicate-free lists of compatible edges and counts the providers of each input |
| `Validation.CheckProviders` | validate.go:182-195 | Two passes over the maps in any order decide the provider rules exactly |
| `Validation.Validate` | validate.go:19-203 | Accepts exactly the acceptable contracts, stated without order, and a refusal's code names a violation that is there |
| `ValidationRules.AcceptableMeans` | validate.go:19-203 | Validation accepts exactly the contracts that keep the published rules, written out on the contract and the resolvers: formats equal and known at both ends, allowed parameter values, one provider an input, required inputs fed, no cycle |
| `ValidationRules.ReportsMean` | validate.go:19-203 | Each error code is given only for what it stands for, written out in the same terms |
| `ValidationOrder.ValidationFactors` | store.go:79-111 | Contracts without a reserved profile that share a canonical text are both accepted or both refused under the same resolvers |
| `ValidationOrder.ValidationOfCanonical` | store.go:132-139 | Validating the re-parsed canonical form is validating the contract |
| `StrictWalk.DocumentDecided` | parse.go:55-69 | Any JSON document, with any whitespace, numbers, booleans and spelling of its strings, is read back if it holds no null and no repeated key, and is otherwise refused with the class of the first of these in document order |
| `Json.ParsedIsStrict` | parse.go:152-197 | A parsed value holds no null and no object with a repeated key, at any depth |
| `Json.PrintReadsBack` | canonical.go:147-164 | Printed trees of strings, arrays and objects parse back to themselves (string escapes of section 7 of RFC 8259) |
| `StringGrammar.StringReads` | parse.go:55-69 | Every string written in plain characters, short escapes, code units and surrogate pairs is read as the characters they stand for (section 7 of RFC 8259) |
| `StringGrammar.StringParses` | parse.go:55-69 | Every string that is read is written in such pieces: nothing else is accepted |
| `StrictWalk.FirstCharacter` | parse.go:55-69 | Exactly four characters are white space before a value, and a value begins only with a quote, a bracket, a sign, a digit or one of three letters |
| `Surrogates.RejectUnpairedSurrogateEscapes` | parse.go:77-125 | The backslash-parity scan stays in bounds, terminates and accepts exactly the texts in which a left-to-right escape reader finds every high surrogate directly followed by a low one and no other low one |
| `Surrogates.ParseHex4` | parse.go:129-150 | Reads exactly four hex digits or fails |
| `Surrogates.PrintedIsPaired` | parse.go:71-76 | The scanner never refuses what the canonical printer writes |
| `Canonical.Canonicalize` | canonical.go:19-120 | The buffer written by the loops is the canonical text of the sorted contract |
| `CanonicalOrder.WrittenInOrder` | canonical.go:26-120 | What is written is the contract up to order, with nodes by id, parameters by name, edges by source node and port and then target node and port, bindings by target and then asset, revision and member, slots by id and then target, each by the first differing character |
| `CanonicalOrder.NodesKeepOrder` | canonical.go:26-30 | Nodes that share an id keep the order in which they were authored |
| `CanonicalOrder.CanonicalIsLayout` | canonical.go:19-145 | The canonical text is the ordered contract laid out member by member, the keys in their fixed order and nothing in between |
| `CanonicalOrder.EscapeMeans` | canonical.go:147-164 | How every character is spelled: seven by a short escape, the other control characters and the two line separators by their code unit, all else as itself |
| `Canonical.WriteNode` | canonical.go:122-145 | One node is written with its parameters sorted and the reserved key left out |
| `Canonical.ParseBody` | parse.go:21-53 | The scanner, the walk over the tokens of the document and of what follows it, the decoder and its look-ahead, in this order, compute the strict parse |
| `Canonical.CanonicalReadsBack` | store.go:132-139 | Parsing canonical text yields the sorted contract, so the re-parse never fails |
| `Canonical.SortedTwice` | store.go:128-139 | The sorted contract is its own sort and has the same canonical text |
| `Canonical.CanonicalInjective` | canonical.go:19-120 | Equal canonical text always means equal up to the order of the lists and of each node's parameters |
| `Canonical.CanonicalIdentifies` | canonical.go:19-173 | With distinct node ids and parameter names, canonical texts are equal exactly for contracts equal up to order |
| `TrailingText.TrailingData` | parse.go:49-69 | Text added to any accepted body is accepted, with the same contract, exactly if all escapes are paired and what then stands after the value is blank or begins, after blanks, with a closing bracket; otherwise the whole is refused |
| `TrailingText.TrailingDataExact` | parse.go:49-69 | If the body ends at its contract the condition is on the added text alone |
| `TrailingText.EndsMeans` | parse.go:64-69 | What may follow is white space, and then nothing or a closing bracket |
| `TrailingText.StrayBracketAccepted` | parse.go:64-69 | Any accepted body that ends at its contract is accepted with one stray closing bracket after it, although trailing data is documented as refused |
| `TrailingText.CanonicalTrailing` | parse.go:49-69 | Text after a canonical body is accepted, as the sorted contract, exactly on that condition |
| `Shapes.AcceptedExactly` | parse.go:21-53 | A body is accepted exactly if its escapes are paired, it is a strict document, and the document has the shape of a contract at every depth: known fields only, each with a value of its own shape |
| `Shapes.OverwritesExact` | parse.go:152-197 | In an accepted body no field of any record is given twice exactly if no object has two keys that differ only in letter case |
| `FieldNames.FoldMeans` | parse.go:36-46 | Two characters are spellings of one another exactly if they are equal, the two cases of an ASCII letter, or among the three spellings of S or of K |
| `Shapes.RespelledWins` | parse.go:13-18 | Any contract written with its derivation version given again in other letter case is accepted, and the second value stands, although repeated keys are documented as refused |
| `Shapes.RespelledListMerges` | parse.go:13-18 | A list of nodes given again in other letter case is accepted and decoded onto the elements of the first: a node that gives only an id takes every other field from the first list's first node |
| `Ordering.SortPermutation` | canonical.go:26-60 | Sorting by a key that tells the elements apart does not see the authoring order |
| `Ordering.SortSorted` | canonical.go:166-173 | The sort orders its list by the key tuples |
| `Digests.FingerprintIdentifies` | sqlitestore/sqlite.go:95-105 | A request fingerprint identifies the pipeline and the canonical text, because the digest holds no NUL |
| `Digests.DigestInjective` | digest.go:19-24 | The tagged digest identifies the canonical text |
| `Preparation.RejectReservedCapabilities` | store.go:103-111 | Refuses exactly the contracts in which some node sets the reserved profile |
| `Preparation.PrepareCanonical` | store.go:132-139 | Always succeeds, with the sorted contract, its canonical text and its digest |
| `Preparation.PrepareUnvalidated` | store.go:79-95 | Computes the identity of a body without any resolver |
| `Preparation.Prepare` | store.go:117-126 | Succeeds exactly on acceptable bodies and then prepares the same as without validation; a refusal names a violation that is there |
| `Preparation.IdentityDecidesAcceptance` | store.go:73-78 | Bodies with one digest are accepted alike |
| `Revisions.RevisionStore.Commit` | sqlitestore/sqlite.go:108-273 | Replays, refuses a conflict, converges or mints in one transaction, with every fault before the durable commit leaving the tables unchanged |
| `Revisions.RevisionStore.Mint` | sqlitestore/sqlite.go:220-272 | Validates only genuinely new content and stages three rows; a refusal names a violation that is there |
| `Revisions.RevisionStore.Converge` | sqlitestore/sqlite.go:179-207 | Records a new operation against the existing revision |
| `Revisions.RevisionStore.LoadRevision` | sqlitestore/sqlite.go:289-342 | Fails closed on any mismatch between the columns, the digest and the body |
| `Revisions.RevisionStore.GetRevision` | sqlitestore/sqlite.go:276-283 | Reads through the same loader |
| `RevisionTheorems.TablesAgree` | sqlitestore/sqlite.go:108-273 | After any history revisions and digest-index rows are in bijection, each operation row names a revision matching its fingerprint, and rows are only ever added |
| `RevisionTheorems.ReturnedReads` | sqlitestore/sqlite.go:275-342 | Every revision ever returned passes the loader at any later time and reads as exactly what was returned, with the canonical body of the request |
| `RevisionTheorems.OperationReplaysOneRevision` | sqlitestore/sqlite.go:146-172 | One operation id always answers with one revision |
| `RevisionTheorems.SameRevisionIffSameBody` | sqlitestore/sqlite.go:179-212 | Two successful commits to one pipeline return the same revision exactly if their canonical texts are equal |
| `RevisionTheorems.ConvergenceJustified` | sqlitestore/sqlite.go:214-223 | Whatever revision a commit returns was minted by it or an earlier commit whose resolvers accepted that body, and those resolvers accept this body too |
| `CommitHistory.CommitsExactly` | sqlitestore/sqlite.go:108-273 | A commit succeeds exactly on a named request whose body parses and selects no profile, if nothing fails and its content is its operation's own, known in the pipeline, or accepted as new under a free identifier; otherwise nothing changes |
| `CommitHistory.CreatedExactly` | sqlitestore/sqlite.go:155-172 | A successful call says created exactly if there was no such revision before it, and then under the identifier drawn for it |
| `CommitHistory.CreatedOnce` | sqlitestore/sqlite.go:108-273 | Every returned revision was created by exactly one call |
| `CommitHistory.AddsOnly` | sqlitestore/sqlite.go:220-272 | A successful call adds the returned revision and its own operation, if they are not there, and nothing else |
| `CommitHistory.ReturnedIs` | sqlitestore/sqlite.go:220-272 | The returned revision, field by field: pipeline, versions, canonical body, the hash of the version, a NUL and the body, and the sorted contract |
| `CommitHistory.OperationBound` | sqlitestore/sqlite.go:95-105 | The operation is bound to it for ever under the hash of the pipeline, a NUL and the digest |
| `CommitToRun.ReturnedVerifies` | lowering/lower.go:238-264 | Every revision a successful commit returned passes lowering's verification under the same hash, with the sorted contract of the committed body |
| `CommitToRun.AcceptedLowers` | lowering/lower.go:85-236 | A committed in-profile revision, run with the declarations that any resolvers accepting its body give, lowers exactly if it has a node, every pin runs, every edge names its ports and no output fans out |
| `CommitToRun.CommittedLowers` | lowering/lower.go:85-236 | The commit that minted the revision, at or before the one that returned it, accepted the body under its resolvers, and so the revision lowers under their declarations exactly on those conditions |
| `RevisionSafety.ConflictExact` | sqlitestore/sqlite.go:155-163 | A known operation conflicts exactly if it is bound to another pipeline or canonical body, and then nothing changes |
| `RevisionSafety.SucceedsExactly` | sqlitestore/sqlite.go:179-272 | A new operation succeeds exactly if nothing fails and its content is known, or accepted with a free identifier; it creates exactly if the content is new |
| `RevisionSafety.CorruptionRefused` | sqlitestore/sqlite.go:308-331 | A loadable row that was changed, but not in both body and digest, fails closed |
| `RevisionSafety.CommitKeeps` | sqlitestore/sqlite.go:108-273 | Each commit keeps the three tables consistent |
| `RevisionSafety.CommitExtends` | sqlitestore/sqlite.go:108-273 | Each commit only adds rows |
| `Lowering.CheckFrozen` | lowering/lower.go:85-105 | Passes exactly the complete, intact, in-profile, authorised inputs; a refusal's code names a defect that is there |
| `Lowering.VerifyExact` | lowering/lower.go:238-264 | Passes exactly the named v1 revisions whose stored text and digest are those of the contract they carry, and returns that contract; a refusal's code names a defect that is there |
| `Lowering.CheckProfile` | lowering/lower.go:266-283 | Passes exactly contracts without profiles, parameters, bindings and slots; a refusal's code names the feature that is there |
| `Lowering.LowerNodes` | lowering/lower.go:107-141 | Succeeds exactly on distinct named nodes with frozen declarations and pinned runnables; a refusal's code names a node that fails |
| `Lowering.UsePorts` | lowering/lower.go:145-186 | Succeeds exactly if every edge fits its declarations, no output fans out and no input is bound twice; a refusal's code names the edge or pair of edges |
| `Lowering.EmitEdges` | lowering/lower.go:188-201 | Each edge appends one binding at its consumer and its node pair once |
| `Lowering.CheckRequired` | lowering/lower.go:203-210 | Passes exactly if every required input is bound |
| `LoweringPass.Lower` | lowering/lower.go:85-236 | Succeeds with a lowering or fails exactly when none exists; the code names a violation that is there and is never SAME_SOURCE_VIOLATION |
| `SpecCheck.CheckSpec` | lowering/check.go:22-117 | Accepts exactly the well-formed specs; a refusal's code names a violation that is there, SAME_SOURCE_VIOLATION one between edges and bindings |
| `SpecRules.SpecMeans` | lowering/check.go:22-117 | The checker accepts exactly the specifications that keep the rules, written out on the specification alone |
| `SpecRules.PinnedImageMeans` | lowering/lower.go:81 | An image is pinned exactly if it is a name, the algorithm and 64 lower-case hex digits |
| `SpecCheck.CheckConsumer` | lowering/check.go:80-109 | One consumer's bindings are distinct, filled and derived, and exactly their edges are marked |
| `LoweringLaws.LoweredSameSource` | lowering/check.go:80-115 | The spec lowering builds always has one consistent source |
| `LoweringLaws.CheckerAccepts` | lowering/lower.go:232-234 | The independent checker accepts a lowered spec exactly if there is a node, every edge names its ports and the dependencies have no cycle |
| `LoweringEdges.LoweringPreservesEdges` | lowering/lower.go:143-201 | Read back from the bindings the edges are exactly the contract's, each once; graph edges are their node-pair projection without repeats; nodes are the contract's in id order |
| `LoweredContent.LoweredNodesExecute` | lowering/lower.go:107-141 | The nodes are the contract's, and each has the image, command and arguments of the runnable its node is pinned to and exactly the declared inputs and outputs in increasing order |
| `LoweredContent.LoweredNodesInOrder` | lowering/lower.go:107-112 | The nodes stand in the order of their ids |
| `LoweredContent.LoweredBindingsCarry` | lowering/lower.go:188-201 | Every binding carries an edge of the contract into its node: named after the input, drawn from that producer and output, and required exactly as declared |
| `LoweredContent.LoweredBindingsInOrder` | lowering/lower.go:143-201 | The bindings of a node stand in the order of producer, output and input |
| `LoweredContent.LoweredGraph` | lowering/lower.go:143-201 | The graph's edges are exactly the pairs of nodes that a contract edge joins, from producer to consumer, each once, in the order of the producers |
| `LoweredContent.LoweredRun` | lowering/lower.go:212-227 | Run id, timestamp, requester and trace are the input's own, the metadata is the revision's pipeline, id and digest under their three keys, and the run fails fast and tries once |
| `LoweringEdges.RequiredCarries` | lowering/lower.go:188-195 | A binding is required exactly if the frozen declaration of its input says so |
| `LoweringEdges.OrderIndependent` | lowering/lower.go:83-84 | The lowered spec does not depend on the order in which the contract was authored |
| `LoweringAgreement.LoweringAgreesWithValidation` | lowering/lower.go:85-236 | For an authorised, intact, in-profile revision lowering succeeds with named pins exactly if validation accepts the contract under the same declarations, there is a node, every pin runs, every edge names its ports and no output fans out |
| `LoweringRules.LowersExactly` | lowering/lower.go:85-236 | Lowering a contract with named pins succeeds exactly if the input is in order, the contract keeps the rules of validation under the frozen declarations and the graph can be represented, all written out |
| `LoweringWitnesses.NoNodesOnlyValid` | lowering/check.go:38-40 | A contract without nodes is valid and has no lowering, whatever the runnables |
| `LoweringWitnesses.FanOutOnlyValid` | lowering/lower.go:177-180 | A contract in which one output feeds two inputs is valid and has no lowering |
| `LoweringWitnesses.UnnamedPortsOnlyValid` | lowering/check.go:84-86 | A contract with an edge from or to a port named by the empty string is valid and has no lowering |
| `LoweringWitnesses.EmptyPinOnlyLowered` | validate.go:49-51 | A node with an empty pin has a lowering when a declaration and a runnable are frozen under the empty key, and is never valid |

## Left out

- MemoryStores.MemoryStore.CreateAutomatic: takes any draft, but promises the store invariant only for the drafts the Service builds (automatic origin, empty RunID and operation, clear blockers); a draft with a RunID or another origin would leave it unindexed.
- MemoryStores.MemoryStore.CreateAutomaticAdmitted: promises the store invariant only for the same drafts.
- RowRefinement.RunRefines: assumes that automatic drafts are the Service's and that epochs fit a signed 64-bit column; `EpochLimitExact` says what happens otherwise.
- Lowering.UsePorts: the program's single loop over the edges is modelled as two passes, this one for the checks and `EmitEdges` for the bindings and pairs; a check that fails discards the output either way.
- Canonical.ParseBody: the decoder's nesting limit is not modelled.
- Validation.Validate: an asset or tool lookup answers with a declaration or fails; cancellation of the call is not modelled.
- SpecCheck.CheckSpec: timestamps are zero, not encodable or an opaque instant; RFC 3339 encoding is not modelled.
- Canonical.Canonicalize: the sorts that are not stable in the program are stable here, which shows only on lists with repeated keys.
- Revisions.RevisionStore.Commit: driver errors other than at the injection point and at the durable commit are not modelled; they leave the tables unchanged by rollback.
- Unsigned 64-bit epochs and log numbers are unbounded naturals, except for the signed column of the durable store.
- The open-time schema audit as a whole, PRAGMA and trigger queries, connection pools and busy timeouts: queries and flat comparisons around the driver.
- The policy methods of the durable intent store, which always fail closed.
- The mutex, `context` values and error message text: one store call is one step, and errors are their classes, with one class for errors that carry none.
- UUIDs are identifiers supplied by the environment; SHA-256 is the abstract hash.
- The image pattern is spelled out as a predicate on the text rather than as a regular expression.
- `fake/fake.go`, map-backed resolvers that look a key up, and the Service's plain reads and constructor checks, each a guard around one store call.
