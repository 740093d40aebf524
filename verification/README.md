# The autonomy control plane, modelled and proved

`paa-runtime` keeps the authority of a task (manual, human-in-the-loop,
human-on-the-loop, autonomous) as an append-only stream of events. The current
position is never stored: it is folded from the task declaration's initial
position and the latest `position_changed` row of the exact
(task, version, scope), in `(created_at, id)` order. `propose`, `approve`,
`reject` and `demote` each write their rows in one transaction, bound to a
content-addressed evidence artifact.

## How the model is built

- `Events`, `Reads`: rows, their total order, the store's constraints, and what
  its four readers mean, as functions of the *set* of rows.
- `SqliteStore`: the database (committed rows, pending rows, one write lock) and
  connections to it, as classes; the readers are loops proved equal to `Reads`.
- `Declarations`, `Placements`: the cross-field rules, the placement-override
  validator with its `claimed_by` loop, and first-match lookup.
- `Lifecycle`: the rows one transaction may add, and runs of such transactions.
  `Histories` proves what needs no clock; `Chain` and `Authority` what does;
  `ChainExact` which runs keep their chains, whatever the clock; `BackwardClock`
  and `SplitLoad` what goes wrong without the hypotheses below; `Motions`,
  `Resolution` and `Listing` the projections.
- `Answers`: the same answers and the rows written, stated on the fields of rows,
  declarations and files, for any store.
- `Decisions`, `Outcomes`, `Service`: what each call answers, as a function of
  what it reads; the calls as methods over the store classes that compute
  exactly that; and proofs that what they write is a `Lifecycle` transaction.
- `Evidence`, `Publication`: references and verification; `store_evidence` as a
  method over a directory, and as a protocol of racing writers.
- `Clients`, `ClientRuns`, `EvidenceBinding`: any number of clients taking small
  steps (locking, verifying, deciding, one insert at a time, committing) with
  an exception or crash possible before each step, version switches between
  calls, and other evidence writers. Every such run is proved to be a history of
  whole transactions, so every result about histories holds for it.
- `CallsAsSteps`: the calls and the small steps of a client go on in the same states;
  `approve` and a client alone write the same.
- `Replay`, `Timestamps`: archive import; the timestamp text.
- `Pointers`, `Documents`, `Mutations`: JSON Pointer text; documents as values;
  the mutations as in-place edits of Python objects, which are cells of one
  mutable memory linked by references.

## Hypotheses

- **H1** (`Lifecycle.Orderly`): the rows of each transaction sort, by
  `(created_at, id)`, after all rows committed before it; ties and any id order
  inside one transaction are allowed. The code does not enforce it. Results that
  need H1 say so. Without it:
  - `ChainExact.ExecutionMovesIff`: an execution moves its scope exactly if its
    change is newer than all others there (else it ends at the target only if it
    was there already, which no demotion finds), and takes it from source to target exactly if
    it also leaves the position then in force. The runs in which every execution
    on a scope meets this guard are the runs in which all of them take effect
    (`EffectiveIff`), the changes form one path at every moment
    (`ChainIntegrityIff`), and two-edge conservation holds (`ConservationIff`).
  - `Histories.StaleAfterIff`: an execution makes a proposal of its scope stale
    exactly if its change sorts after it; so two open proposals are both executed
    only if the change of one sorts before the other (`BothExecutedOnlyIf`).
  - Both halves of the guard, and exclusivity, do fail when the clock steps back:
    in `BackwardClock.DemotionLost` the change of an executed emergency demotion
    is not the newest and moves nothing; in `BackwardClock.OvertakenApproval`
    every change is the newest, two proposals open at one revision are both
    executed, and the second leaves a position that is no longer in force.
- **H2** (`Lifecycle.Accepted`, `Decisions.LoadedFrom`): a (task, version) pair
  always names the same accepted declaration, and the declaration does not
  change between the two loads of one `demote` call
  (`Clients.NoDemotionBetweenLoads`). `SplitLoad` drops the second half: it says
  exactly when a change between the loads leaves the recorded chain whole, and
  shows one that breaks it.
- The digest is an arbitrary function whose output is 64 lower-case hex digits;
  collisions are not excluded. `int(token)` in list indexing is an arbitrary
  partial function from text.
- Ids, times, actors, loaded declarations, and what other clients and writers do
  during a call are parameters, universally quantified.

## Where the code's own words and the code differ

- The module text of `evidence.py` and the docstring of `store_evidence` speak of
  an `os.replace`; the code publishes with `os.link`, which never overwrites
  (src/paa_runtime/evidence.py:85-87, src/paa_runtime/evidence.py:116-122). The
  model follows the code.
- `MutationError` promises to cover every mutation that does not apply
  (conformance/_mutations.py:19-26); assigning under a scalar, or at a list token
  that is no integer, raises something else (conformance/_mutations.py:72-80).
  The model calls these `Uncaught`; `Mutations.UncaughtIff` says exactly when they
  occur and `Mutations.MisplacedInputs` gives inputs.

## Model

| member | source | states |
|---|---|---|
| Reads.LastIsGreatest | src/paa_runtime/sqlite_store.py:246-256 | the latest-row lookup of any rows with distinct ids is the row all others precede, and is absent only when nothing matches |
| Reads.ListingUnique | src/paa_runtime/store.py:114-123 | ordering by (created_at, id) leaves exactly one possible listing of a set of rows |
| Reads.ListingExists | src/paa_runtime/store.py:114-123 | every set of rows with distinct ids has such a listing |
| Events.PrecedesTransitive | src/paa_runtime/sqlite_store.py:275-276 | the strict tuple comparison chains |
| Events.PrecedesTotal | src/paa_runtime/sqlite_store.py:275-276 | the strict tuple comparison decides any two rows with different ids |
| Text.LessMeans | src/paa_runtime/sqlite_store.py:246-256 | text order: at the first difference one text has ended or has the smaller character |
| Reads.LatestFields | src/paa_runtime/sqlite_store.py:231-256 | on the fields: the latest change of a task, version and scope is the one no other follows by created_at, then id |
| Reads.LatestBeforeFields | src/paa_runtime/sqlite_store.py:258-291 | on the fields: the same among the changes strictly before a point |
| Reads.ListsFields | src/paa_runtime/sqlite_store.py:293-304 | on the fields: a listing has every row once, by created_at, then id |
| SqliteStore.ConsistentFields | src/paa_runtime/sqlite_store.py:48-80 | on the fields: the four kinds and positions only, no id twice, no motion with two rows of one kind |
| SqliteStore.SqliteEventStore.constructor | src/paa_runtime/sqlite_store.py:122-137 | a new connection is in no transaction and holds no lock |
| SqliteStore.SqliteEventStore.Begin | src/paa_runtime/sqlite_store.py:143-154 | a deferred transaction opens without a lock; a nested one is refused and changes nothing |
| SqliteStore.SqliteEventStore.BeginImmediate | src/paa_runtime/sqlite_store.py:156-168 | takes the one write lock or refuses, nested or contended, with nothing changed |
| SqliteStore.SqliteEventStore.Insert | src/paa_runtime/sqlite_store.py:170-221 | outside a transaction, against a held lock or against any CHECK, primary-key or unique constraint the row is refused and no row changes; otherwise it is visible to this connection only |
| SqliteStore.SqliteEventStore.Commit | src/paa_runtime/sqlite_store.py:149-154 | all pending rows become committed at once, after every older row, and the lock is freed |
| SqliteStore.SqliteEventStore.Rollback | src/paa_runtime/sqlite_store.py:150-152 | the committed rows are exactly as before and the lock is freed |
| SqliteStore.SqliteEventStore.GetAutonomyEventsForMotion | src/paa_runtime/sqlite_store.py:223-229 | the scan returns the one ordered listing of the motion's visible rows |
| SqliteStore.SqliteEventStore.GetAutonomyEvents | src/paa_runtime/sqlite_store.py:293-304 | the scan returns the one ordered listing of all visible rows, or of one task's |
| SqliteStore.SqliteEventStore.GetLatestPositionChangedEvent | src/paa_runtime/sqlite_store.py:231-256 | the scan returns the greatest change of the exact triple, null scope being a scope of its own |
| SqliteStore.SqliteEventStore.GetPositionChangedEventBefore | src/paa_runtime/sqlite_store.py:258-291 | the scan returns the greatest change of the exact triple strictly before the point |
| SqliteStore.ConsistentExtend | src/paa_runtime/sqlite_store.py:48-92 | a row is refused exactly when adding it would break a constraint |
| Declarations.ValidateSemantics | src/paa_runtime/declarations.py:631-675 | accepts exactly the declarations that keep every cross-field rule, and otherwise reports the first break in scan order |
| Declarations.ValidatePlacementOverrides | src/paa_runtime/declarations.py:576-628 | scans positions in name order and reports the first override that is broken, if any is |
| Declarations.ValidatePosition | src/paa_runtime/declarations.py:584-628 | the claims loop finds the first broken override of a position, naming the first claimant of a duplicate |
| Declarations.Picks | src/paa_runtime/declarations.py:594-598 | the indices of exactly the evaluators a selector matches, ascending |
| Declarations.SoundIffUnbroken | src/paa_runtime/declarations.py:70-78 | the site-by-site rules together say: declared positions, edges that move, and overrides that each pick one evaluator, no evaluator twice, and change its mode |
| Placements.AtMostOneMatches | src/paa_runtime/declarations.py:221-230 | after acceptance no evaluator, declared or not, matches two overrides of a position |
| Placements.AcceptedIff | src/paa_runtime/declarations.py:583-675 | on the fields: accepted if and only if the positions named are declared, both edges move, and each override has one evaluator of its property, technique and given version, shared with no other, and changes its mode |
| Placements.ForEvaluatorIff | src/paa_runtime/declarations.py:192-230 | on the fields: an evaluator of an accepted declaration runs in a mode other than the default if and only if an override of that mode has its property, its technique and no version or its version |
| Placements.FirstBreakReports | src/paa_runtime/declarations.py:583-675 | on the fields: what is reported is the first rule about positions that is broken, else the first override in scan order that is, with what its code says being true of it |
| Placements.OrderIndependent | src/paa_runtime/declarations.py:221-230 | permuting the overrides of an accepted declaration changes no lookup |
| Placements.OverriddenCount | src/paa_runtime/declarations.py:576-582 | at each position the declared evaluators whose mode leaves the default are exactly as many as the overrides |
| Histories.InvStep | src/paa_runtime/service.py:44-47 | each transaction keeps: constraints, every row agrees with a proposal and a declared edge, approvals and changes come in pairs, rejections stand alone |
| Histories.NewMotionIsNew | src/paa_runtime/sqlite_store.py:78-79 | a new motion never lands on an existing motion id; the unique index, not freshness of ids, ensures it |
| Histories.MotionShape | src/paa_runtime/service.py:517-532 | in every run each motion is {proposed}, {proposed, rejected} or {proposed, approved, changed}, its rows agreeing on all identity fields |
| Histories.StaleExactly | src/paa_runtime/service.py:501-515 | on every table, with no clock assumption, the two-read identity test fails if and only if a change of the triple sorts after the proposal |
| Histories.StaleStays | src/paa_runtime/service.py:493-500 | stale once, stale in every larger table |
| Histories.StaleNeverExecutes | src/paa_runtime/service.py:493-515 | no run ever executes a proposal that has gone stale |
| Histories.StaleAfterIff | src/paa_runtime/service.py:501-515 | with no clock assumption, an execution leaves a proposal of its scope stale if and only if it was, or the new change sorts after it |
| Histories.StillApprovableIff | src/paa_runtime/service.py:493-532 | an open, approvable proposal is still so after another motion of its scope is executed if and only if that change sorts before it |
| Histories.BothExecutedOnlyIf | src/paa_runtime/service.py:493-515 | in every run, whatever its clock, two proposals of one scope are both executed only if the change of one sorts before the other proposal |
| Histories.DecisionsAreFinal | src/paa_runtime/service.py:76-79 | once decided, a motion never gets another row |
| Histories.OtherTriplesUnmoved | src/paa_runtime/service.py:405-424 | proposals and rejections move no position, approvals and demotions none but their own exact triple's |
| Motions.ProjectIsView | src/paa_runtime/service.py:310-350 | projecting a motion's rows gives the same motion in whatever order they are read |
| Motions.StatusMeans | src/paa_runtime/service.py:320-328 | in reachable states "approved" is never projected, and each status says exactly which rows exist |
| Motions.StatusIsMonotone | src/paa_runtime/service.py:310-350 | along every run status moves only from proposed to executed or rejected, the proposal's fields never change, and a decided projection never changes at all |
| Motions.StaleEndsUnexecuted | src/paa_runtime/service.py:493-515 | a stale open proposal ends proposed or rejected in every future, even if the position cycles back |
| Chain.RevisionOfNew | src/paa_runtime/service.py:384-388 | under H1 a row being written sees every committed change before it, and at most its own transaction's |
| Chain.ExecutedFromFold | src/paa_runtime/service.py:501-515 | what an approval or demotion executes starts at the position in force at that moment |
| Chain.ChainedStep | src/paa_runtime/service.py:405-424 | under H1 each transaction keeps: open proposals and changes start where the history before them ends |
| Authority.ChainIntegrity | src/paa_runtime/service.py:260-277 | in every run under H1 the changes of every exact scope, in order, form one path from the initial position, and the fold is its end |
| Authority.ExecutedAtItsRevision | src/paa_runtime/service.py:493-515 | under H1 an open proposal executed at any later time is executed at the position revision it was made at |
| Authority.AtMostOneExecutes | src/paa_runtime/service.py:493-515 | of all proposals open on one exact scope, whatever their revisions, at most one is ever executed by transactions that keep H1 |
| Authority.TwoEdgeConservation | src/paa_runtime/service.py:244-257 | when demotion undoes promotion, executed promotions and demotions alternate, and their difference is 1 exactly at the promoted position, else 0 (H1) |
| ChainExact.ChangeKeepsChainIff | src/paa_runtime/sqlite_store.py:246-256 | whatever rows bring one new change to a scope whose changes each start where the one before ended, that still holds if and only if the new change is the newest there and leaves the position in force |
| ChainExact.ChainKeptIff | src/paa_runtime/service.py:501-532 | with no clock assumption, any transaction keeps a whole chain whole if and only if, in case it executes there, its change is the newest and leaves the position in force |
| ChainExact.ChainIntegrityIff | src/paa_runtime/service.py:260-277 | in every run, whatever its clock, the changes of an exact scope form one path at every moment if and only if every execution there met that guard |
| ChainExact.ExecutionMovesIff | src/paa_runtime/service.py:517-532 | with no clock assumption: an execution becomes its scope's latest change exactly if it is the newest, otherwise moves nothing, takes the scope from source to target exactly if it meets the guard, and a demotion moves it exactly if it is the newest |
| ChainExact.EffectiveIff | src/paa_runtime/service.py:517-532 | in every run every execution on a scope takes effect if and only if each met that guard |
| ChainExact.ConservationIff | src/paa_runtime/service.py:244-257 | in every run, when demotion undoes promotion, the two alternate and differ by one exactly at the promoted position at every moment if and only if every execution met that guard |
| ChainExact.OrderlyIsGuarded | src/paa_runtime/service.py:405-424 | under H1 every execution meets the guard |
| BackwardClock.DemotionLost | src/paa_runtime/service.py:646-688 | for any two clock readings of which the later came first, and evidence that does not collide: propose, approve and demote all write and the demotion projects to executed, yet its change is not the newest, the folded position stays promoted, and the changes form no path |
| BackwardClock.OvertakenApproval | src/paa_runtime/service.py:493-532 | for any two such readings: two proposals open at one revision are both approved and executed, each change is the newest of its scope when it commits, and the two form no path |
| Resolution.ResolutionProvenance | src/paa_runtime/service.py:122-133 | every resolved position is in the policy, and is the initial one of an untouched scope or the target of the executed, approved motion it names |
| Resolution.RowsAreGoverned | src/paa_runtime/service.py:229-257 | every committed row records a declared edge between two different declared positions in a declared scope |
| Decisions.ApproveIsStep | src/paa_runtime/service.py:445-532 | when approve writes, its rows are one enabled approval and its evidence verified in that state |
| Decisions.RejectIsStep | src/paa_runtime/service.py:554-595 | when reject writes, its row is one enabled rejection |
| Answers.CheckedProposalIsStep | src/paa_runtime/service.py:366-423 | when both checks of propose pass, its row is one legal proposal, in a scope the declaration lists, from the fold at its insert |
| Answers.StatusOf | src/paa_runtime/service.py:320-350 | on any store: which rows a motion has decides its status and which of its fields stay empty |
| Answers.ApproveByRows | src/paa_runtime/service.py:448-475 | on any store: the rows of a motion decide whether approving it is not found, terminal, corrupt, a repeat or open |
| Answers.ApproveOpen | src/paa_runtime/service.py:477-515 | an open proposal is approved if and only if its evidence verifies, the loaded declaration has its version and one of its edges, and no change of its scope sorts after it; else the first failing check is named |
| Answers.RejectByRows | src/paa_runtime/service.py:557-579 | the same for rejecting |
| Answers.FoldFields | src/paa_runtime/service.py:260-277 | on the fields: the position is the target of the last change of the exact scope, or the initial one |
| Answers.ProposeChecks | src/paa_runtime/service.py:366-395 | the first check of propose that fails, in order; a scope the declaration lists is never refused as one |
| Answers.DemoteChecks | src/paa_runtime/service.py:646-653 | the first check of demote under its lock that fails |
| Decisions.DemoteIsStep | src/paa_runtime/service.py:646-684 | when demote writes under H2, its rows are one enabled demotion |
| Decisions.AppendedWereAdmitted | src/paa_runtime/sqlite_store.py:208-221 | rows that kept the constraints were new to the table and may all stand in it |
| Decisions.VerdictByStatus | src/paa_runtime/service.py:456-475 | in reachable states no call reports corruption; repeating a decision repeats its answer, the opposite one is terminal, and only a proposed motion can be written to |
| Decisions.DecisionsRepeat | src/paa_runtime/service.py:456-475 | once a motion is decided, in every later state of every run the deciding call answers the same motion with no write and the opposite call is terminal |
| SplitLoad.SplitDemotionLegalIff | src/paa_runtime/service.py:640-654 | with different declarations at its two loads, what a demotion writes is legal for the version it records if and only if both versions were at the same position |
| SplitLoad.SplitDemotionKeepsPathIff | src/paa_runtime/service.py:646-684 | once its rows are committed, the recorded scope's changes still form one path if and only if both versions were at the same position and the new change is the newest there |
| SplitLoad.HarmfulSwitch | src/paa_runtime/service.py:640-684 | for every pair of versions of which only the second starts at the demotion's source, the call writes on an empty store, its motion projects to executed, and its committed change is no path of its version |
| Outcomes.ViewReports | src/paa_runtime/service.py:330-350 | which committed row each field of a motion reports |
| Outcomes.ApproveReturns | src/paa_runtime/service.py:534-536 | a fresh approval returns the same motion, executed, with the new rows' times and the caller's actor and reason |
| Outcomes.RejectReturns | src/paa_runtime/service.py:596-598 | a fresh rejection returns the same motion, rejected, with the new row's time and the caller's actor and reason |
| Outcomes.ProposeReturns | src/paa_runtime/service.py:408-426 | a new proposal returns an undecided motion with the locked position, the stored artifact and the caller's or default reason |
| Outcomes.DemoteReturns | src/paa_runtime/service.py:668-688 | a demotion returns an executed motion along the declared edge |
| Service.InsertKinds | src/paa_runtime/service.py:517-532 | the insert loop adds all siblings, or stops exactly when the whole batch would break a constraint |
| Service.Approve | src/paa_runtime/service.py:429-536 | answers exactly as decided from the rows under the lock; both rows commit or neither, each with the proposal's seven identity fields, its own kind, id and time, and the caller's name and reason; any failure leaves the store unchanged |
| Service.Reject | src/paa_runtime/service.py:539-598 | answers exactly as decided from the rows under the lock; a rejection commits one row with the proposal's identity and the caller's data, a repeat none |
| Service.Propose | src/paa_runtime/service.py:353-426 | a refused request stores no evidence; whatever others commit after the advisory checks, the one row committed is in a declared scope along a declared edge from the fold at its insert, with the caller's data and evidence; otherwise no row |
| Service.Demote | src/paa_runtime/service.py:625-688 | all three rows commit, each along the demotion edge with the caller's data, and their evidence is the stored record of exactly those facts; or none, and a call refused by a check leaves the evidence directory as it was |
| Service.ResolvePosition | src/paa_runtime/service.py:117-151 | the snapshot names its declaration, deployment and scope, and the latest change of the exact scope or the initial position; or which check refused |
| Sorting.SortedUnique | src/paa_runtime/service.py:748-748 | a strict order arranges given elements in one way only |
| Listing.GroupByMotion | src/paa_runtime/service.py:723-726 | groups are exactly the rows of each motion in the order read, each id once |
| Listing.ProjectGroups | src/paa_runtime/service.py:734-740 | splits all motions into the projectable and the corrupt, missing none |
| Listing.SortMotions | src/paa_runtime/service.py:748-748 | the same motions, strictly ascending by proposal time then id |
| Listing.ListMotions | src/paa_runtime/service.py:712-749 | on any store: fails exactly when some selected motion has no proposal, naming all of them in order; else lists exactly the wanted motions, by proposal time, then id |
| Listing.ReachableListsAll | src/paa_runtime/service.py:728-744 | on reachable stores every motion projects, whatever task is asked for |
| Listing.OneMotionPerId | src/paa_runtime/service.py:724-726 | on reachable stores the listing has exactly one motion per motion id |
| Listing.FilteringAgrees | src/paa_runtime/service.py:746-749 | filtering by task and status in the call is filtering the full listing |
| Replay.ImportEvents | src/paa_runtime/replay.py:14-39 | the whole archive is appended verbatim, or, if any row breaks a constraint, nothing changes |
| Replay.PermutedIsConsistent | src/paa_runtime/replay.py:22-39 | an archive keeps the constraints in every order or in none |
| Replay.PermutationsAnswerAlike | src/paa_runtime/sqlite_store.py:223-304 | any permutation of an export imports into an empty store, and every read, fold and projection then agrees with the original |
| Evidence.ReferenceRoundTrip | src/paa_runtime/evidence.py:59-79 | printing and resolving references are inverse, and nothing but a printed reference resolves |
| Evidence.VerifyExactly | src/paa_runtime/evidence.py:152-177 | verification succeeds exactly for the printed reference of the recorded digest over bytes with that digest, and yields them |
| Evidence.VerifyAnswers | src/paa_runtime/evidence.py:152-177 | on the texts: which of the four failures is reported, in order, or success |
| Evidence.Storing | src/paa_runtime/evidence.py:98-149 | bytes present before a store stay, and it succeeds exactly if its own bytes are at its address after |
| Evidence.EvidenceRoot.AcceptExisting | src/paa_runtime/evidence.py:134-149 | an existing artifact is accepted exactly when it verifies as the caller's own bytes; different bytes are a collision |
| Evidence.EvidenceRoot.StoreEvidence | src/paa_runtime/evidence.py:82-131 | whatever others publish after the existence check, the outcome is decided by the bytes that won the address, and no temporary file remains |
| Evidence.StoredVerifies | src/paa_runtime/evidence.py:152-177 | a stored artifact verifies after any later publications, and storing disturbs nothing that verified |
| Publication.CoherentStep | src/paa_runtime/evidence.py:98-131 | each file operation keeps what every writer's phase promises |
| Publication.PublicationIsSafe | src/paa_runtime/evidence.py:98-149 | for any interleaving of any number of writers and any digest: published bytes never change, success leaves one's own bytes, a collision met different ones, finished writers leave no temporary file, no address holds part of an artifact |
| Publication.AnswersAgree | src/paa_runtime/evidence.py:103-129 | the protocol's answer is the sequential contract's |
| Publication.CanOperate | src/paa_runtime/evidence.py:98-131 | a running call can always take its next file operation |
| Publication.OperationsEnd | src/paa_runtime/evidence.py:98-149 | every operation brings a call nearer its end, and one that ends by itself answers success exactly if its bytes are at its address, else a collision |
| ClientRuns.StepIsTransactionOrNothing | src/paa_runtime/sqlite_store.py:156-168 | each small step leaves the committed rows alone or commits one whole legal transaction |
| ClientRuns.InterleavingsAreHistories | src/paa_runtime/service.py:9-11 | every interleaved run with any failures is a history of whole transactions |
| ClientRuns.ShapesAlways | src/paa_runtime/service.py:76-79 | in every state of every such run each motion has one of the three committed shapes |
| ClientRuns.ChainsAlways | src/paa_runtime/service.py:260-277 | in every such run whose commits kept H1 the changes of every exact scope form one path |
| ClientRuns.ChainsAlwaysIff | src/paa_runtime/service.py:501-532 | and with no clock assumption they do at every moment, and every execution took effect, if and only if each one committed there met its guard |
| ClientRuns.CommitMovesIff | src/paa_runtime/service.py:517-532 | what the commit of an execution does in every such run: it moves its scope exactly if its change is the newest, and makes stale exactly the proposals it sorts after |
| ClientRuns.BothExecutedAlways | src/paa_runtime/service.py:493-515 | in every such run, whatever the clock, two proposals open at once on one exact scope are both executed only if the change of one sorts before the other |
| ClientRuns.ExclusiveAlways | src/paa_runtime/service.py:493-515 | so of all proposals open at once on one exact scope at most one is executed while commits keep H1 |
| ClientRuns.StatusAlways | src/paa_runtime/service.py:310-350 | in every such run a motion once shown stays shown, and a decided one never changes |
| ClientRuns.ConservationAlways | src/paa_runtime/service.py:244-257 | in every such run two-edge promotions and demotions alternate and differ by one exactly at the promoted position (H1) |
| ClientRuns.ConservationAlwaysIff | src/paa_runtime/service.py:244-257 | and with no clock assumption they do at every moment if and only if every execution met its guard |
| CallsAsSteps.ApproveAlone | src/paa_runtime/service.py:445-532 | whenever approve writes, a client alone writes the same rows by locking, verifying, deciding, inserting both and committing |
| CallsAsSteps.DecisionIsVerdict | src/paa_runtime/service.py:477-515 | a client that verified an approval and decides it has found exactly what makes approve write |
| CallsAsSteps.StartProposeIff | src/paa_runtime/service.py:366-396 | a client starts storing evidence for a proposal exactly when the advisory checks of propose pass |
| CallsAsSteps.ProposeDecidesIff | src/paa_runtime/service.py:405-408 | under the lock it decides on its row exactly when the transition still stands |
| CallsAsSteps.RejectDecidesIff | src/paa_runtime/service.py:557-581 | a client decides a rejection exactly when reject would write |
| CallsAsSteps.CheckDemotionIff | src/paa_runtime/service.py:646-653 | a client goes on to store a demotion's evidence exactly when demote would |
| CallsAsSteps.InsertIff | src/paa_runtime/sqlite_store.py:208-221 | a decided row goes in exactly when the constraints admit it, and all of them commit |
| EvidenceBinding.CommittedMotionsVerify | src/paa_runtime/evidence.py:3-9 | without tampering every committed row verifies, then and in all later states, to exactly the bytes stored for its motion |
| EvidenceBinding.ApprovalsVerified | src/paa_runtime/service.py:477-478 | with arbitrary tampering an approval still commits only if its evidence verified under the lock of its own transaction |
| Timestamps.TextOrderIsTimeOrder | src/paa_runtime/events.py:64-67 | for four-digit years comparing two timestamps as text is comparing the instants they denote (section 5.1 of RFC 3339) |
| Timestamps.EarlierIffFieldsBefore | src/paa_runtime/events.py:64-67 | calendar instants are ordered field by field, leap years included |
| Timestamps.FormatReadsBack | src/paa_runtime/events.py:64-67 | the text has 27 characters, the separators in their places, and each decimal field reads back as its number |
| Pointers.TokenRoundTrip | conformance/_mutations.py:29-32 | two sequential replacements each way return every token |
| Pointers.OrderMatters | conformance/_mutations.py:30-31 | unescaping in the other order turns the token "~1" into "/" |
| Pointers.PointerRoundTrip | conformance/_corpus.py:97-100 | every list of tokens survives printing, splitting and unescaping (sections 3 and 4 of RFC 6901) |
| Pointers.PrintParseIff | conformance/_mutations.py:44-47 | parsing then printing returns a text if and only if it is a pointer by the grammar of section 3 of RFC 6901 |
| Documents.SetMember | conformance/_mutations.py:72-75 | after setting an object member it reads as the value; siblings and diverging pointers read as before |
| Documents.RemoveUndoesSetIff | conformance/_mutations.py:95-102 | removing a set member restores the document if and only if the member was absent before |
| Documents.SetElement | conformance/_mutations.py:76-80 | setting at an in-range array index inserts, shifts the tail, leaves diverging pointers alone, and removing there restores the document |
| Documents.RemoveUndoesInsertIff | conformance/_mutations.py:76-106 | for every integer index, removing at it undoes setting at it if and only if it is in range from the start, is exactly one before the first, or counts from the end to an element equal to the value |
| Documents.OneToken | conformance/_mutations.py:51-69 | where one token leads from an object, a list (also by a negative index) and a scalar |
| Documents.SetLast | conformance/_mutations.py:76-78 | setting at "-" appends, and leaves the elements and diverging pointers alone |
| Documents.SetAnywhere | conformance/_mutations.py:76-80 | setting at any integer index inserts before that element, or at the nearer end |
| Documents.RemoveFailsIff | conformance/_mutations.py:95-106 | removal fails, with the promised error, exactly where its path does not resolve |
| Documents.RemoveMember | conformance/_mutations.py:95-102 | after removing an object member nothing under it resolves; siblings and diverging pointers read as before |
| Documents.RemoveElement | conformance/_mutations.py:97-106 | removing an array element, also by an index from the end, closes the gap and leaves diverging pointers alone |
| Documents.ElsewhereKept | conformance/_mutations.py:51-61 | replacing at one place changes no pointer that parts ways with it, also one that then leads nowhere |
| Documents.ReplaceTwice | conformance/_mutations.py:51-61 | a second replacement forgets the first, and putting back restores |
| Mutations.EditCell | conformance/_mutations.py:72-80 | editing one container in place yields the edited document, sharing nothing |
| Mutations.EditDeep | conformance/_mutations.py:51-61 | editing the node a pointer reaches replaces exactly what the pointer resolves to |
| Mutations.CopySetsWhatIsRead | conformance/_mutations.py:107-108 | a copy is a set of what its origin reads; into an object, the path then reads it, and a diverging origin still does |
| Mutations.TargetIff | conformance/_mutations.py:35-50 | which pointers have no target |
| Mutations.Stores | conformance/_mutations.py:72-80 | a set or copy whose value is found stores exactly that, as the member or as a new element, at the end for "-" |
| Mutations.Deletes | conformance/_mutations.py:95-106 | a remove deletes exactly what its path reads |
| Mutations.FailsOtherwise | conformance/_mutations.py:83-112 | the promised error is raised exactly when a path or origin leads nowhere or the kind is unknown |
| Mutations.LastApplied | conformance/_mutations.py:91-112 | mutations apply in order, each to what the ones before it made |
| Mutations.UncaughtIff | conformance/_mutations.py:72-80 | a mutation raises something other than the promised error if and only if it sets or copies a value that was found under a scalar, or at a list token that is neither an integer nor "-" |
| Mutations.CaseUncaughtIff | conformance/_mutations.py:83-112 | a list of mutations does if and only if one of them does on what the ones before it made |
| Mutations.MisplacedInputs | conformance/_mutations.py:72-80 | two such inputs: "/a/b" under a string, and "/x" in a list |
| Mutations.Memory.DeepCopy | conformance/_mutations.py:89-89 | a fresh document of the same value, with every old object untouched |
| Mutations.Memory.Descend | conformance/_mutations.py:35-61 | following references reaches the node the tokens resolve to, or fails exactly when they do not resolve |
| Mutations.Memory.ReadReference | conformance/_mutations.py:64-69 | reads exactly what the pointer resolves to |
| Mutations.Memory.Assign | conformance/_mutations.py:72-80 | one object changes, to the container with the value stored, appended or inserted; bad tokens change nothing |
| Mutations.Memory.RemoveToken | conformance/_mutations.py:97-106 | one object changes, to the container without the element; an unresolved token changes nothing |
| Mutations.Memory.ApplyMutations | conformance/_mutations.py:83-112 | the new document is the base with every mutation applied in turn; whatever the mutations, and on failure too, no object that existed before changes |

## Left out

- SQLite itself: files, WAL, SQL text, busy timeouts, and a commit that fails on its own. A blocked lock is refused at once.
- The read snapshot of a deferred transaction: only `import_events` opens one, and it reads nothing.
- The append-only triggers appear as the absence of any method that changes or drops a committed row; SQL issued around the store is not modelled.
- NOT NULL columns: a row of the model always has its fourteen fields, so an archive record with a missing or null field is not modelled.
- Real file I/O, symbolic links, directory creation and SHA-256: a directory is a map from address to bytes, the digest a parameter.
- The output of `json.dumps` for demotion evidence: a parameter of the recorded facts, in which the sorted, deduplicated source rows are a set.
- YAML loading, the producer registry and the structural guards of `declarations.py`: the model starts from a built declaration; `Declarations.WellBuilt` names the one guard it relies on. Promotion report, window and execution, and the demotion trigger, are not carried: no modelled rule reads them.
- `resolve_actor`, error message text, `to_json_dict`, `show`, `config.py`, operating records, the contract packaging and the schema validator.
- `import_events` among interleaved clients: chain integrity, exclusivity and evidence binding are claimed for rows the lifecycle wrote.
- Atomicity of a governed effect in another database: the runtime does not provide it.
- Timestamps.TextOrderIsTimeOrder: does not cover years below 1000, whose `%Y` is not zero-padded on every platform, nor imported timestamps of another format.
- Cyclic or shared base documents for `apply_mutations`: JSON and YAML fixtures are trees.
