# Temper: a Dafny model of the evidence core

This project models the parts of the Temper repository whose correctness is hardest to see from one
function, and proves what they promise. Identities are the values they identify, or come from injective
functions; the evidence store is an append-only stream with idempotent keys; decimals are exact numbers.

- **Manifest diffs** (`JsonPointer`, `ManifestDiff`, `ManifestTheorems`, `ManifestRoundTrip`,
  `ManifestInPlace`, `ManifestEdits`). A diff walks two JSON trees, its constructor re-sorts the changes by
  path text, and applying replays them in place. Diff then apply is exact for every pair of JSON objects,
  although the sort changes the order of the changes.
- **Suites and blind reviews** (`SuiteLineage`, `SuiteService`, `SuiteOperations`, `BlindReview`). Stored
  revisions form linear chains; every operation compares with the chain and appends at most one revision,
  under any write fault and for stale and repeated calls.
- **Recommendations** (`Cohorts`, `Ranking`, `Recommendation`, `BuildRecommendation`,
  `RecommendationTheorems`, `Qualification`, `RecommendationSoundness`). Best-anchored tolerance cohorts
  make a total order out of a comparison that is not transitive; ranks refine dominance and every
  recommendation built passes its own constructor.
- **Candidate record graphs** (`RecordGraph`, `RecordContents`). A layered write order whose every prefix
  leaves a closed store, found exactly when the new records have no cycle.
- **Run controller and resources** (`RunController`, `RunSnapshot`, `ResourceCoordinator`). The messages a
  controller can have accepted are exactly those of a grammar over the log; capacities are never exceeded.
- **Run lifecycle** (`FixtureAdapter`, `RunProtocol`, `RunTheorems`, `RunSafety`, `RunAmbiguity`,
  `RunOwnership`, `RunReopen`, `RunOutcomes`, `RunService`). A launch is a script of durable steps; each may
  fail, each append may commit and still raise, and the process may die at any of them. What is then in the
  stream, when the claim on a run id is released, and when a completed run reopens are proved for every
  pattern of faults. `RunService` performs the steps one by one and is proved equal to the script.
- **Dataset import** (`Splits`, `DatasetPipeline`, `DatasetRendering`, `DatasetRecords`, `DatasetImport`,
  `DatasetSoundness`). One pass over the rows is equal to a description of each row by itself, and the
  record assembled from it passes every check of its constructor.
- **Workflow coordinator** (`WorkflowGate`, `WorkflowSafety`, `WorkflowAdvance`, `WorkflowLeases`).
  Integration rests on evidence recorded in the right order, and freezes it.

`Sorting` (with `Keys`) holds what is used throughout: stable sorting, the orders of text and keys, and
counting arguments.

Some promises hold only under a condition, which is then proved exactly:

- Chained recovery: a checkpoint written by an already recovered run never validates for another recovery
  (`FixtureAdapter.RecoversExactlyFirstAttempts`).
- One terminal per run needs streams that can be read back after a failed append
  (`RunAmbiguity.TwoTerminalsExactly`, `RunAmbiguity.TwoTerminalsHappen`).
- A written ownership resolution is documented as saying that the launch never started or reached its
  terminal event. It is written once and never withdrawn, so where it was written before anything stood under
  the run id, a later call that it lets in can launch and leave the run running. Which worlds and which calls
  can come to that is known before the call (`RunSafety.ResolutionCanGoStaleExactly`,
  `RunSafety.ResolutionGoesStaleExactly`); the used run id still prevents a second launch
  (`RunSafety.NoSecondLaunch`).
- The workflow's phase table lists ways out of INTEGRATE, but the authorization it is entered with is
  compatible with no other phase, so no command leaves it and CLOSE is not reached
  (`WorkflowSafety.IntegrationIsFinal`, `WorkflowSafety.ReachableStatesAreSafe`).
- The same table lists ways back from DISPATCH and VERIFY that no valid state can take by a transition; only a
  repair, which changes the authorization as well, leads back (`WorkflowAdvance.MovesAre`).
- A review that passes need not have passed on the identity handed in: one that was asked for and not answered
  is not asked again when the identity changes (`WorkflowAdvance.PassedOnTheHandoffExactly`,
  `WorkflowAdvance.StaleReviewPasses`). The final gate is still refused then.
- Rows with different fields can render to one text, and the later one is left out as a duplicate
  (`DatasetRendering.DifferentRowsRenderAlike`); not without a header line inside an instruction or context
  (`DatasetRendering.RenderingTellsApart`).
- A run id whose owner died before releasing it is shut for good (`RunOwnership.StandingClaimIsForever`).
- The stored state asks the second active writer in slot order for guards, not the second to be
  activated (`WorkflowLeases.ReactivatedWriterIsValidExactly`).

`dafny verify dfyconfig.toml` checks the whole project.

## Model

| member | source | states |
|---|---|---|
| `JsonPointer.DecodeMatchesRfc6901` | src/temper_ml/domain/experiments.py:465-472 | the one-pass token decoder rejects exactly the tokens with a malformed escape, and otherwise gives what the two replacements of section 4 of RFC 6901 give, in that order |
| `JsonPointer.DecodeEscape` | src/temper_ml/domain/experiments.py:449-472 | every token survives escaping and decoding |
| `JsonPointer.EscapeHasNoSlash` | src/temper_ml/domain/experiments.py:449-450 | an escaped token holds no separator, so escaped tokens can be joined and split again |
| `JsonPointer.EscapeDecode` | src/temper_ml/domain/experiments.py:449-472 | every accepted raw token is the escape of what it decodes to, so escaping is the only spelling |
| `JsonPointer.PointerRoundTrip` | src/temper_ml/domain/experiments.py:449-474 | parsing and encoding are mutually inverse: a pointer parses to some tokens exactly when it is their encoding |
| `JsonPointer.ParsePointer` | src/temper_ml/domain/experiments.py:453-474 | the index loops of the parser compute exactly the tokens or the error of the recursive reading |
| `JsonPointer.AncestorSortsEarlier` | src/temper_ml/domain/experiments.py:477-483 | a pointer that is an ancestor of another sorts strictly before it as text |
| `ManifestDiff.EditsCommute` | src/temper_ml/domain/experiments.py:407-438 | two edits at places neither of which is above the other commute, with failure included on both sides |
| `ManifestTheorems.ForwardCheckComplete` | src/temper_ml/domain/experiments.py:139-147 | on a sorted list, comparing each change only with later ones finds every duplicate path and every overlap |
| `ManifestTheorems.DiffAcceptance` | src/temper_ml/domain/experiments.py:123-147 | the constructor accepts exactly the non-empty lists of valid, pairwise independent changes between different manifests, and stores them sorted by path text |
| `ManifestTheorems.SortKeepsReplay` | src/temper_ml/domain/experiments.py:139-184 | re-sorting pairwise independent changes by path text does not change what replaying them gives, failures included |
| `ManifestTheorems.ReplayOrderIrrelevant` | src/temper_ml/domain/experiments.py:170-184 | any two orders of the same independent changes replay to the same outcome |
| `ManifestRoundTrip.ChangesIndependent` | src/temper_ml/domain/experiments.py:384-404 | all changes generated between two JSON objects are valid and pairwise independent |
| `ManifestRoundTrip.NoChangesIffEqual` | src/temper_ml/domain/experiments.py:384-446 | no change is generated exactly when the two values are equal |
| `ManifestRoundTrip.BetweenThenApply` | src/temper_ml/domain/experiments.py:149-184 | for any two JSON objects a diff exists exactly when they differ, and applying it to the first gives the second: no path, before-value or identity check fails |
| `ManifestInPlace.DiffValues` | src/temper_ml/domain/experiments.py:384-404 | the recursive comparison appends to the shared list exactly the changes of the specification, in its order |
| `ManifestInPlace.MakeBetween` | src/temper_ml/domain/experiments.py:149-168 | the diff of two manifests, or the error for non-objects and for equal manifests |
| `ManifestInPlace.JsonDict.SetMember` | src/temper_ml/domain/experiments.py:415-438 | storing a fresh node in a heap dictionary changes that member of the JSON tree and nothing else |
| `ManifestInPlace.JsonDict.DeleteMember` | src/temper_ml/domain/experiments.py:415-438 | deleting a member of a heap dictionary removes it from the JSON tree and changes nothing else |
| `ManifestInPlace.ApplyChangeTo` | src/temper_ml/domain/experiments.py:407-438 | one change edits nested dictionaries in place to exactly the tree of the specification, or fails where it fails |
| `ManifestInPlace.Apply` | src/temper_ml/domain/experiments.py:170-184 | replaying a diff on a private mutable copy gives exactly the result or error of the specification; a success means the parent is the diff's own and the result its own derived manifest |
| `ManifestEdits.AppliesToItsParentAlone` | src/temper_ml/domain/experiments.py:170-184 | any diff applies exactly to the one object it names as parent, and then only if replaying it gives the object it names as derived |
| `ManifestEdits.BetweenAppliesExactly` | src/temper_ml/domain/experiments.py:149-184 | the diff between two different JSON objects, applied to any value at all: the first gives the second, every other object and every non-object is refused, each by its error |
| `ManifestEdits.EditSucceedsExactly` | src/temper_ml/domain/experiments.py:407-438 | one edit succeeds exactly where looking the place up gives what it needs: an addition nothing, inside an object; removal and replacement the very value named before; a root is never added or removed |
| `ManifestEdits.EditChangesOnePlace` | src/temper_ml/domain/experiments.py:407-438 | afterwards the place holds what the edit leaves, every unrelated place is as before and all above are still objects |
| `ManifestEdits.ValidChangesCanAlter` | src/temper_ml/domain/experiments.py:66-98 | the constructor of a change accepts exactly the changes that can alter some manifest |
| `ManifestEdits.ChangesTellTheDifference` | src/temper_ml/domain/experiments.py:384-404 | every generated change tells what stands at its place in both manifests, and every place at which they differ is at, above or below one: nothing superfluous, nothing missed |
| `SuiteLineage.ValidatedLineage` | src/temper_ml/app_services/evaluations.py:976-1027 | the validator accepts exactly the sets of revisions that are one simple chain of a single kind, each naming its predecessor; the head returned is the end of that chain; the walk terminates |
| `SuiteLineage.SingleHeadByCounting` | src/temper_ml/app_services/evaluations.py:1012-1018 | once priors are known and named once, there is exactly one head: the single-head check can never fail |
| `SuiteLineage.OnlyTheWalkRejectsCycles` | src/temper_ml/app_services/evaluations.py:1019-1026 | a root beside two revisions that name each other passes every other check, head check included, and is no chain: only the visited check rules it out |
| `SuiteService.EvaluationService.SealSuite` | src/temper_ml/app_services/evaluations.py:271-278 | seals by comparing with the stored chain: writes at the head, answers an identical successor, refuses any other request on an old revision |
| `SuiteService.EvaluationService.InspectConfirmationSuite` | src/temper_ml/app_services/evaluations.py:280-287 | the same for inspecting a sealed confirmation suite |
| `SuiteService.EvaluationService.ModifySuite` | src/temper_ml/app_services/evaluations.py:289-311 | the same for modifying the cases, with the checks on the cases |
| `SuiteService.EvaluationService.MarkSuiteContaminated` | src/temper_ml/app_services/evaluations.py:313-319 | the same for contaminating, idempotent on an already contaminated head |
| `SuiteService.EvaluationService.RetireSuite` | src/temper_ml/app_services/evaluations.py:321-325 | the same for retiring, idempotent on an already retired head |
| `SuiteService.EvaluationService.PersistRevision` | src/temper_ml/app_services/evaluations.py:930-974 | a planned revision is written when its predecessor is the head of the stored chain, answered when it is already the successor, and refused otherwise |
| `SuiteService.EvaluationService.RegisterSuite` | src/temper_ml/app_services/evaluations.py:245-269 | a suite is registered once, unsealed and without a prior |
| `SuiteService.EvaluationService.RecordResult` | src/temper_ml/app_services/evaluations.py:577-628 | the exact condition under which suite-backed evidence is recorded; uncontaminated evidence on a confirmation suite is recorded only while its chain is exactly unsealed, sealed with the same cases |
| `SuiteService.CallKeepsHistories` | src/temper_ml/app_services/evaluations.py:930-974 | every call, stale or retried and with any write fault, keeps one lawful chain per suite and adds at most one revision at the end |
| `SuiteService.EveryRunIsLawful` | src/temper_ml/app_services/evaluations.py:245-325 | over any sequence of registrations, operations and recorded results, stale or retried and with any write faults, every suite keeps one lawful chain, stored revisions and results are only followed by others, and all evidence recorded stays sound |
| `SuiteService.ChainsOfEveryRun` | src/temper_ml/app_services/evaluations.py:245-325 | whatever is called on an empty store, the chain of each suite seals only second, allows only retirement after contamination and nothing after it, and keeps its cases where nothing modified them |
| `SuiteService.RetryIsIdempotent` | src/temper_ml/app_services/evaluations.py:945-974 | retrying a call whose write committed and then raised answers that revision and writes nothing |
| `SuiteService.SealedOnlySecond` | src/temper_ml/app_services/evaluations.py:913-974 | a sealed revision is the second of its chain, so it occurs at most once, with the cases as registered |
| `SuiteService.ContaminationIsFinal` | src/temper_ml/app_services/evaluations.py:313-325 | after contamination comes only retirement, and nothing follows retirement |
| `SuiteService.MembershipChangesOnlyOnModified` | src/temper_ml/app_services/evaluations.py:289-311 | case membership is the same between two revisions with no modification in between |
| `SuiteService.SealedHeadIsPristine` | src/temper_ml/app_services/evaluations.py:577-628 | a chain whose head is sealed is exactly the registration and its seal |
| `SuiteOperations.OperationIsExact` | src/temper_ml/app_services/evaluations.py:271-325 | an undisturbed call on the head writes and answers the revision asked for wherever a lawful step leads to it, answers a head already contaminated or retired, and is refused exactly where no lawful step exists |
| `SuiteOperations.OperationBringsAbout` | src/temper_ml/app_services/evaluations.py:271-325 | after it the head of the chain is in the state asked for, with exactly the cases given or unchanged |
| `SuiteOperations.AnswersAreAsked` | src/temper_ml/app_services/evaluations.py:930-974 | disturbed, stale or repeated, whatever a call answers is stored and is what was asked |
| `SuiteOperations.RefusalsAre` | src/temper_ml/app_services/evaluations.py:271-325 | which error refuses which revision |
| `SuiteService.CasesAreGiven` | src/temper_ml/app_services/evaluations.py:289-311 | cases are accepted exactly when there is one and no id or content comes twice, and are then those given |
| `SuiteOperations.ChainsAreExactlyHistories` | src/temper_ml/app_services/evaluations.py:245-325 | the chains of a suite that can come about under any calls and faults are exactly the chains of lawful steps: nothing else happens and nothing lawful is out of reach |
| `SuiteOperations.EvidenceIsAcceptedExactly` | src/temper_ml/app_services/evaluations.py:577-628 | the suite gate in terms of the chain: what evidence is accepted for a suite of which kind and history |
| `BlindReview.ValidatedReviewLineage` | src/temper_ml/app_services/evaluations.py:1086-1155 | the validator accepts exactly the progressions of one review, blind or solo, and returns their last revision |
| `BlindReview.LinkedIffLineage` | src/temper_ml/app_services/evaluations.py:1114-1155 | the checks of the successor loop alone decide: the single-head check and the walk after it can never fail for reviews |
| `BlindReview.RevealIsHonest` | src/temper_ml/app_services/evaluations.py:1313-1374 | the meaning of a valid progression of three revisions, read off its transitions and so a corollary of what ValidatedReviewLineage and Reveal give: the mapping revealed is the one committed at preparation, beside the judgments sealed before it, on the packet committed to |
| `BlindReview.SealExtends` | src/temper_ml/app_services/evaluations.py:1354-1363 | sealing judgments of the prepared packet extends a preparation to a valid progression |
| `BlindReview.SealsAreExactly` | src/temper_ml/app_services/evaluations.py:1329-1363 | what can validly follow a preparation is exactly what sealing some judgments of its packet stores |
| `BlindReview.RevealExtends` | src/temper_ml/app_services/evaluations.py:1364-1373 | revealing the committed mapping extends a sealed progression to a valid one |
| `BlindReview.BlindReviewStore.Seal` | src/temper_ml/app_services/evaluations.py:464-530 | the exact condition for sealing, the error otherwise, and the one revision stored: a repeated seal is answered, a different second set is refused and changes nothing |
| `BlindReview.JudgedAsGiven` | src/temper_ml/app_services/evaluations.py:464-530 | the entries sealed show exactly the packet, each with the one judgment given for its prompt |
| `BlindReview.BlindReviewStore.Reveal` | src/temper_ml/app_services/evaluations.py:532-574 | exactly when the stored seal and the prepared packet are presented, the committed mapping is revealed beside the sealed entries, however often it is asked |
| `Cohorts.IndexFacts` | src/temper_ml/domain/evaluations.py:1334-1373 | cohort numbers start at zero, rise with the ordered values by steps of at most one, and each cohort spans at most the tolerance from its best value |
| `Cohorts.AnchorsApart` | src/temper_ml/domain/evaluations.py:1334-1373 | the best values of any two cohorts differ by more than the tolerance |
| `Cohorts.WithinToleranceIsNotTransitive` | src/temper_ml/domain/evaluations.py:1334-1373 | pairwise comparison within a tolerance is not transitive, which is why cohorts are cut |
| `Cohorts.CutCohorts` | src/temper_ml/domain/evaluations.py:1350-1373 | the cursor loop over the ordered values assigns exactly the cohort numbers of the specification |
| `Ranking.CohortAgreesWithScore` | src/temper_ml/domain/evaluations.py:1334-1373 | over any result set the cohort index never contradicts a comparison of values, separates values further apart than the tolerance and joins only values within it |
| `Ranking.CohortFollowsDirection` | src/temper_ml/domain/evaluations.py:1343-1373 | in plain values and for both directions: the better value is in the earlier cohort, or in the same one within the tolerance |
| `Ranking.CohortIgnoresOrder` | src/temper_ml/domain/evaluations.py:1334-1373 | the cohort index does not depend on the order of the results |
| `Ranking.GlobalToleranceCohortKeys` | src/temper_ml/domain/evaluations.py:1334-1373 | one key vector per candidate, objective by objective |
| `Ranking.DominanceIsStrictOrder` | src/temper_ml/domain/evaluations.py:1394-1403 | dominance is irreflexive and transitive |
| `Ranking.DominanceIsLexicographic` | src/temper_ml/domain/evaluations.py:1313-1403 | a dominating key vector is strictly smaller in lexicographic order |
| `Ranking.FirstDifferenceDecides` | src/temper_ml/domain/evaluations.py:1313-1331 | the order of key vectors is decided by the first place at which they differ |
| `Recommendation.RankRefinesDominance` | src/temper_ml/domain/evaluations.py:1313-1403 | a candidate that dominates another is ranked before it |
| `Recommendation.RankedByFirstDifference` | src/temper_ml/domain/evaluations.py:1313-1331 | a candidate is ranked before another exactly when the first objective that puts them into different cohorts prefers it, or none does and its key comes first |
| `Recommendation.RankOneOnFront` | src/temper_ml/domain/evaluations.py:1313-1391 | the first ranked candidate is not dominated |
| `Recommendation.FrontCovers` | src/temper_ml/domain/evaluations.py:1376-1391 | every candidate off the Pareto front is dominated by one on it |
| `Recommendation.ClearlyBetterWins` | src/temper_ml/domain/evaluations.py:1313-1403 | no worse anywhere and better by more than the tolerance somewhere means dominating and outranking |
| `Recommendation.ZeroToleranceIsPareto` | src/temper_ml/domain/evaluations.py:1334-1403 | with zero tolerances dominance is classical Pareto dominance on the metric values |
| `Recommendation.ParetoResults` | src/temper_ml/domain/evaluations.py:1376-1391 | the loop collects exactly the front, in candidate order |
| `BuildRecommendation.ScanResults` | src/temper_ml/domain/evaluations.py:1180-1242 | the scan of metrics and hard qualifiers: the first conflict of meaning or direction, or the complete tables |
| `BuildRecommendation.Recommend` | src/temper_ml/domain/evaluations.py:1160-1310 | the whole recommendation, step by step, equals its specification on every input, errors included |
| `RecommendationTheorems.BuildAccepts` | src/temper_ml/domain/evaluations.py:1160-1310 | a recommendation is produced exactly for non-empty results of unique candidates, consistent metrics, fitting directions and one context: no check of the record constructor can then fail |
| `RecommendationTheorems.RecommendationMeaning` | src/temper_ml/domain/evaluations.py:1160-1310 | who qualifies, who is selected and who is an alternative, read off the metrics: exactly the undominated qualified candidates |
| `RecommendationTheorems.RanksRespectDominance` | src/temper_ml/domain/evaluations.py:1160-1331 | in the final record a dominating candidate has the smaller rank number |
| `RecommendationTheorems.BuildIgnoresOrder` | src/temper_ml/domain/evaluations.py:1160-1310 | permuting the results changes nothing, errors included |
| `Qualification.ToleranceMeans` | src/temper_ml/domain/evaluations.py:526-540 | a value passes an inclusive comparison when some value within the tolerance compares plainly, and a strict one when all of them do |
| `Qualification.ComparisonLaws` | src/temper_ml/domain/evaluations.py:526-540 | the threshold passes >= and <=; a better value never does worse; > is the opposite of <= and < of >=; = is both >= and <= |
| `Qualification.QualifiesExactly` | src/temper_ml/domain/evaluations.py:1194-1250 | a result has no failure exactly when integrity and evidence are in order, every qualifier's metric is reported with an accepted value, every baseline is compared and every objective reported |
| `Qualification.AssessmentMeans` | src/temper_ml/domain/evaluations.py:1194-1294 | what the record says of one candidate, by policy and metrics: qualified or not, exactly the failures there are and exactly the objective values reported |
| `Qualification.RecommendationByMetrics` | src/temper_ml/domain/evaluations.py:1160-1310 | the selected candidate is the qualified one before all others by the first deciding objective; confidence is that of the first rule it deserves; the conflicts are exactly those there are |
| `Qualification.RanksFollowFirstDifference` | src/temper_ml/domain/evaluations.py:1254-1294 | rank numbers among the qualified follow the first objective that tells two candidates apart |
| `RecommendationSoundness.RecordIsSoundExactly` | src/temper_ml/domain/evaluations.py:785-840 | the constructor accepts exactly the records whose assessments are sound and of different candidates, whose ranks run from one through, whose selection is rank one and whose alternatives are different other qualified candidates |
| `RecordGraph.LayersFacts` | src/temper_ml/app_services/experiments.py:214-236 | the write order lists every new key exactly once, each after everything it needs |
| `RecordGraph.LayersIffAcyclic` | src/temper_ml/app_services/experiments.py:214-236 | for a closed graph the layering succeeds exactly when the new records have no cycle |
| `RecordGraph.NoLongerChain` | src/temper_ml/app_services/experiments.py:214-236 | no chain of new dependencies is longer than the layer of its first key allows |
| `RecordGraph.LongestChain` | src/temper_ml/app_services/experiments.py:214-236 | some chain has exactly that length: a layer is a longest chain |
| `RecordGraph.OrderByLayer` | src/temper_ml/app_services/experiments.py:214-236 | the order is layer by layer, by key inside a layer |
| `RecordGraph.EveryPrefixCloses` | src/temper_ml/app_services/experiments.py:214-236 | the existing keys with any prefix of the order are closed |
| `RecordGraph.AddRecords` | src/temper_ml/app_services/experiments.py:202-212 | indexing fails exactly when two records under one key differ |
| `RecordGraph.ValidateRecordGraph` | src/temper_ml/app_services/experiments.py:158-189 | validation succeeds exactly when every dependency, embedded ones included, is in the index as it is named, and gives the table of needs |
| `RecordContents.DependenciesAreHeld` | src/temper_ml/app_services/experiments.py:158-189 | the dependencies of a record are exactly what can be found in it by going down embedded records to any depth |
| `RecordContents.ClosedMeans` | src/temper_ml/app_services/experiments.py:158-189 | closure in those terms: every reference finds its key and logical id, every embedded record is stored as it is embedded |
| `RecordGraph.WriteOrder` | src/temper_ml/app_services/experiments.py:214-236 | the loop that shrinks the pending set computes the layers, or stops where no key is ready |
| `RecordGraph.PrepareCandidateRecordGraph` | src/temper_ml/app_services/experiments.py:192-237 | succeeds exactly when no two records under one key differ, the store is closed before and after, and the new records are acyclic; gives that index and that order |
| `RecordGraph.WriteOrderIsSafe` | src/temper_ml/app_services/experiments.py:192-237 | the order writes each new record exactly once and nothing else, and the store is closed after every write |
| `RecordGraph.ProposalOrderIrrelevant` | src/temper_ml/app_services/experiments.py:192-237 | neither the verdict nor the write order depends on the order of the proposed or stored records |
| `RunController.AcceptsExactlyTheGrammar` | src/temper_ml/runtime/controller.py:146-249 | a message is accepted exactly when the log with it still follows a grammar stated over earlier messages only |
| `RunController.SerializedRunController.Accept` | src/temper_ml/runtime/controller.py:99-124 | each call answers with the exact refusal, replay or new snapshot; a refused or replayed call changes nothing, an accepted one extends the log by that message; the snapshot is what the log says |
| `RunController.SerializedRunController.Transition` | src/temper_ml/runtime/controller.py:146-249 | the step updates the fields to what the extended log says, or refuses and changes nothing |
| `RunController.SerializedRunController.TakeSnapshot` | src/temper_ml/runtime/controller.py:126-139 | counters, step, artifact, state and terminal are functions of the log |
| `RunSnapshot.SnapshotMeans` | src/temper_ml/runtime/controller.py:126-139 | the snapshot of a lawful log holds the number of its messages of each counted kind, its largest step, the artifact announced in it and the message that ended it |
| `RunController.EveryRunIsLawful` | src/temper_ml/runtime/controller.py:99-124 | over any calls, the log only grows and stays numbered from 1 without gaps and within the grammar |
| `RunController.ReplayIsAccepted` | src/temper_ml/runtime/controller.py:108-113 | a message in the log may be sent again at any later time |
| `RunController.LawfulLogIsRebuilt` | src/temper_ml/runtime/controller.py:87-97 | sending a lawful log to a new controller accepts every message and gives the same log, hence the same snapshot |
| `RunController.Reconstruct` | src/temper_ml/runtime/controller.py:87-97 | rebuilding stops at the first refused message and otherwise reflects all messages |
| `RunController.CompletedHistory` | src/temper_ml/runtime/controller.py:146-249 | a completed run was launched first, announced its artifact in the message before, and holds no cancellation request, whatever disconnections lie between |
| `RunController.CancelledHistory` | src/temper_ml/runtime/controller.py:146-249 | a cancelled run had an earlier request and announced no artifact |
| `RunController.StepsNeverRegress` | src/temper_ml/runtime/controller.py:168-187 | the steps of progress and checkpoints never decrease along a log |
| `RunController.OneRequestOrArtifact` | src/temper_ml/runtime/controller.py:189-231 | at most one cancellation request or artifact, never both |
| `RunController.OfflineHasSavedState` | src/temper_ml/runtime/controller.py:194-218 | while disconnected the saved state is active or cancelling, so the missing-state branch is unreachable |
| `ResourceCoordinator.MakeCoordinator` | src/temper_ml/runtime/controller.py:261-279 | accepts exactly non-empty positive capacities |
| `ResourceCoordinator.SerializedResourceCoordinator.Acquire` | src/temper_ml/runtime/controller.py:281-307 | a new owner is granted a request exactly when it is well formed and every resource has room; an owner gets its own request again and nothing else; the leases change only by a grant |
| `ResourceCoordinator.SerializedResourceCoordinator.CountUsage` | src/temper_ml/runtime/controller.py:295-298 | the usage counted over all leases is the number of owners of each resource |
| `ResourceCoordinator.SerializedResourceCoordinator.Release` | src/temper_ml/runtime/controller.py:309-314 | gives back exactly the owner's lease |
| `ResourceCoordinator.NeverBeyondCapacity` | src/temper_ml/runtime/controller.py:281-314 | over any sequence of calls no resource is held by more owners than its capacity |
| `ResourceCoordinator.GrantedIffItFits` | src/temper_ml/runtime/controller.py:281-307 | a proper request of a new owner is granted exactly when the capacities hold with it: none that fits is refused |
| `ResourceCoordinator.RepeatChangesNothing` | src/temper_ml/runtime/controller.py:290-294 | repeating one's own request, in any order, is granted and changes nothing |
| `ResourceCoordinator.ReleaseUndoesAcquire` | src/temper_ml/runtime/controller.py:281-314 | releasing what was just acquired, or refused, restores every lease |
| `ResourceCoordinator.OthersLeaveMyLease` | src/temper_ml/runtime/controller.py:281-314 | calls of other owners never touch one's lease |
| `ResourceCoordinator.ReleaseMakesRoom` | src/temper_ml/runtime/controller.py:295-314 | when a holder of a resource releases, that resource has room |
| `FixtureAdapter.LossFalls` | src/temper_ml/runtime/fixture_adapter.py:491-507 | the reported loss falls strictly with every step, whatever the jitter |
| `FixtureAdapter.LossTellsRemaining` | src/temper_ml/runtime/fixture_adapter.py:491-507 | it tells the remaining steps exactly, with a jitter that never reaches the next |
| `FixtureAdapter.ValidatesExactly` | src/temper_ml/runtime/fixture_adapter.py:248-299 | a checkpoint some run built validates for a request exactly when science, target and expected producer agree and the step is in range |
| `FixtureAdapter.ValidatedWasBuilt` | src/temper_ml/runtime/fixture_adapter.py:248-299 | whatever validates is the checkpoint the expected producer would build |
| `FixtureAdapter.Execute` | src/temper_ml/runtime/fixture_adapter.py:301-382 | the exact refusal, or the exact output of the step loop under a stop |
| `FixtureAdapter.ProgressIs` | src/temper_ml/runtime/fixture_adapter.py:343-351 | one progress entry per step, in order |
| `FixtureAdapter.CheckpointsAre` | src/temper_ml/runtime/fixture_adapter.py:352-357 | a checkpoint for every due step and no other, in order |
| `FixtureAdapter.LogsAreNumbered` | src/temper_ml/runtime/fixture_adapter.py:342-382 | log ordinals run from 1 without gaps |
| `FixtureAdapter.LogsSay` | src/temper_ml/runtime/fixture_adapter.py:342-382 | the log says exactly that the run started, every step it completed and every checkpoint it saved |
| `FixtureAdapter.LogsInOrder` | src/temper_ml/runtime/fixture_adapter.py:342-382 | each of these once, in the order of the steps, a checkpoint right after its step |
| `FixtureAdapter.EndsAsControlled` | src/temper_ml/runtime/fixture_adapter.py:301-382 | a cancel stop ends cancelled, an interrupt interrupted, at the very step, and only an unstopped run is complete, at its last step, with a bundle of its own |
| `FixtureAdapter.StopsAllowed` | src/temper_ml/runtime/fixture_adapter.py:301-340 | which stops a run from the beginning accepts: after any step a cancellation, and an interruption exactly where its checkpoint can be resumed |
| `FixtureAdapter.ResumesExactly` | src/temper_ml/runtime/fixture_adapter.py:301-340 | a late start is accepted exactly with the checkpoint the expected producer built, named by the request, and a stop that lies ahead |
| `FixtureAdapter.InterruptedRunIsResumable` | src/temper_ml/runtime/fixture_adapter.py:353-372 | an interrupted run keeps a resumable checkpoint at the very step it stopped at |
| `FixtureAdapter.ResumeIsAccepted` | src/temper_ml/app_services/runs.py:266-363 | every resumable checkpoint kept by a stopped first attempt is accepted for recovery |
| `FixtureAdapter.ResumeContinuesProgress` | src/temper_ml/runtime/fixture_adapter.py:301-382 | progress up to the checkpoint followed by the resumed progress is the uninterrupted progress |
| `FixtureAdapter.ResumeSavesSameSteps` | src/temper_ml/runtime/fixture_adapter.py:352-357 | after the checkpoint, the resumed run saves at exactly the steps the uninterrupted run would |
| `FixtureAdapter.ResumeEmitsSameAdapter` | src/temper_ml/runtime/fixture_adapter.py:510-564 | the resumed run emits the same adapter and configuration; its provenance differs |
| `FixtureAdapter.RecoversExactlyFirstAttempts` | src/temper_ml/runtime/fixture_adapter.py:263-267 | a kept checkpoint recovers exactly when it lies before the last step and the run that wrote it had not itself resumed from another run |
| `FixtureAdapter.ChainedRecoveryIsRefused` | src/temper_ml/runtime/fixture_adapter.py:263-267 | a checkpoint written by a recovered run is never accepted for another recovery |
| `RunTheorems.AppendIsExact` | src/temper_ml/app_services/runs.py:1622-1654 | with readable streams an append that is reported done is there exactly once, and one that raised is absent and wrote nothing |
| `RunTheorems.UnreadableAppendMisleads` | src/temper_ml/app_services/runs.py:1638-1654 | an append that commits, raises and cannot be read back is reported as failed although it is there |
| `RunTheorems.ReconcilesIffPresent` | src/temper_ml/app_services/runs.py:1638-1654 | reconciliation finds an event exactly when it is in the stream |
| `RunTheorems.PlayNew` | src/temper_ml/app_services/runs.py:983-1208 | a sequence of new appends leaves a prefix of itself, all of it when it ends well and not its last when it raised |
| `RunTheorems.TerminalizeFits` | src/temper_ml/app_services/runs.py:1669-1703 | a failure after launch adds at most the ingestion failure and the run failure, after everything else |
| `RunTheorems.FinishFits` | src/temper_ml/app_services/runs.py:1063-1191 | output and ending add output events and a prefix of the closing: complete when done, not terminal when raised |
| `RunTheorems.ShapedIsLifecycle` | src/temper_ml/app_services/runs.py:1044-1208 | every stream of that shape is a lawful lifecycle: a terminal is last, completion follows the verification of its own artifact, cancellation its request, and everything else the launch |
| `RunTheorems.PrefixIsLifecycle` | src/temper_ml/app_services/runs.py:983-1208 | what a crash leaves, any prefix, is lawful too |
| `RunSafety.LaunchShaped` | src/temper_ml/app_services/runs.py:983-1208 | a launch on an unused run id leaves a stream of the attempt's shape, whatever fails at any step |
| `RunSafety.UsedRunIdIsRefused` | src/temper_ml/app_services/runs.py:1530-1535 | a run id with any event or record is refused and nothing is written |
| `RunSafety.EveryRunIsLawful` | src/temper_ml/app_services/runs.py:892-1208 | over any launches of one run id with any failures and crashes, the stream is lawful, and once begun it never changes again |
| `RunSafety.StatusIsExact` | src/temper_ml/app_services/runs.py:821-851 | the status of a lawful stream is its last terminal, or running; the two conflict errors never occur |
| `RunSafety.ReturnedStatusIsDurable` | src/temper_ml/app_services/runs.py:983-1208 | the status a launch returns is the one its evidence gives |
| `RunSafety.CompletionIsVerified` | src/temper_ml/app_services/runs.py:1176-1190 | a completed run verified that very artifact in the event just before |
| `RunSafety.ReleasableIffNotLeftRunning` | src/temper_ml/app_services/runs.py:958-981 | the release test on a lawful stream says exactly: not launched, or launched and ended |
| `RunSafety.ReleaseIsExact` | src/temper_ml/app_services/runs.py:940-981 | a call that can read and write releases the claim exactly when the run is not left running |
| `RunSafety.ReleasedOnlyWhenSafe` | src/temper_ml/app_services/runs.py:940-981 | whatever fails, a held claim is released only when the run is not left running |
| `RunSafety.ResolutionGoesStaleExactly` | src/temper_ml/runtime/ownership.py:47-152 | some faults, all readable, let a call make the written resolution untrue exactly when the resolution lets the call in, the run id is unused and nothing but failures keeps the attempt from being launched |
| `RunSafety.ResolutionCanGoStaleExactly` | src/temper_ml/runtime/ownership.py:47-152 | some call can do so exactly when the standing claim was resolved with nothing written under the run id |
| `RunSafety.StaleResolutionHappens` | src/temper_ml/runtime/ownership.py:47-152 | two concrete calls after which that has happened |
| `RunSafety.NoSecondLaunch` | src/temper_ml/app_services/runs.py:1530-1535 | even then no second launch ever follows |
| `RunOwnership.LetInExactly` | src/temper_ml/runtime/ownership.py:59-152 | a caller is let in exactly when nothing fails and the run id is unclaimed and unresolved, or claimed and resolved by its own identity; it then holds the claim |
| `RunOwnership.KeptOutFor` | src/temper_ml/runtime/ownership.py:59-152 | otherwise an undisturbed caller is told which: another claim, an unreleased one, or a resolution that does not match |
| `RunOwnership.StandingClaimIsForever` | src/temper_ml/app_services/runs.py:892-957 | while a claim stands unreleased no call, of any attempt and under any faults, returns a status or changes stream, records, claim or resolution, over any number of calls |
| `RunOwnership.OneOwnerEver` | src/temper_ml/app_services/runs.py:892-957 | claim and resolution are written once for one identity; calls with any other identity never change anything |
| `RunOwnership.ReleasableMeans` | src/temper_ml/app_services/runs.py:958-981 | on any stream, lawful or not: nothing was launched, or one launch and one end are there and the end is last |
| `RunOwnership.StatusNeedsRelease` | src/temper_ml/app_services/runs.py:940-981 | a status is returned only by a call that released the claim or found it not releasable or unreadable |
| `RunOutcomes.UndisturbedLaunch` | src/temper_ml/app_services/runs.py:892-1208 | an undisturbed launch of a free run id always runs to the end its adapter gives it: whole stream, records, release and status |
| `RunOutcomes.RefusedLaunch` | src/temper_ml/app_services/runs.py:983-1044 | what keeps an attempt from being launched, in order, and that only a blocked preflight leaves an event |
| `RunOutcomes.FailedLaunch` | src/temper_ml/app_services/runs.py:1655-1703 | an adapter that fails ends the run by its own error after the evidence it kept; foreign evidence is itself the failure |
| `RunOutcomes.IncompleteLaunch` | src/temper_ml/app_services/runs.py:1121-1191 | a completed run without its bundle fails while ingesting and leaves both failure events |
| `RunOutcomes.FailureIsRecorded` | src/temper_ml/app_services/runs.py:1655-1703 | a failure is recorded and raised by its code, a failed ingestion in two events |
| `RunOutcomes.OtherCodesNameThePhase` | src/temper_ml/app_services/runs.py:1655-1703 | an error without a code is recorded by the phase it happened in |
| `RunOutcomes.OnlyTheFailureIsRecorded` | src/temper_ml/app_services/runs.py:1655-1703 | under any faults nothing else is written about a failure and no status is returned |
| `RunOutcomes.LaunchedStreamOpens` | src/temper_ml/app_services/runs.py:1005-1044 | whatever fails, a launched stream begins with the whole opening of its attempt, the recovery exactly when the attempt resumes one |
| `RunOutcomes.LawfulOutputIsRecordable` | src/temper_ml/app_services/runs.py:1364-1385 | messages of a lawful controller log, any receipts and the trainer's output can always be recorded: they belong to the run and share no key |
| `RunOutcomes.StatusTells` | src/temper_ml/app_services/runs.py:821-851 | each status of a lawful stream means its own last event, and running that it was launched and has not ended |
| `RunAmbiguity.PlaysThroughExactly` | src/temper_ml/app_services/runs.py:1638-1703 | under any faults a script with no repeated key runs to its end exactly when each of its steps ends well by itself, where an append may also raise after committing if it can be read back |
| `RunAmbiguity.EndsTwiceExactly` | src/temper_ml/app_services/runs.py:1638-1703 | one terminal append and the handling of its failure write two terminals exactly when the append commits, raises and cannot be read back and the failure then commits |
| `RunAmbiguity.TwoTerminalsExactly` | src/temper_ml/app_services/runs.py:983-1208 | for every launch on an unused run id, every attempt and any faults, readable streams or not: at most two terminals are written, and two exactly when the launch comes to its terminal append and that happens there |
| `RunAmbiguity.TwoTerminalsByFaults` | src/temper_ml/app_services/runs.py:983-1208 | the same condition as one on each single fault, for an output that repeats no key |
| `RunAmbiguity.NeverMoreThanTwo` | src/temper_ml/app_services/runs.py:892-1208 | over any launches of one run id under any faults there are never more than two, and a stream once begun is not added to |
| `RunAmbiguity.TwoTerminalsHappen` | src/temper_ml/app_services/runs.py:1638-1703 | a concrete launch with two terminals, which the status then reports as a conflict |
| `RunReopen.ReopensExactlyWhenCompleted` | src/temper_ml/app_services/runs.py:365-662 | a first attempt reopens exactly when its evidence says completed, even if its process died after the last append, and gives the artifact verified there |
| `RunReopen.CompletedLaunchReopens` | src/temper_ml/app_services/runs.py:365-662 | a launch that returned completed reopens: its stream is exactly the recomputed one |
| `RunOutcomes.ReopensExactlyTheRecomputed` | src/temper_ml/app_services/runs.py:365-662 | any place, however it came about, reopens exactly when run record, artifact and the whole stream are those recomputed for the attempt |
| `RunOutcomes.OnePlaceOneAttempt` | src/temper_ml/app_services/runs.py:365-662 | so one place never reopens for two runs, preflights, artifacts or sciences |
| `RunOutcomes.WhyNotReopened` | src/temper_ml/app_services/runs.py:365-662 | why a place does not reopen, each case by its error |
| `RunReopen.LaunchCompletes` | src/temper_ml/app_services/runs.py:1044-1193 | a stream that holds a completion holds every opening, output and closing event, in order, beside the artifact and the run record |
| `RunReopen.FixtureKeysDiffer` | src/temper_ml/app_services/runs.py:1364-1385 | the events of a deterministic output never share an idempotency key |
| `RunService.RunService.AppendEvent` | src/temper_ml/store/event_stream.py:131-173 | the keyed append: idempotent for the same event, a conflict for another under its key |
| `RunService.RunService.ReconcileAmbiguousAppend` | src/temper_ml/app_services/runs.py:1638-1654 | found exactly when one event has the key and is the requested one |
| `RunService.RunService.Append` | src/temper_ml/app_services/runs.py:1622-1636 | the append with reconciliation, under any fault |
| `RunService.RunService.RecordRuntimeOutput` | src/temper_ml/app_services/runs.py:1352-1422 | messages, receipts, progress, checkpoints and logs in order, up to the first failure |
| `RunService.RunService.IngestArtifact` | src/temper_ml/app_services/runs.py:1424-1528 | start, files, records, verification, up to the first failure |
| `RunService.RunService.TerminalizePostLaunchFailure` | src/temper_ml/app_services/runs.py:1669-1703 | the failure code and the events of a failure after launch |
| `RunService.RunService.LaunchOwned` | src/temper_ml/app_services/runs.py:983-1208 | the whole launch under the claim, statement by statement, is the specified outcome |
| `RunService.RunService.ClaimOwnership` | src/temper_ml/runtime/ownership.py:64-152 | a first claim is written, a later one is let in only with the same identity and a resolution |
| `RunService.RunService.ResolveRunOwnership` | src/temper_ml/app_services/runs.py:958-981 | resolves by the release test, or leaves the claim when the stream cannot be read |
| `RunService.RunService.Launch` | src/temper_ml/app_services/runs.py:892-956 | claim, launch, release; with readable streams the lifecycle stays lawful |
| `RunService.RunService.Status` | src/temper_ml/app_services/runs.py:821-851 | the status as a function of the stream; what it means is RunSafety.StatusIsExact |
| `RunService.RunService.ReopenCompleted` | src/temper_ml/app_services/runs.py:365-662 | the checks of reopening as a function of the place; when they pass is RunReopen.ReopensExactlyWhenCompleted |
| `Splits.AssignSplit` | src/temper_ml/app_services/datasets.py:979-995 | the walk over boundaries returns the part whose half-open prefix-sum interval holds the bucket; its failure branch is unreachable |
| `Splits.OnePart` | src/temper_ml/app_services/datasets.py:989-994 | no bucket lies in two parts |
| `Splits.SomePart` | src/temper_ml/app_services/datasets.py:989-994 | every bucket below the total weight lies in a part |
| `Splits.BucketsPerPart` | src/temper_ml/app_services/datasets.py:979-995 | exactly as many bucket values map to a part as its weight |
| `DatasetPipeline.PrepareCandidates` | src/temper_ml/app_services/datasets.py:837-914 | the pass fails exactly when the tokenizer fails on some row that reaches it, with the code of the first; otherwise each row is a candidate or has a receipt as described row by row, in order |
| `DatasetRendering.PassesExactly` | src/temper_ml/app_services/datasets.py:840-970 | a row passes exactly with the text its mapped fields render to, if that is within the bounds, and with the token count the tokenizer gives twice |
| `DatasetRendering.UnusableRowsAre` | src/temper_ml/app_services/datasets.py:917-934 | which rows cannot be rendered, and the reason: a field missing, not text, or blank |
| `DatasetRendering.FilteredTextsAre` | src/temper_ml/app_services/datasets.py:856-895 | which rendered texts are filtered out, and for what |
| `DatasetRendering.FaultsAre` | src/temper_ml/app_services/datasets.py:960-982 | the tokenizer stops the import exactly on a text within the bounds that it fails on or does not count twice alike |
| `DatasetRendering.CandidateHoldsItsRow` | src/temper_ml/app_services/datasets.py:840-947 | every candidate holds the instruction, the context if there is any, and the response of its own row, under their headers and in this order |
| `DatasetRendering.AcceptedTellsItsRow` | src/temper_ml/app_services/datasets.py:840-947 | and so does every accepted example of the version, with the identity, bytes and tokens of that text |
| `DatasetRendering.DuplicatesRenderAlike` | src/temper_ml/app_services/datasets.py:895-908 | a row left out as a duplicate renders to the same text as the earlier row its receipt names |
| `DatasetRendering.RenderingTellsApart` | src/temper_ml/app_services/datasets.py:936-947 | where neither instruction nor context holds a header line, rows that render alike have the same fields |
| `DatasetRendering.DifferentRowsRenderAlike` | src/temper_ml/app_services/datasets.py:936-947 | two rows with different fields that render alike, because a header line inside an instruction reads as a context |
| `DatasetImport.PreparedIsUnique` | src/temper_ml/app_services/datasets.py:837-914 | that description has one outcome: accepted rows are the first to pass with their text, and each duplicate receipt names that first row |
| `DatasetImport.OrdinalsPartition` | src/temper_ml/app_services/datasets.py:837-914 | accepted and excluded ordinals together are 1 to n, each once |
| `DatasetImport.IdentitiesDiffer` | src/temper_ml/app_services/datasets.py:890-913 | no two accepted rows share an identity |
| `DatasetImport.CountsCoverMembers` | src/temper_ml/app_services/datasets.py:1014-1019 | the split counts add up to the members: each is counted under exactly one part |
| `DatasetImport.AssembledIsSound` | src/temper_ml/domain/datasets.py:465-600 | the assembled record passes every check of its constructor, its statistics and its receipts |
| `DatasetSoundness.VersionIsSoundExactly` | src/temper_ml/domain/datasets.py:506-601 | a version record is accepted exactly when it accepts a row, is in order, puts each example into one configured split, disposes of each source row once, retains accepted rows only, previews the first and counts what is there |
| `DatasetSoundness.ReceiptIsSoundExactly` | src/temper_ml/domain/datasets.py:233-258 | a receipt is accepted exactly when it names a row, and a retained earlier row only for a duplicate |
| `DatasetSoundness.BytesAre` | src/temper_ml/app_services/datasets.py:840-947 | the rendered bytes: every character takes the fewest bytes of UTF-8 that hold it |
| `DatasetImport.ImportSource` | src/temper_ml/app_services/datasets.py:624-728 | a version is built exactly when the tokenizer holds up and some row is accepted |
| `WorkflowGate.NewestIsFound` | scripts/temper-workflow.py:2216-2236 | a backwards lookup gives a record exactly when it is the newest that fits |
| `WorkflowGate.GateIsFound` | scripts/temper-workflow.py:2300-2355 | the current final gate is exactly the newest gate of the candidate that passed at root after the handoff and after every review |
| `WorkflowSafety.SafetyIsFound` | scripts/temper-workflow.py:2358-2410 | the current safety audit is exactly the newest one that passed at root after the gate |
| `WorkflowSafety.IntegrationIsExact` | scripts/temper-workflow.py:2413-2477 | integration is authorized exactly when that evidence exists in order, on one identity, with the named decision and verification |
| `WorkflowSafety.GateIsRecordedAfterReview` | scripts/temper-workflow.py:1856-1936 | a final gate is recorded only at root, for the latest handoff, after the review it needs passed on that subject, and again only when all earlier gates of the candidate lost their evidence |
| `WorkflowSafety.ScanIsExact` | scripts/temper-workflow.py:2239-2262 | the backwards scan with its set of seen tasks holds exactly when the latest handoff of some task names a reusable, newest verification |
| `WorkflowSafety.VerifiedIsEarned` | scripts/temper-workflow.py:1932-1936 | a state is VERIFIED only while some latest handoff has such a verification, after every command |
| `WorkflowSafety.EvidenceIsAppended` | scripts/temper-workflow.py:1856-1936 | every command only appends to handoffs and verifications, with rising sequence numbers, and keeps every registered task |
| `WorkflowSafety.ReachableStatesAreSafe` | scripts/temper-workflow.py:1340-1365 | in every reachable state that integrates, some task has that evidence in that order; CLOSE is never reached |
| `WorkflowSafety.IntegrationIsFinal` | scripts/temper-workflow.py:1313-1324 | no command changes an integrating state except the evidence counter |
| `WorkflowSafety.EvidenceIsFrozen` | scripts/temper-workflow.py:1313-1365 | from integration on the evidence is frozen over every run |
| `WorkflowSafety.Coordinator.Run` | scripts/temper-workflow.py:2893-2969 | a command is a transaction: an error leaves the stored state as it was |
| `WorkflowAdvance.MovesAre` | scripts/temper-workflow.py:1313-1338 | the moves a valid state can make by itself, all of them forward: no authorization goes with any of the ways back that the phase table lists |
| `WorkflowAdvance.EarlyCommandsAre` | scripts/temper-workflow.py:1340-1446 | who may give the commands that set a task going, when, and what they change |
| `WorkflowAdvance.AdvanceElsewhere` | scripts/temper-workflow.py:2528-2635 | what advancing does outside VERIFY |
| `WorkflowAdvance.UnverifiedWaits` | scripts/temper-workflow.py:2636-2672 | without a sound verification that the latest handoff names, advancing in VERIFY changes nothing |
| `WorkflowAdvance.ReviewIsAsked` | scripts/temper-workflow.py:2679-2708 | a task that needs a review gets one asked for, on the identity handed in |
| `WorkflowAdvance.PassIsRecorded` | scripts/temper-workflow.py:2709-2714 | a review that had not passed passes, later than any gate, and nothing else happens |
| `WorkflowAdvance.PassedOnTheHandoffExactly` | scripts/temper-workflow.py:2704-2714 | it has then passed on the identity handed in exactly when it was asked for on that identity or was under repair |
| `WorkflowAdvance.StaleReviewPasses` | scripts/temper-workflow.py:2704-2714 | a valid state in which a passing review has passed on another identity |
| `WorkflowAdvance.RepairIsRecorded` | scripts/temper-workflow.py:2715-2727 | a repair answer counts one repair, puts the review under repair and sends the task back to planning |
| `WorkflowAdvance.UnansweredWaits` | scripts/temper-workflow.py:2709-2736 | without an answer a review waits; any other answer is refused |
| `WorkflowAdvance.FailuresSendBack` | scripts/temper-workflow.py:2737-2810 | after the review a failed gate, or a failed audit after a passing gate, sends the task back to planning with its review under repair, and nothing else does |
| `WorkflowAdvance.RecordingIsExact` | scripts/temper-workflow.py:1856-1934 | which verifications are recorded: the exact condition on phase, task, executor, audit, gate order and reference |
| `WorkflowAdvance.RecordingDecides` | scripts/temper-workflow.py:1931-1936 | a recorded verification comes last with the next number, and decides anew whether the state is verified |
| `WorkflowAdvance.GateIsKeptExactly` | scripts/temper-workflow.py:1856-1936 | a recorded gate survives the validation of the state exactly when every earlier gate on the same text of identity lost its evidence |
| `WorkflowAdvance.DecisionIsExact` | scripts/temper-workflow.py:1340-1366 | the maintainer alone integrates, and exactly on evidence in order |
| `WorkflowAdvance.IntegrationIsReached` | scripts/temper-workflow.py:2528-2820 | every candidate can come from nothing to integration |
| `WorkflowLeases.OverlapMeansSharedFile` | scripts/temper-workflow.py:182-189 | two paths overlap exactly when some file can lie under both |
| `WorkflowLeases.OneOwnerPerFile` | scripts/temper-workflow.py:1389-1429 | no file lies under two active leases |
| `WorkflowLeases.Ownership.Acquire` | scripts/temper-workflow.py:1389-1429 | granted exactly for one's own lease again or for paths that collide with no active lease |
| `WorkflowLeases.Ownership.Release` | scripts/temper-workflow.py:1432-1446 | retires the task's lease unless a worker of the task is active |
| `WorkflowLeases.AppendedWriterIsValid` | scripts/temper-workflow.py:1456-1474 | a newly appended writer that passes the capacity check always leaves a valid state |
| `WorkflowLeases.ReactivatedWriterIsValidExactly` | scripts/temper-workflow.py:1174-1205 | an earlier idle writer that passes the same check leaves a valid state exactly unless an unguarded writer sits behind it |
| `WorkflowLeases.IntervalGrows` | scripts/temper-workflow.py:1774-1784 | the heartbeat interval doubles from 120 seconds, never falls without a change, and stays at 900 from the third quiet heartbeat on |
| `WorkflowLeases.Monitor.Poll` | scripts/temper-workflow.py:1750-1789 | a change starts over, an early poll changes nothing, a due one backs off; the interval depends on the quiet heartbeats alone |

## Left out

- Files, directories, links, staging, transport, subprocesses and the real library back ends: foreign calls;
  each appears as a step that may fail, or not at all.
- SHA-256, canonical JSON bytes and the layout of the evidence store: identities are values or injective
  functions, and stored bytes are not modelled.
- Type, identifier and text checks of single record fields, and fields of records no modelled rule reads.
- The shape checks on a change's before and after values: a change is one of add, remove and replace, with
  exactly the values it needs.
- Values outside JSON, which the recursive comparison refuses one branch at a time.
- Decimal context rounding in tolerance arithmetic: tolerances and metrics are exact reals.
- Thread and file locks: each controller, coordinator and launch call is taken as one step of its owner;
  two processes inside one claim at once are excluded by the lock and not modelled.
- SuiteService.EvaluationService.RecordResult: models the suite gate only; metric declarations, baselines, reviews
  and logical-id conflicts of a result are independent single checks.
- The event streams the evaluation service writes beside its records, except that an event may be lost.
- BlindReview.BlindReviewStore.Seal: starts from a given preparation, because preparing draws random aliases and
  a nonce; the textual leak audit and write faults of the review store are not modelled.
- FixtureAdapter.RecoversExactlyFirstAttempts: takes the recovery request to carry the prior run's experiment,
  recipe and execution target, which recovery compares one by one.
- RunService.RunService.ReopenCompleted: models reopening runs of the deterministic trainer; library runs, and the
  checkpoint files, bundle bytes and availability records it compares as well, are left out.
- Failure traces of library adapters: an adapter that fails may hand over any messages.
- Comparing a re-import with an earlier version, correction reports and the source adapters of datasets:
  each is settled by reading one comprehension.
- DatasetImport.AssembledIsSound: leaves out rendered byte counts and the identities of renderer and bytes, which
  are computed by the same expression on both sides.
- Workflow routes, trials and their scoring, evidence provenance, dispatch intents and
  worker states: what they decide for the modelled commands enters as an input. Tasks are registered by a command,
  and a run may also start with some.
- WorkflowSafety.Coordinator.Run: a command works on the state as a value, not in place, because only its validated
  result is ever written back; what worker, route and lease checks decide is an input.
- WorkflowLeases.OneOwnerPerFile: does not read the path `.` as the whole tree, because the program's test for that
  path (scripts/temper-workflow.py:177) compares a path object with a text and never fires.
- Derived experiments, replay plans and decision histories: each follows a single record.
