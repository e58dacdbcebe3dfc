# skcoord: a verified model

`skcoord` keeps cards, agent projections and configuration items in append-only
logs that replicate between hosts, and changes them with protocols that must
survive a kill at any step. This project models its core in Dafny and proves what
those logs and protocols promise. `dafny verify dfyconfig.toml` checks all of it.

| Area | Files |
|---|---|
| Dependency graph and bounded traversal | `Graphs.dfy`, `DependencyGraph.dfy`, `PathNodes.dfy`, `ImpactGraph.dfy`, `ImpactSearch.dfy` |
| Event order, card fold, ownership, replicas, batch overlay | `Sequences.dfy`, `Ordering.dfy`, `Runs.dfy`, `CardFold.dfy`, `CardLaws.dfy`, `Ownership.dfy`, `Replicas.dfy`, `Overlay.dfy` |
| Hash-chained writer logs | `EventLog.dfy` |
| Explicit creation, review reservations, paging | `Text.dfy`, `ExplicitCreation.dfy`, `ReviewBroker.dfy`, `TaskPaging.dfy` |
| Overlay recovery | `RowRemoval.dfy`, `OverlayRecovery.dfy` |
| Lifecycle audit and repair | `LifecycleAudit.dfy`, `LifecycleRepair.dfy`, `RepairLaws.dfy`, `RepairPass.dfy`, `RepairReceipts.dfy`, `LifecycleStore.dfy` |
| Discovery and the configuration database | `DiscoveryMerge.dfy`, `DiscoveryOrder.dfy`, `Precedence.dfy`, `Cmdb.dfy`, `CmdbLaws.dfy`, `Reconcile.dfy`, `ReconcileLaws.dfy` |

Code that changes things in place is a class or a method with loops, proved against
a function of the old state; what the source promises over many calls is proved
about those functions. The modules whose names end in `Laws` say what those functions
mean without using them: what a folded card or record reads, and what a repair leaves,
in terms of the events and the input alone. A process kill is a number of durable writes after which a
call stops. Locked sections and single durable writes are atomic, hashes are
injective, identifiers and timestamps are strings in code-point order.

## Where the code does less than it says

Each is a lemma with the failing input, next to a theorem that gives the condition
under which the promise holds. The condition is exact unless said otherwise.

- A repair does not converge on an ownerless active card claimed by one active and
  one stale agent, although nothing stops it beforehand (`SharedPassesTheGate`), nor
  for an owner whose legal name reads like a Syncthing conflict copy
  (`ConflictNameNeverConverges`). `RepairConvergesExactly` is the condition.
- The graph of dependencies does not stay acyclic when a creation killed after its intent
  is resumed: the retry skips the governor (`ResumeCanCloseACycle`,
  `RunIsAcyclicExactly`).
- A policy rejection whose reason happens to read like an I/O error, for instance
  because it quotes a card id, does not reserve the id (`PolicyRejectReservesExactly`,
  `QuotedIdReadsLikeACrash`), and no rejection stops an ordinary creation of the id
  (`ReservationHoldsExactly`).
- A crash-like rejection in a ledger that is read after the one holding the acceptance
  puts the id in conflict for good (`ALaterLedgerConflicts`, `AcceptanceIsFinalExactly`).
- A review is created without a readable record after a log line that lost its line
  feed (`LostFeedHidesTheCall`); it is still created at most once
  (`ReviewCreatedAtMostOnce`).
- A claim event without an owner takes a card from its owner and leaves no record
  (`OwnerlessClaimBreaksTheFence`); `FenceExactly` lists all that end a claim.
- An append to a writer file that ends in a blank line links to the blank and makes
  the file unreadable (`AppendReadableExactly`).
- Removing a row can merge the rows around it when the repaired bytes are read back
  (`AJunctionMergesRows`, `ImageReadsBackExactly`).
- An empty tag, or a changed value under an empty attribute key, on an existing item
  is appended again by every reconcile (`EmptyTagNeverSettles`,
  `SecondRunIsQuietExactly`).
- Two machines with one id and no shared alias merge or not by collector order
  (`OrderCanMatter`). `MergeIgnoresOrder` shows that shared aliases are sufficient. They
  are not necessary for every batch, since such a pair alone always merges, but
  `SharedAliasIsNeeded` finds for each pair that is not both declared, and for declared
  pairs with ordinary labels, a sighting that makes the order show.
- A declared value can prevail over an observed one (`DeclarationCanPrevail`,
  `ObservationPrevailsExactly`).
- The batch overlay and the step fold part on removed base labels, verdicts and
  unknown columns, and on nothing else (`RemovedBaseLabelDiffers`, `VerdictDiffers`,
  `UnknownColumnDiffers`, `PlainExactly`).

## Model

| member | source | states |
|---|---|---|
| `DependencyGraph.WouldCreateCycle` | src/skcoord/dependency_graph.py:16-37 | answers true exactly when the dependency reaches the card by a walk of zero or more edges (so also when it is the card); the search terminates on every graph, cyclic or not |
| `DependencyGraph.ExtendAcyclicExactly` | src/skcoord/card_store.py:2304-2335 | adding edges to an acyclic graph keeps it acyclic if and only if no new target reaches the source |
| `DependencyGraph.BirthAcyclicExactly` | src/skcoord/card_store.py:764-787 | a card born with any number of dependencies, forward references included, keeps the graph acyclic if and only if none of them reaches it |
| `DependencyGraph.StepKeepsAcyclic` | src/skcoord/card_store.py:2259-2335 | every governed create, add_dependency or remove_dependency, refused or not, takes an acyclic store to an acyclic one |
| `DependencyGraph.ActKeepsAcyclicExactly` | src/skcoord/card_store.py:1244-1258 | with explicit creations that a kill can interrupt, one action keeps the store acyclic if and only if it is not a resumed birth one of whose recorded dependencies reaches it by now |
| `DependencyGraph.RunIsAcyclicExactly` | src/skcoord/card_store.py:1223-1270 | over any run of births, amendments, explicit creations and kills, the store is acyclic at every point if and only if no resumed birth has a recorded dependency that then reaches it |
| `DependencyGraph.UninterruptedRunsAreAcyclic` | src/skcoord/card_store.py:764-787 | runs in which no creation is killed between intent and core never close a cycle |
| `DependencyGraph.ResumeCanCloseACycle` | src/skcoord/card_store.py:1244-1253 | a creation killed after its intent, overtaken by a card depending on it and then resumed closes a cycle |
| `DependencyGraph.CycleRefusalIsExact` | src/skcoord/card_store.py:2304-2326 | a cycle is the reason for refusal exactly when the edges asked for would have made one: nothing harmless is refused |
| `DependencyGraph.StepStoresExactly` | src/skcoord/card_store.py:2259-2335 | a birth stores its own list, an addition one more entry at the end, a removal one entry less, and nothing else anywhere; each, and each no-op, exactly under the conditions of the request |
| `DependencyGraph.RefusalIsTold` | src/skcoord/card_store.py:2287-2326 | the reason of a refusal names what is wrong with the request |
| `DependencyGraph.ExplicitStoresExactly` | src/skcoord/card_store.py:1223-1270 | an explicit creation that runs to its end stores its card if and only if its own intent was on record or the governor let it through; killed anywhere it stores its own list or nothing, and other intents stay |
| `DependencyGraph.DependencyStore.Create` | src/skcoord/card_store.py:764-787 | the stored edges and the outcome are those of the birth step, and acyclicity is kept |
| `DependencyGraph.DependencyStore.CreateExplicit` | src/skcoord/card_store.py:1223-1270 | asks the governor only when no intent is pending, and leaves edges and intents as the action says, killed anywhere |
| `DependencyGraph.DependencyStore.AddDependency` | src/skcoord/card_store.py:2259-2335 | argument errors, idempotent no-op, cycle refusal or appended edge, as in the amendment step |
| `DependencyGraph.DependencyStore.RemoveDependency` | src/skcoord/card_store.py:2259-2335 | removes one occurrence or does nothing, and acyclicity is kept |
| `PathNodes.PathNodesFrom` | src/skcoord/authorized_card_snapshot.py:377-392 | lists the first 32 nodes of the depth-first preorder; not limited means that is everything reachable; limited means the list is full |
| `PathNodes.PreorderIsReachable` | src/skcoord/authorized_card_snapshot.py:377-392 | the preorder starts at the start and lists exactly what that reaches, each node once |
| `PathNodes.Reachable` | src/skcoord/authorized_card_snapshot.py:395-397 | a hit is one of the first 32 reachable nodes; a miss is real unless limited, and limited means at least 32 nodes are reachable |
| `PathNodes.Edge` | src/skcoord/authorized_card_snapshot.py:681-742 | the path is the first 32 nodes that the target reaches; the cycle mark is set if and only if the source is among them; only a full path is marked partial, and without that mark path and cycle mark are exact; a marked dependency edge lies on a real cycle |
| `ImpactGraph.BuildReverse` | src/skcoord/cmdb.py:684-688 | the loop computes the reverse index that the next row describes |
| `ImpactGraph.ReverseHoldsDeclared` | src/skcoord/cmdb.py:684-688 | the reverse index of a target holds a link if and only if an item declares that depends_on or runs_on relationship |
| `ImpactGraph.DependentGraphEdges` | src/skcoord/cmdb.py:684-699 | the graph that is searched has an edge exactly where an item declares a cascading relationship |
| `ImpactGraph.RadiusIsDistance` | src/skcoord/cmdb.py:695-720 | membership in the ball of radius k but not k-1 is shortest distance k over walks |
| `ImpactGraph.RoundKeeps` | src/skcoord/cmdb.py:694-720 | one turn of the queue loop keeps breadth-first order, true depths and coverage of everything met |
| `ImpactGraph.RoundProgress` | src/skcoord/cmdb.py:694-720 | every turn leaves fewer unmet items or a shorter queue: the termination measure |
| `ImpactGraph.EndIsExact` | src/skcoord/cmdb.py:721-728 | when the queue is empty the report is exact |
| `ImpactSearch.EndIsFaithful` | src/skcoord/cmdb.py:689-728 | nearer dependents come first, direct ones in id order; each is listed for a relationship it declares on a node one step nearer; nothing nearer than a listed node is left out, nor anything within the depth bound unless the list is full; truncated if and only if something within the bound is left out or a node at the bound has dependents; otherwise a cycle through the root is shown if and only if there is one |
| `ImpactSearch.ImpactOf` | src/skcoord/cmdb.py:677-728 | bad bounds and unknown ids are told apart; a report lists distinct dependents within both bounds at their true shortest distance, every cycle is a walk that comes back, and the report is exact and faithful in the sense of the two rows above |
| `ImpactSearch.FollowLinks` | src/skcoord/cmdb.py:699-720 | the inner loop does for each link what the search step says, and stops for good at the node budget |
| `Ordering.TwoStageSort` | src/skcoord/card_store.py:1601-1605 | sorting the writer files, appending and sorting again equals one stable sort of everything, equal keys included |
| `Ordering.SortIgnoresArrangement` | src/skcoord/card_store.py:1545-1548 | when keys identify events every arrangement sorts alike |
| `Ordering.StrLeqExactly` | src/skcoord/card_store.py:1545-1548 | texts compare by code point: a prefix comes first, otherwise the first difference decides |
| `Replicas.StreamIsOneSort` | src/skcoord/card_store.py:1601-1605 | the stream the fold applies is one stable sort of all files and the legacy overlay |
| `Replicas.StreamIsInOrder` | src/skcoord/card_store.py:1545-1605 | the stream is read by time, then by writer, then by the numbering of the writer |
| `Replicas.ReplicasConverge` | src/skcoord/card_store.py:1545-1605 | two distributions of the same events over writer files and the legacy overlay fold to the same card |
| `Replicas.StreamsAgreeExactly` | src/skcoord/card_store.py:1545-1605 | all distributions of a collection of events give one stream if and only if keys identify the events |
| `Replicas.SharedKeysDiverge` | src/skcoord/card_store.py:1545-1548 | two events of one key fold to different cards in different files |
| `CardFold.Card.Apply` | src/skcoord/card_store.py:1606-1813 | the branch taken in place for one event equals the step function that all run properties are about |
| `CardFold.Card.ApplyRelease` | src/skcoord/card_store.py:1641-1694 | current claim, one conflict record, or a recorded release conflict |
| `CardFold.Card.ApplyClaim` | src/skcoord/card_store.py:1695-1724 | a rival of an active owner leaves a conflict record; any other claim takes the card |
| `CardFold.Fold` | src/skcoord/card_store.py:1561-1819 | fails exactly for a core with an owner and no claim revision, otherwise returns the fold of the one sorted stream |
| `CardLaws.ColumnsAreNamed` | src/skcoord/card_store.py:1606-1640 | exactly five texts are read as columns |
| `CardLaws.ColumnLaw` | src/skcoord/card_store.py:1606-1813 | over any run the column is the one that the last live event says: the named one for a move or reopen, done for a completion, doing for a claim that wins, backlog for a release that quotes the holder |
| `CardLaws.HolderLaw` | src/skcoord/card_store.py:1606-1813 | owner and claim revision are those of the last live event that sets them |
| `CardLaws.ShelfLaw` | src/skcoord/card_store.py:1606-1813 | order, archived and voided are those of the last event that may set them |
| `CardLaws.TextLaw` | src/skcoord/card_store.py:1731-1734 | priority and swimlane are the last nonempty ones |
| `CardLaws.DescribeLaw` | src/skcoord/card_store.py:1741-1748 | title, description and update time are the last ones given |
| `CardLaws.LinkLaw` | src/skcoord/card_store.py:1739-1740 | a link holds the last value set under its key |
| `CardLaws.LabelLaw` | src/skcoord/card_store.py:1735-1738 | labels are a list edited by label events alone |
| `CardLaws.DependencyLaw` | src/skcoord/card_store.py:1758-1765 | dependencies are a list edited by dependency events alone |
| `CardLaws.HeldExactly` | src/skcoord/card_store.py:1735-1765 | an item that the core lists at most once is held if and only if its last addition comes after its last removal or it came with the core and was never removed |
| `CardLaws.ListedTimes` | src/skcoord/card_store.py:1735-1765 | how often an item is listed after any edits, repeats in the core included |
| `CardLaws.OrderIsKept` | src/skcoord/card_store.py:1735-1765 | a list keeps the order of the core and then that of the additions |
| `CardLaws.ConflictLaw` | src/skcoord/card_store.py:1641-1724 | a conflict is on record if and only if the last event about it recorded it |
| `CardLaws.LosingClaimIsRecorded` | src/skcoord/card_store.py:1695-1724 | a claim on a card in work that another holds adds exactly one record with both owners and revisions and changes nothing else |
| `CardLaws.StaleReleaseIsRecorded` | src/skcoord/card_store.py:1641-1694 | a release that matches neither the holder nor one conflict is recorded with what it found and changes nothing else |
| `CardLaws.FoldLaws` | src/skcoord/card_store.py:1561-1819 | every field of a folded card, from the facts of the core and the merged events |
| `Ownership.FenceStep` | src/skcoord/card_store.py:1606-1730 | a claim survives one event if and only if the event is not one of the listed breakers |
| `Ownership.FenceExactly` | src/skcoord/card_store.py:1606-1730 | a claim holds after every prefix of a run if and only if no event of the run is a breaker |
| `Ownership.OwnerlessClaimBreaksTheFence` | src/skcoord/card_store.py:1695-1724 | a claim event that names no owner takes the card from its owner without a record |
| `Ownership.VoidIsTerminal` | src/skcoord/card_store.py:1606-1628 | after a void no later event restores an owner, un-archives, moves or reorders the card |
| `Ownership.FoldedVoidedIsUnowned` | src/skcoord/card_store.py:1815-1819 | a voided card is never owned after any run |
| `Ownership.ReleaseAgreement` | src/skcoord/coordination.py:780-820 | if the precondition returns a revision and that release comes next, exactly the current claim or exactly one conflict record is released and the postcondition check agrees |
| `Ownership.PreconditionExactly` | src/skcoord/card_store.py:2677-2712 | the precondition returns a revision if and only if releasing under it would free the card, for its holder, or drop a record, for an agent with exactly one |
| `Ownership.AlreadyReleasedExactly` | src/skcoord/card_store.py:2677-2712 | it reports a release as done if and only if the card is free in the backlog, the agent has no conflict record and the log holds a release by it |
| `Ownership.AppliedExactly` | src/skcoord/coordination.py:780-820 | the postcondition check accepts exactly a freed card or the drop of the only record of the agent under that revision |
| `Ownership.ReleaseRetryIsNoOp` | src/skcoord/card_store.py:2677-2712 | after releasing the current claim a retry reports it released if and only if the agent left no conflict record |
| `Ownership.ReleaseIsOneOfThree` | src/skcoord/card_store.py:1641-1694 | each release does exactly one of three things |
| `Ownership.ReleasesAreConserved` | src/skcoord/card_store.py:1641-1694 | over any void-free run, releases equal owners released plus conflict records released plus release conflicts recorded |
| `Overlay.FoldOverlay` | src/skcoord/card.py:617-672 | the batch loop keeps one patch per mentioned card, equal to the fold of that card's sorted events |
| `Overlay.ValidatedExactly` | src/skcoord/card.py:166-200 | an event is admitted if and only if it carries no field but those of its action, and the ones it needs |
| `Overlay.BatchEntry` | src/skcoord/card.py:617-672 | events of one card never touch the patch of another |
| `Overlay.BatchRefinesStepFold` | src/skcoord/card.py:946-966 | for plain events, patching a base card gives the same board fields as folding the mapped events one by one |
| `Overlay.PlainExactly` | src/skcoord/card.py:617-672 | a validated event keeps batch and step fold in agreement on every log of otherwise plain events if and only if it is no verdict, its column is valid, and it removes no base label |
| `Overlay.RemovedBaseLabelDiffers` | src/skcoord/card.py:617-672 | removing any label of the base card separates the two |
| `Overlay.VerdictDiffers` | src/skcoord/card_store.py:357-368 | any verdict after a plain link of another value separates the two |
| `Overlay.UnknownColumnDiffers` | src/skcoord/card.py:946-966 | any move to an unknown column after a plain move separates the two |
| `EventLog.ReadEvents` | src/skcoord/card_store.py:1516-1543 | a file is accepted if and only if every nonempty prev_hash matches the line before it, and all its events are returned in order |
| `EventLog.WriterFile.AppendEvent` | src/skcoord/card_store.py:1403-1436 | returns the existing event of the transition, leaving the file as it was, or appends one linked line |
| `EventLog.NewEventIsKept` | src/skcoord/card_store.py:1403-1436 | a new event keeps id, time, action, transition and payload of its request under the next number, and is read back last |
| `EventLog.RetryFindsFirst` | src/skcoord/card_store.py:1403-1418 | a retry is answered with the first event that carries its transition |
| `EventLog.EveryRequestIsThere` | src/skcoord/card_store.py:1403-1436 | after any run of appends every request is answered by some line |
| `EventLog.ProducedLogsAreSound` | src/skcoord/card_store.py:1403-1436 | every file grown by appends is accepted, fully chained, numbered by line, and holds each transition id once |
| `EventLog.RetryIsIdempotent` | src/skcoord/card_store.py:1403-1418 | retrying a transition any number of appends later changes nothing |
| `EventLog.LastLineDeterminesLog` | src/skcoord/card_store.py:1516-1543 | two accepted, fully chained files ending in the same line are identical |
| `EventLog.AppendReadableExactly` | src/skcoord/card_store.py:1403-1436 | an append keeps an accepted file accepted if and only if the file does not end in a blank line |
| `ExplicitCreation.CreationStore.ReadAttempts` | src/skcoord/card_store.py:1021-1074 | the ledgers of all hosts are read one after the other in file-name order |
| `ExplicitCreation.SoleAttempt` | src/skcoord/card_store.py:1121-1149 | the only binding attempt is found if and only if every line read after it repeats its digest, semantics and outcome; otherwise the id is in conflict |
| `ExplicitCreation.AppendPlaces` | src/skcoord/card_store.py:1021-1119 | a line appended by a host is read before every line of the hosts whose ledgers sort later |
| `ExplicitCreation.ProgramIsAllowed` | src/skcoord/card_store.py:1163-1278 | explicit creations, reservations and ordinary creations make only writes that the disk at that point allows |
| `ExplicitCreation.ExecKeeps` | src/skcoord/card_store.py:1163-1278 | every call, on any host and killed anywhere, keeps the invariant and an existing core, and writes a core only where there is none |
| `ExplicitCreation.CoreWrittenAtMostOnce` | src/skcoord/card_store.py:1179-1278 | over any run of explicit and ordinary calls on any hosts, with kills, the core is written once if it appears and never otherwise |
| `ExplicitCreation.AcceptedImpliesCore` | src/skcoord/card_store.py:1179-1278 | an accepted record implies a core with the recorded semantic digest |
| `ExplicitCreation.ResumeIsAcceptedExactly` | src/skcoord/card_store.py:1204-1278 | an interrupted creation run again with the same request, on any host and whatever policy now says, reaches accepted if and only if no core of other semantics was put there in between; otherwise it is refused and writes nothing |
| `ExplicitCreation.KilledCreationRecoversExactly` | src/skcoord/card_store.py:1179-1278 | a creation killed after any number of writes either left nothing or is accepted after one retry, and the retry reports success if and only if the record was still missing or no later ledger holds a line for the id |
| `ExplicitCreation.SuccessIsTrue` | src/skcoord/card_store.py:1179-1278 | an unkilled call reports success only if the card is there with the semantics of the request under its accepted record, and a creation if and only if it wrote the core |
| `ExplicitCreation.FreeIdIsGoverned` | src/skcoord/card_store.py:1239-1270 | on a free id the governor alone decides, and its refusal is recorded and passed on as it is |
| `ExplicitCreation.RejectionRefusesAll` | src/skcoord/card_store.py:1191-1194 | once a rejection binds the id every explicit call of any later run is refused |
| `ExplicitCreation.AcceptanceIsFinalExactly` | src/skcoord/card_store.py:1121-1222 | after an acceptance nothing is written by explicit calls; the same request replays and every other is refused if and only if the ledgers read later hold no line for the id, and otherwise all are refused as conflicting for good |
| `ExplicitCreation.ALaterLedgerConflicts` | src/skcoord/card_store.py:1121-1149 | a crash-like rejection on a host read later than the creating one makes the creating request itself refused |
| `ExplicitCreation.PolicyRejectReservesExactly` | src/skcoord/card_store.py:1163-1278 | over all later runs a policy-rejected id gets a core by an ordinary creation only, if and only if the recorded reason does not read like a crash |
| `ExplicitCreation.ReservationHoldsExactly` | src/skcoord/card_store.py:851-900 | on each later run a reserved id stays without core if and only if no ordinary creation is admitted |
| `ExplicitCreation.QuotedIdReadsLikeACrash` | src/skcoord/card_store.py:83-92 | any reason quoting text that contains ENOSPC reads like a crash |
| `ExplicitCreation.CrashReasonExactly` | src/skcoord/card_store.py:83-92 | the texts that make a reason read like a crash, in any case and anywhere in it |
| `ExplicitCreation.CreationStore.CreateExplicit` | src/skcoord/card_store.py:1179-1278 | the sequence of durable writes, killed anywhere, equals the protocol step the run properties are about |
| `ExplicitCreation.CreationStore.ReserveRejection` | src/skcoord/card_store.py:1151-1177 | the same for reserving a rejection, outcome included |
| `ExplicitCreation.ReserveIsTrue` | src/skcoord/card_store.py:1163-1177 | reserving leaves the rejection and no intent on a free id, and changes nothing otherwise |
| `ExplicitCreation.CreationStore.CreateOrdinary` | src/skcoord/card_store.py:851-900 | the same for an ordinary creation, which reads no ledger |
| `ExplicitCreation.OrdinaryIsTrue` | src/skcoord/card_store.py:851-900 | an ordinary creation reports a creation if and only if it wrote its core, and a refusal only for the governor |
| `ReviewBroker.ScanPrior` | src/skcoord/github_review_broker.py:130-143 | the scan returns the last word of the log about a request |
| `ReviewBroker.PriorExactly` | src/skcoord/github_review_broker.py:130-143 | there is a prior outcome if and only if the log holds a reservation or a result for the request |
| `ReviewBroker.LastMentionCounts` | src/skcoord/github_review_broker.py:130-143 | what the log says of a request is what its last mention says; a result of unknown outcome is uncertain |
| `ReviewBroker.AdmissionExactly` | src/skcoord/github_review_broker.py:103-128 | a request is let through if and only if it is valid, the log parses and no line mentions it |
| `ReviewBroker.ReviewCreatedAtMostOnce` | src/skcoord/github_review_broker.py:103-397 | over any run of submissions, retries, kills and torn lines, a lost line feed included, a review is created at most once per request; as long as the log parses its outcome is on record, and the request is refused from then on either way |
| `ReviewBroker.LostFeedHidesTheCall` | src/skcoord/github_review_broker.py:103-128 | after a line that lost its line feed alone, the reservation of the next request joins it, the review is created and no readable record of it is left |
| `ReviewBroker.TornLogStops` | src/skcoord/github_review_broker.py:103-128 | after a torn line nothing is appended and no review is created |
| `ReviewBroker.CompletedSubmissionIsTruthful` | src/skcoord/github_review_broker.py:302-397 | an unbroken submission calls if and only if head, author and every check pass, and records accepted for an answered review, uncertain for a call that timed out or failed, and rejected otherwise |
| `ReviewBroker.Broker.SubmitReview` | src/skcoord/github_review_broker.py:302-397 | the appends and the call, in source order and killed anywhere, equal the protocol step; a refusal says why, and a submission that ends returns the outcome on record |
| `ReviewBroker.Broker.AppendLine` | src/skcoord/github_review_broker.py:122-128 | a line is appended, or torn, and joins a line before it that has not ended |
| `TaskPaging.TaskViewPage` | src/skcoord/card_store.py:2083-2171 | a page is returned if and only if limit, cursor, batch size, population, order and every card pass; then it is the first `limit` identifiers with the cursor of the last |
| `TaskPaging.ServedExactly` | src/skcoord/card_store.py:2083-2171 | a page is served if and only if limit and batch are in bounds, the cursor was issued for this listing, and every identifier names a listed task and is greater than the one before; it holds the first `limit` of them and the cursor after them |
| `TaskPaging.NextPageIsLater` | src/skcoord/card_store.py:2083-2171 | for any reader whatever, each identifier of the next page is later than each of this one |
| `TaskPaging.PagingIsExactlyOnce` | src/skcoord/card_store.py:2083-2171 | following next_cursor over an unchanged population with a correct reader collects every identifier once, in order, in the expected number of pages |
| `RowRemoval.SplitJoinExactly` | src/skcoord/card_event_recovery.py:374-375 | splitting what was joined gives the rows back if and only if every row is one line that its successor does not extend |
| `RowRemoval.RepairTargets` | src/skcoord/card_event_recovery.py:466-495 | succeeds if and only if every target names an existing malformed row with the recorded digest and the survivors are clean, and then returns the rejected rows and the joined survivors |
| `RowRemoval.AcceptedExactly` | src/skcoord/card_event_recovery.py:466-495 | accepted if and only if every target is a line with the pinned digest that breaks the schema and every other nonblank line keeps it |
| `RowRemoval.SurvivorsKeepOrder` | src/skcoord/card_event_recovery.py:466-495 | the survivors are the unnumbered rows at increasing positions |
| `RowRemoval.ReinsertRebuilds` | src/skcoord/card_event_recovery.py:466-495 | putting the rejected rows back at their line numbers rebuilds the original rows |
| `RowRemoval.RepairShortens` | src/skcoord/card_event_recovery.py:466-495 | the repaired image is strictly shorter than the source |
| `RowRemoval.ImageReadsBackExactly` | src/skcoord/card_event_recovery.py:374-375 | the image read back as rows gives the survivors, and with the rejected rows the source bytes, if and only if no junction of survivors merges two rows |
| `RowRemoval.AJunctionMergesRows` | src/skcoord/card_event_recovery.py:374-375 | an accepted repair that removes a row between a carriage return and a line feed merges the rows around it |
| `OverlayRecovery.StepIsSafe` | src/skcoord/card_event_recovery.py:283-345 | a legal durable step never conflicts and moves the shard only between the two planned images |
| `OverlayRecovery.ApplyIsSafe` | src/skcoord/card_event_recovery.py:615-755 | an apply killed anywhere leaves the shard as it was or moves it between the planned images with full evidence, and keeps the evidence sound |
| `OverlayRecovery.ApplyIsAdmittedExactly` | src/skcoord/card_event_recovery.py:615-755 | an apply acts if and only if it is authorised and finds its own receipt over the repaired image, or the source with a valid repair to the planned image, or the repaired image with all its evidence intact and clean |
| `OverlayRecovery.ReceiptIsTold` | src/skcoord/card_event_recovery.py:615-755 | the receipt returned is the one on disk, for this plan and time |
| `OverlayRecovery.RollbackIsSafe` | src/skcoord/card_event_recovery.py:758-848 | the same for rollback |
| `OverlayRecovery.RollbackIsAdmittedExactly` | src/skcoord/card_event_recovery.py:758-848 | a rollback acts if and only if it is authorised, there is a receipt, and the shard is the repaired image or the source with a rollback on record |
| `OverlayRecovery.UnauthorisedDoesNothing` | src/skcoord/card_event_recovery.py:615-848 | without authority neither call changes anything and both are refused |
| `OverlayRecovery.StrangeShardIsRefused` | src/skcoord/card_event_recovery.py:615-848 | a shard that is neither image of the plan is left alone and the call refused |
| `OverlayRecovery.RepairedShardIsAlwaysEvidenced` | src/skcoord/card_event_recovery.py:615-848 | over any run of applies, rollbacks, kills and other writers, a repaired shard has its original bytes, rejected rows and intent durable |
| `OverlayRecovery.ApplyCompletesExactly` | src/skcoord/card_event_recovery.py:615-755 | an unkilled apply ends repaired with a receipt, except on an already rolled-back plan, which it refuses without a write |
| `OverlayRecovery.KilledAppliesRecover` | src/skcoord/card_event_recovery.py:615-755 | after any run of killed applies one more apply ends repaired with a receipt |
| `OverlayRecovery.RollbackRestoresExactly` | src/skcoord/card_event_recovery.py:758-848 | an unkilled rollback restores the exact original bytes if there is a receipt and refuses otherwise |
| `OverlayRecovery.ApplyAfterRollbackRefuses` | src/skcoord/card_event_recovery.py:615-755 | after a rollback receipt every later apply, over any run of calls, refuses and the original bytes stay |
| `OverlayRecovery.RecoveryStore.ApplyRecovery` | src/skcoord/card_event_recovery.py:615-755 | the in-place sequence of publishes and one replace equals the protocol step |
| `OverlayRecovery.RecoveryStore.RollbackRecovery` | src/skcoord/card_event_recovery.py:758-848 | the same for rollback |
| `DiscoveryMerge.FoldIsPartition` | src/skcoord/discovery_scan.py:63-87 | records partition the sightings, no two records match, and each record carries exactly the aliases, sources, tags, relationships, attribute keys and flags of its sightings and the prevailing label |
| `DiscoveryMerge.ConservesMerged` | src/skcoord/discovery_base.py:107-147 | merging two records that conserve their sightings gives one that conserves both |
| `DiscoveryMerge.TwoSightingsExactly` | src/skcoord/discovery_scan.py:63-87 | two sightings become one record if and only if they are of one type and their labels make one id or, for hosts and devices, they share a name; the record is called after the one declared, or the first label in order |
| `Precedence.RecordsFollowTheirRank` | src/skcoord/discovery_base.py:107-147 | every record, machines included, ranks its sightings in absorption order with an observation first whenever there is one, and its name, each attribute, node, description, scan and scope come from the first in that rank that has one |
| `Precedence.RecordsAreDated` | src/skcoord/discovery_base.py:107-147 | every record carries the latest scan time of its sightings, and one of several is called observed if and only if some sighting was |
| `Precedence.FoldIsPromoted` | src/skcoord/discovery_base.py:114-116 | for what one id alone brings together the rank is the first observed sighting and then the others in collection order |
| `Precedence.ObservationPrevailsExactly` | src/skcoord/discovery_base.py:71-73 | an attribute comes from an observation if and only if the first observed sighting has it or the first sighting that has it observed it |
| `Precedence.DeclarationCanPrevail` | src/skcoord/discovery_base.py:71-73 | declared, then observed without the attribute, then observed with another value: the declared value stays |
| `DiscoveryMerge.FoldIsChained` | src/skcoord/discovery_scan.py:63-87 | only sightings joined by a chain of matches share a record |
| `DiscoveryMerge.RecordsAreComponents` | src/skcoord/discovery_scan.py:63-87 | when equal ids of machines imply a shared alias, two sightings share a record if and only if a chain of matches joins them |
| `DiscoveryMerge.PartitionIgnoresOrder` | src/skcoord/discovery_scan.py:63-87 | the same sightings share a record in every collector order |
| `DiscoveryMerge.MergeIgnoresOrder` | src/skcoord/discovery_scan.py:63-87 | the sorted output reports the same types, labels, aliases, sources, tags, relationships, attribute keys and flags in every collector order |
| `DiscoveryOrder.SharedAliasIsNeeded` | src/skcoord/discovery_scan.py:63-87 | for any two machines with one id and no shared alias, one of them undeclared or with an ordinary label, there is a third sighting with which the order of collection decides how many records remain |
| `DiscoveryOrder.OrderCanMatter` | src/skcoord/cmdb.py:171-173 | two host names that differ in a blank and a dash have one id and are such a pair |
| `DiscoveryOrder.WordIsItsSlug` | src/skcoord/cmdb.py:171-173 | letters, digits, underscores, dots and inner dashes are their own slug in small letters, cut after 48 |
| `DiscoveryOrder.CollapseJoins` | src/skcoord/cmdb.py:171-173 | any other character between words becomes one dash |
| `DiscoveryMerge.Merge` | src/skcoord/discovery_scan.py:63-87 | the loop that takes matches out of the list and appends their union returns the sorted fold, and fails only for sightings without any name |
| `Cmdb.ConfigItem.Apply` | src/skcoord/cmdb.py:344-387 | the in-place branch for one event equals the step of the fold |
| `Cmdb.GetCi` | src/skcoord/cmdb.py:317-388 | reading a record returns the fold of its events over its core |
| `CmdbLaws.StatusLaw` | src/skcoord/cmdb.py:344-347 | the status is that of the last event that sets one |
| `CmdbLaws.MetadataLaw` | src/skcoord/cmdb.py:369-375 | name, description, owner and node are those of the last event that sets them |
| `CmdbLaws.AttributeLaw` | src/skcoord/cmdb.py:348-349 | an attribute reads what the last event under its nonempty key set |
| `CmdbLaws.RelationshipLaw` | src/skcoord/cmdb.py:350-368 | a relationship is held if and only if the last event about its pair related it under its authority |
| `CmdbLaws.TagLaw` | src/skcoord/cmdb.py:376-386 | a tag is held if and only if the last event that may add or remove it added it, and its authority likewise |
| `Reconcile.UpdateSettlesExactly` | src/skcoord/discovery_reconcile.py:291-400 | after an update's events nothing differs from the item any more, if and only if it asked for no new empty tag and no change under an empty key; a retired item stays retired |
| `Reconcile.CreationSettles` | src/skcoord/discovery_reconcile.py:216-272 | a newly created record has everything its item asks for |
| `ReconcileLaws.AppliedReadsAs` | src/skcoord/discovery_reconcile.py:139-400 | after an applied item its record reads, in status, attributes, relationships, tags and metadata, what the item says and otherwise what it read before; service health follows discovery_syncthing.py:265-276 |
| `ReconcileLaws.ReconciledReadsAs` | src/skcoord/discovery_reconcile.py:167-400 | the same for the record of every item of a valid batch |
| `ReconcileLaws.OthersAreKept` | src/skcoord/discovery_reconcile.py:167-400 | an applied run adds the ids of its items and touches no other record |
| `ReconcileLaws.LastOfIdStands` | src/skcoord/discovery_reconcile.py:188-211 | of several items of one id the last one stands |
| `ReconcileLaws.ValidExactly` | src/skcoord/discovery_reconcile.py:88-126 | a batch is valid if and only if every type, name, relationship and target is |
| `ReconcileLaws.ReportExactly` | src/skcoord/discovery_reconcile.py:213-410 | what a run reports as created, updated, unchanged, orphaned, related and unrelated, each by an if-and-only-if |
| `Reconcile.SecondRunIsQuietExactly` | src/skcoord/discovery_reconcile.py:167-410 | a second run of a valid batch is valid, creates nothing, and reports every item unchanged if and only if it appends nothing if and only if no item asked an existing record for what the fold ignores |
| `Reconcile.LaterRunsAreQuietExactly` | src/skcoord/discovery_reconcile.py:167-410 | every later run is quiet, in its report and in the store, if and only if no item asked an existing record for what the fold ignores |
| `Reconcile.RetiredStaysRetired` | src/skcoord/discovery_reconcile.py:345-349 | no run un-retires an item, shortens or rewrites a record, or touches a record the batch does not name |
| `Reconcile.EmptyTagNeverSettles` | src/skcoord/cmdb.py:371-376 | an empty tag on an existing record is reported and appended again on every later run |
| `Reconcile.NoFailures` | src/skcoord/discovery_reconcile.py:88-126 | a batch valid for a store is valid for every store that knows as much, and all its targets are known |
| `Reconcile.Manager.Reconcile` | src/skcoord/discovery_reconcile.py:167-410 | a dry run and an applied run return the same report apart from the applied flag; only an applied valid run writes, and it leaves exactly the reconciled store |
| `Reconcile.Manager.ReconcileItems` | src/skcoord/discovery_reconcile.py:213-400 | comparing against the items listed at the start gives the same report and records as item-by-item application |
| `LifecycleAudit.Audit` | src/skcoord/lifecycle.py:129-279 | lists an issue if and only if one of the eleven rules is broken, scoped or not, and is empty exactly when the projection is clean |
| `RepairLaws.CleanIsAgreement` | src/skcoord/lifecycle.py:129-279 | an audit is clean if and only if every agent file agrees with the board and the board with the files |
| `RepairLaws.RulesSayWhy` | src/skcoord/lifecycle.py:147-223 | which rule is broken at a task says how file and board disagree |
| `LifecycleAudit.AuditAgent` | src/skcoord/lifecycle.py:147-223 | lists exactly the rules that one agent breaks |
| `LifecycleAudit.AuditHolders` | src/skcoord/lifecycle.py:225-234 | lists exactly the in-scope tasks claimed by two different agents |
| `LifecycleAudit.AuditOwners` | src/skcoord/lifecycle.py:236-260 | lists exactly the in-scope active cards whose owner lacks the claim |
| `LifecycleAudit.AuditDoing` | src/skcoord/lifecycle.py:262-279 | lists exactly the owners of in-scope doing cards that report none of their doing cards |
| `LifecycleAudit.AssertNoActiveConflicts` | src/skcoord/lifecycle.py:288-315 | lets the repair go on if and only if no active agent holds an orphan or non-owner claim and no task has two active claimants |
| `LifecycleRepair.RepairSettles` | src/skcoord/lifecycle.py:527-610 | after both loops every agent is settled: claims, current task, completions and owned cards all agree |
| `RepairLaws.CompletedAfterPass` | src/skcoord/lifecycle.py:571-591 | the history after a pass is the entries whose card is done, missing or out of scope, in their order and as often as listed, then each done card of the agent that was not among them |
| `RepairLaws.ClaimedAfterPass` | src/skcoord/lifecycle.py:528-546 | the claims after a pass are those out of scope, those of missing cards of an active agent and those of cards in work without another owner, once each in order, then each active card of the agent |
| `RepairLaws.CurrentAfterPass` | src/skcoord/lifecycle.py:547-607 | which task is current after a pass: a standing one is kept, and otherwise the first in id order of the doing cards of the agent that qualify |
| `RepairLaws.FilesAfterPass` | src/skcoord/lifecycle.py:588-607 | a pass writes for the agents it knew and for the owners of in-scope cards past the backlog, and changes no other field |
| `LifecycleRepair.RepairConvergesExactly` | src/skcoord/lifecycle.py:626-628 | one pass leaves the audit clean if and only if no active agent holds an orphan claim, no two agents claim one ownerless active card, and the owners of active cards have names that are read back |
| `LifecycleRepair.SharedPassesTheGate` | src/skcoord/lifecycle.py:288-315 | an active and a stale claimant of an ownerless card pass the gate and never converge |
| `LifecycleRepair.ConflictNameNeverConverges` | src/skcoord/coordination.py:459-462 | an owner whose name reads like a Syncthing conflict copy never converges, since its file is written and not read |
| `LifecycleRepair.ConflictNameIsCanonical` | src/skcoord/coordination.py:267-275 | such names are accepted as agent names |
| `LifecycleRepair.SecondPassStagesNothingExactly` | src/skcoord/lifecycle.py:527-610 | a second pass changes no projection at any point if and only if every owner the first one wrote for is read back |
| `LifecycleRepair.RepairIsFramed` | src/skcoord/lifecycle.py:527-610 | out-of-scope claims and completions keep their membership, and the completion history of out-of-scope and missing cards keeps its order and multiplicity |
| `LifecycleRepair.ResumeReaches` | src/skcoord/lifecycle.py:511-610 | repairing any mixture of original and repaired agents gives what one uninterrupted pass gives |
| `RepairPass.AgentFile.Reconcile` | src/skcoord/lifecycle.py:528-586 | the first loop body, in place, equals the settled projection |
| `RepairPass.AgentFile.TakeCredit` | src/skcoord/lifecycle.py:588-607 | the second loop body, in place, equals the credited projection |
| `RepairPass.RunLoops` | src/skcoord/lifecycle.py:527-610 | both loops leave the agents as the repair function says, stage exactly what changed, fail only for an owner that can be given no file, and stage nothing on a settled board |
| `RepairReceipts.CommitResolvesExactly` | src/skcoord/lifecycle.py:630-665 | a committed repair leaves unresolved exactly the earlier intents that its scope does not cover |
| `RepairReceipts.RollbackRestoresExactly` | src/skcoord/lifecycle.py:666-690 | a repair whose audit is not clean puts every file back as it was and changes no other intent |
| `RepairReceipts.NoChangeWithoutIntent` | src/skcoord/lifecycle.py:611-625 | no kill point leaves a changed file without its intent on record |
| `RepairReceipts.RunKeepsBetween` | src/skcoord/lifecycle.py:511-690 | over any run of repairs, finished, rolled back or killed, every file is the original or the repaired one |
| `RepairReceipts.GateStays` | src/skcoord/lifecycle.py:288-315 | an interrupted repair creates no conflict that would stop its repetition |
| `RepairReceipts.KilledRepairsRecover` | src/skcoord/lifecycle.py:511-690 | after any run of killed repairs one more is not refused and, if it runs out, leaves the agents of one uninterrupted pass and resolves every intent it covers |
| `LifecycleStore.UnresolvedReceipts` | src/skcoord/lifecycle.py:370-433 | returns exactly the intents without an end, and fails if and only if one id has two scopes |
| `LifecycleStore.Store.Repair` | src/skcoord/lifecycle.py:483-700 | refuses if and only if receipts, conflicts or names forbid; otherwise its writes, killed anywhere, are those of the protocol step |

## Left out

- Reconcile.Manager.Reconcile: items are taken as merged, redacted and neither hosts nor devices, so alias migrations and `alias_of` edges are not modelled; attribute values are taken as stable under JSON.
- Reconcile.SecondRunIsQuietExactly: new events are taken to sort after the existing ones, as they do when clocks do not run backwards.
- LifecycleRepair.RepairConvergesExactly: activity is a snapshot and does not change during a pass; the board is that of the event-sourced store, which does not depend on agent files, and is the same before and after.
- LifecycleAudit.Audit: the issues are compared as a set; their final sort and their detail texts are not modelled.
- RepairReceipts.KilledRepairsRecover: the repairs of a run have one board and one scope, and caught I/O errors between writes are not modelled.
- RepairPass.RunLoops: the action texts of the receipt are not modelled.
- ExplicitCreation.ExecKeeps: caught I/O errors, torn ledger lines and the governors are outside; their verdict is a parameter. Calls on different hosts are serialised and see each other's files.
- OverlayRecovery.ApplyIsSafe: plans are taken as validated and sealed; the time of a receipt is a parameter; another writer is an arbitrary change of the shard.
- DependencyGraph.RunIsAcyclicExactly: steps are serialised and every card is readable; cross-host races on two cards and the reservation of rejected ids, which only removes runs, are outside.
- Ownership.FenceExactly: amended criteria, notes and agent-run events touch no modelled field and are one action, `Other`.
- Overlay.BatchRefinesStepFold: a voided card, which takes no patch, is outside.
- EventLog.WriterFile.AppendEvent: a payload that overrides `seq` or `prev_hash` is outside; JSON and SHA-256 are injective, and stripping removes blanks only.
- DiscoveryMerge.MergeIgnoresOrder: aliases are taken as already normalised and `make_ci_id` is a function of type and label; values on which sightings disagree (node, description, attribute values) are not claimed to be order independent.
- TaskPaging.TaskViewPage: the signature of a cursor is modelled as unforgeable, and the reader's batch is a parameter.
- ReviewBroker.Broker.SubmitReview: receipt validation is one flag of the request, and the replies of GitHub are parameters.
- PathNodes.Edge: only the cycle and partial marks of an edge are modelled.
- ImpactSearch.EndIsFaithful: of the cycles that do not pass through the root, only that a shown one is real is claimed; two dependents of one node that depend on each other are not shown as a cycle.
- CardFold.Fold: a card without a readable core, a malformed `amend_criteria` event, on which the source also raises, and the `meta` provenance fields are outside.
- RowRemoval.RepairTargets: the diagnosis of a row is a predicate on its bytes.
- LifecycleStore.UnresolvedReceipts: receipt lines are well formed; the source fails on a malformed one.
- DiscoveryOrder.SharedAliasIsNeeded: two declared machines whose label starts with another character, or has the fallback slug, are not covered.
- DiscoveryOrder.OrderCanMatter: `_slug` is modelled for ASCII text.
- Precedence.FoldIsPromoted: for machines, whose records a later sighting can join, the rank has no simpler form than the order of absorption.
- Claiming and completing tasks with their compensation steps and `transition_task` are not modelled: they compose the modelled writes with catch-all undo steps.
- `_matching_identity_ids`, `card_recovery.py`, review replacement, portfolio contracts and the incident modules are not modelled.
- File-descriptor safety, lock timing, rendering, command lines, signing and all network code are not modelled.
