# Proofs about SF1R's distributed and ranking algorithms

This project models six parts of SF1R, a distributed search and recommendation engine, and proves what
each of them is for. `dafny verify dfyconfig.toml` checks everything.

1. **Shard rebalancing and document migration.** Adding or removing sharding nodes rewrites the
   vnode-to-shard map, the shards' vnode lists and a move list together (`ShardPlan`), under quotas from
   integer division (`ShardQuota`, `ShardTask`). `doMigrateWork` then moves the documents: it is a state
   machine whose steps are the coordinator's actions and the shards' own progress, with a failure possible
   wherever the code returns early (`Migration`). `MigrateScd` models how one source picks its documents,
   and `Rebalance` connects planning, file generation and migration.
2. **Distributed search.** The ranking comparator (`MergeComparator`), the k-way top-K merge
   (`SearchMerge`), prefetched page texts and the page bounds (`ResultPaging`), splitting a page by worker
   and reassembling it (`PageSplit`), and the generic stable merge (`SequenceMerging`).
3. **Ad segments and selection.** The mixed-radix odometer over segment values (`AdSegments`), the in-place
   expansion of a user or an ad into keys (`SegmentExpansion`, `UserFeatures`), taking reported values into
   the segments (`SegmentUpdate`), the history click-through table filled through one and read through the
   other, or by need for the users whose lookups failed (`HistoryTables`, `PendingHistory`, `AdHistory`), the
   bounded selection (`AdSelect`), and the way from one selection to the next (`AdServing`).
4. **The online ad recommender.** The gradient step and the norm constraint over exact reals
   (`LatentVectors`), what a step does to scores (`StepDirection`), the feature index and the bit set of unviewed features (`FeatureIndex`), the list that
   is handed out (`RecommendList`) and the recommender itself (`AdRecommendation`).
5. **SCD files.** Merging records id by id in m passes (`ScdMerge`) and the batched file index (`ScdIndex`).
6. **Query normalisation** (`QueryNormalizer`).

`BoundedQueue` is the contract of the bounded priority queue that ranking uses, with the proof that it keeps
the greatest items. `Sequences`, `Strings`, `Orders` and `Arithmetic` hold shared facts. Where the source changes
state step by step the model is a method or a class, proved against a specification function about which
the properties are then proved.

## Where the code falls short of what it promises

Each of these is the code's own behaviour, kept as it is. The lemma named gives the exact condition, or a
case that shows it.

- Removing shards does not wait for the inserts before it sends the deletes
  (`source/bundles/index/IndexTaskService.cpp:659-663`): as soon as one live document must move, some run
  without any failure has a step at which no shard holds it (`Migration.RemovalCanLoseADocument`). Every
  run is safe exactly when shards are added or nothing has to move (`Migration.SafeExactlyWhenAdding`).
- `doMigrateWork` ignores whether a delete was sent. A migration can therefore report success and publish the
  new map with documents held twice (`Migration.SuccessCanLeaveTwoCopies`); a success says that nothing is held
  twice exactly when nothing had to move (`Migration.SuccessIsReliableExactlyWhenNothingMoves`). What it always
  says is that every document is on its new owner (`Migration.SuccessBringsDocuments`), and the documents are
  nowhere else exactly if every source of a moved document was sent its deletes
  (`Migration.SuccessPlacesDocuments`).
- `addNewShardingNodes` does not reject a node named twice. Such a node exceeds the quota, and every node
  keeps within it exactly if it is named at most once (`ShardQuota.NewNodesStayWithinQuota`); too few vnodes
  move exactly when the places lost to repeated names outnumber the old shards
  (`ShardQuota.AddMovesAsMuchAsItCan`). `ShardQuota.NodeNamedTwice` is an accepted request where both go wrong.
- The ranking of documents from two workers is an order exactly if both sort by the same columns, types and
  directions (`MergeComparator.SeparatedOrderExactlyForEqualSchemas`; the smallest circle is
  `MergeComparator.MissingColumnBreaksTheOrder`). Floats closer than epsilon count as equal, which is not
  transitive: with float columns three documents can rank in a circle even so
  (`MergeComparator.OrderExactlyForEqualSchemasWithoutFloats`).
- Buffered indexing keeps the first offset of a repeated DOCID within a batch, direct indexing the last. The
  tables agree for every flush count exactly when DOCIDs are distinct
  (`ScdIndex.BufferingIsInvisibleExactlyForUniqueDocids`).
- `AdRecommender::update` looks positions up with `operator[]`, so when ads are their own features, which is
  how `source/core/ad-manager/AdSelector.cpp:161` starts it, an ad that was never listed marks the feature
  at position 0 viewed (`FeatureIndex.TouchKeepsBitsExactly`, `AdRecommendation.UnknownAdHidesTheFirstFeature`).
- A recommendation list is in descending order exactly when the unviewed features do not run out before the
  items below the default score do (`RecommendList.RankedUnlessUnseenRunOut`);
  `AdRecommendation.UnviewedFeaturesRunOut` is a state where they do.
- A selection of one ad takes nothing when no clicked ad is there, although other ads are
  (`AdSelect.NothingSelectedExactly`). A random choice can name one ad twice (`AdSelect.RandomChoiceMayRepeat`,
  `AdSelect.ChoiceRepeatsExactly`), and so can a selection, exactly when one is made whose different draws agree
  modulo the number of ads (`AdSelect.SelectionRepeatsExactly`). Asked for no ad, the number of other places
  wraps around: a selection is no longer than asked for exactly when an ad is asked for
  (`AdSelect.SelectionIsBoundedAndRanked`), and it overruns a queue without memory exactly when another ad has
  a history (`AdSelect.Select`).
- Computed by need, a cell of the history table holds the prediction for all the features of the user served
  last, not for those of its key. Each pending user has its own predictions exactly when users that share a key
  and an ad's id are predicted alike there (`PendingHistory.EveryUserHasItsOwnExactly`);
  `PendingHistory.SharedKeyIsOverwritten` is a pair of users who are not.
- `updateAdFeatures` takes a feature with a position for a listed one. An ad that made an impression before it
  was listed keeps position 0, of another feature (`AdRecommendation.EarlyAdIsNeverListed`); an ad's features
  all end up listed exactly when each was listed or unknown (`AdRecommendation.FeaturesListedExactly`).
- Without any segment configured `getAllPossibleSegStr` records no key at all, not even the empty one
  (`AdSegments.GetAllPossibleSegStr`).

## Model

| member | source | states |
|---|---|---|
| ShardPlan.BuildTopology | source/bundles/index/IndexTaskService.cpp:728-735 | the topology lists the vnodes of every shard as the map gives them |
| ShardPlan.TopologyInvertsMap | source/bundles/index/IndexTaskService.cpp:728-735 | the topology built from a map is its exact inverse: each shard lists its own vnodes, each once |
| ShardPlan.MigrateSharding | source/bundles/index/IndexTaskService.cpp:558-601 | rewrites map, move list and new topology in step: all three are the effects of one plan, which pairs the donors' surplus vnodes in order with the new nodes' places |
| ShardPlan.RemoveSharding | source/bundles/index/IndexTaskService.cpp:497-556 | the same for removal; it succeeds exactly when the removed nodes are distinct, someone is left and the survivors' places outlast the removed vnodes; the survivors are listed once each in key order |
| ShardPlan.SpreadVnodes | source/bundles/index/IndexTaskService.cpp:515-555 | the loop over removed vnodes gives them to the survivors in key order, each until it is over the quota |
| ShardPlan.MoveListIsTheDifference | source/bundles/index/IndexTaskService.cpp:516-548 | the new map differs from the old exactly on the move list, each entry records the true old and new owner, no vnode moves twice |
| ShardPlan.PlacementInvertsNewMap | source/bundles/index/IndexTaskService.cpp:568-600 | the receiving topology is the exact inverse of the new map on the receiving shards |
| ShardQuota.AddPlanIsSound | source/bundles/index/IndexTaskService.cpp:558-601 | an addition moves distinct vnodes away from their true owners, and the new nodes' lists invert the new map |
| ShardQuota.RemovePlanIsSound | source/bundles/index/IndexTaskService.cpp:497-556 | the same for a removal, on every survivor |
| ShardQuota.AddMovesAsMuchAsItCan | source/bundles/index/IndexTaskService.cpp:724-735 | with quota q = N/(k+m) exactly as many vnodes move as there are places for and vnodes to spare, min(m*q, total surplus) for distinct nodes; that is at least m*q-k if and only if the places lost by naming nodes again are at most k |
| ShardQuota.NewNodesStayWithinQuota | source/bundles/index/IndexTaskService.cpp:588-594 | whoever the donors are, a new node gets no more than the quota if and only if it is named at most once |
| ShardQuota.NodeNamedTwice | source/bundles/index/IndexTaskService.cpp:692-701 | an accepted request with a repeated node: the node exceeds the quota and only half of the vnodes move |
| ShardQuota.DonorsKeepTheirQuota | source/bundles/index/IndexTaskService.cpp:575-587 | under the new map each donor keeps at least min(its count, quota+1) vnodes |
| ShardQuota.RemovalNeverRunsOut | source/bundles/index/IndexTaskService.cpp:529-544 | with quota N/(k-m), if every survivor owns a vnode the places suffice, and the receivers are exactly the survivors |
| ShardQuota.SurvivorShare | source/bundles/index/IndexTaskService.cpp:529-533 | a survivor with S vnodes ends with at most max(quota, S)+1, and loses none |
| ShardQuota.RemovedShardsOwnNothing | source/bundles/index/IndexTaskService.cpp:516-548 | after a successful removal no removed shard owns a vnode |
| ShardTask.PlanAddition | source/bundles/index/IndexTaskService.cpp:675-748 | which requests are refused, and for the others the new map and a truthful move list for distinct unused nodes |
| ShardTask.PlanRemoval | source/bundles/index/IndexTaskService.cpp:854-934 | which removals are refused, and for the others the new map, the survivors and a truthful move list |
| ShardTask.CurrentMapIs | source/bundles/index/IndexTaskService.cpp:706-723 | a stored map is planned with as it is; without one a single shard owns all 65535 vnodes, and several shards have no map |
| Migration.InitialInvariant | source/bundles/index/IndexTaskService.cpp:603-612 | the start of a migration satisfies the protocol invariant |
| Migration.StepKeepsInvariant | source/bundles/index/IndexTaskService.cpp:603-673 | every step of the coordinator or a shard, failures included, keeps the invariant about files, queues and held documents |
| Migration.RunKeepsInvariant | source/bundles/index/IndexTaskService.cpp:603-673 | so does every run |
| Migration.AddingNeverLosesADocument | source/bundles/index/IndexTaskService.cpp:622-671 | adding shards: after every step of every run each live document is on its old or its new owner |
| Migration.NoDocumentIsForgotten | source/bundles/index/IndexTaskService.cpp:603-673 | adding or removing: a document no shard holds is in a pending insert |
| Migration.StepsComeInOrder | source/bundles/index/IndexTaskService.cpp:603-673 | the coordinator passes its phases one by one: files are generated before anything is sent, new nodes come up before inserts when shards are added, inserts go before deletes |
| Migration.SendsComeInOrder | source/bundles/index/IndexTaskService.cpp:640-663 | in every run an insert is sent only after the files are generated and, when shards are added, the new nodes are up; a delete only after all inserts were sent and, when shards are added, indexed |
| Migration.FailureLeavesOldOwners | source/bundles/index/IndexTaskService.cpp:614-657 | a migration that breaks off leaves the old map published and every document on its old owner |
| Migration.SuccessBringsDocuments | source/bundles/index/IndexTaskService.cpp:603-673 | a reported success has published the new map, and every live document is on its new owner and otherwise at most on its old one |
| Migration.SuccessPlacesDocuments | source/bundles/index/IndexTaskService.cpp:640-673 | after a reported success documents are exactly where the new map says if and only if the deletes of every source with a moving document were sent |
| Migration.SuccessfulStepsPlaceDocuments | source/bundles/index/IndexTaskService.cpp:603-673 | when all steps succeed, adding or removing, each document ends on exactly the shard the new map gives its vnode |
| Migration.SuccessCanLeaveTwoCopies | source/bundles/index/IndexTaskService.cpp:659-672 | when a delete is not sent, success is reported with a moved document on its old and its new owner |
| Migration.SuccessIsReliableExactlyWhenNothingMoves | source/bundles/index/IndexTaskService.cpp:659-672 | every reachable reported success has all documents only where the new map says if and only if no live document has to move |
| Migration.RemovalCanLoseADocument | source/bundles/index/IndexTaskService.cpp:659-663 | removing shards: some run without failures reaches a state in which a moving document is on no shard |
| Migration.SafeExactlyWhenAdding | source/bundles/index/IndexTaskService.cpp:659-663 | every reachable state keeps every document if and only if shards are being added or nothing moves |
| MigrateScd.GroupMoves | source/bundles/index/IndexTaskService.cpp:609-620 | fails exactly when a source shard has no address; otherwise the lists name, host by host and target by target, exactly the moves |
| MigrateScd.GenerateMigrateScd | source/core/aggregator-manager/IndexWorker.cpp:2244-2324 | walks the document slots and writes each live document that has a target, in order, to its target's file and to the delete file |
| MigrateScd.DestinationIsTarget | source/core/aggregator-manager/IndexWorker.cpp:2279-2292 | the search over the listed shards finds the planned target of a vnode, or nothing |
| MigrateScd.FilesHoldExactly | source/core/aggregator-manager/IndexWorker.cpp:2261-2314 | a document is in the file of target t exactly when some slot stores it undeleted and t is the first listed nonzero shard whose list names its vnode; in the delete file exactly when there is such a target |
| MigrateScd.FilesListSlots | source/core/aggregator-manager/IndexWorker.cpp:2259-2314 | each file lists the documents of the slots that qualify, slot by slot in order, and of no other slot |
| MigrateScd.FilesAreOutgoing | source/core/aggregator-manager/IndexWorker.cpp:2259-2314 | when the records hold, not deleted, exactly the documents the shard holds, and shard ids are nonzero, the files hold exactly the documents the migration takes from the shard, per target and for the delete |
| Rebalance.AdditionIsValidMigration | source/bundles/index/IndexTaskService.cpp:724-748 | a planned addition satisfies what the migration theorems ask for |
| Rebalance.RemovalIsValidMigration | source/bundles/index/IndexTaskService.cpp:907-928 | so does a planned removal |
| Rebalance.AcceptedAdditionKeepsEveryDocument | source/bundles/index/IndexTaskService.cpp:675-748 | a request of unused nodes that is accepted, planned and carried out: after every step of every run each document is on its old or its new owner, on its old one after breaking off, on its new one after success, and then only there if all steps succeeded |
| Rebalance.AcceptedRemovalPlacesEveryDocument | source/bundles/index/IndexTaskService.cpp:854-940 | a removal that is accepted, planned and reported a success: each document is on a shard that stays, and only there if all steps succeeded |
| Rebalance.HostListsItsShardsMoves | source/bundles/index/IndexTaskService.cpp:609-620 | with one host per source shard, the list a host gets names exactly that shard's moves |
| MergeComparator.GreaterThan | source/core/aggregator-manager/MergeComparator.cpp:126-179 | decides the lexicographic ranking by columns of equal type, directions, the epsilon of floats and the id tie-break |
| MergeComparator.RankingIsAnOrder | source/core/aggregator-manager/MergeComparator.cpp:126-179 | on documents with the same columns, whose floats are equal or further apart than epsilon, the ranking is a strict total order |
| MergeComparator.FirstDecidedColumnDecides | source/core/aggregator-manager/MergeComparator.cpp:133-179 | the first column where two documents hold a greater and a smaller value of one type - integers that differ, floats more than 2^-23 apart, texts that differ - ranks them, upwards or downwards as the column says |
| MergeComparator.UndecidedRanksByAge | source/core/aggregator-manager/MergeComparator.cpp:170-178 | documents that no column tells apart rank by their ids |
| Strings.FirstDifferenceDecides | source/core/aggregator-manager/MergeComparator.cpp:150-160 | texts compare by the first character that differs, and a text goes before its extensions |
| MergeComparator.SeparatedOrderExactlyForEqualSchemas | source/core/aggregator-manager/MergeComparator.cpp:126-179 | no two or three documents of two workers with such floats rank mutually or in a circle if and only if the workers sort by the same columns, types and directions |
| MergeComparator.OrderExactlyForEqualSchemasWithoutFloats | source/core/aggregator-manager/MergeComparator.cpp:126-179 | the same for all documents, if and only if the columns also hold no floats |
| MergeComparator.CloseFloatsGoWrong | source/core/aggregator-manager/MergeComparator.cpp:161-167 | three floats, each within epsilon of the next, rank in a circle |
| MergeComparator.MissingColumnBreaksTheOrder | source/core/aggregator-manager/MergeComparator.cpp:129-132 | when one worker lacks a column three documents can rank in a circle |
| SearchMerge.MergeTopK | source/core/aggregator-manager/SearchMerger.cpp:299-386 | returns at most TOP_K_NUM documents, and all there are if that is fewer in the first window; worker ids and scores aligned, a prefix of each worker's list, and with ranked sorted lists the first documents |
| SearchMerge.WindowSize | source/core/aggregator-manager/SearchMerger.cpp:299-305 | the window holds the documents of all workers less those before its start, between 0 and TOP_K_NUM |
| SearchMerge.FindFirst | source/core/aggregator-manager/SearchMerger.cpp:338-361 | picks a worker whose next document ranks ahead of all others', or none when all are exhausted |
| SearchMerge.NotExhausted | source/core/aggregator-manager/SearchMerger.cpp:363-367 | before the window is full some worker has a document left: the early break is never taken |
| SearchMerge.ComparableWorkersAreRanked | source/core/aggregator-manager/SearchMerger.cpp:323-361 | workers with the same columns, distinct ids and distinct documents are in strict total order |
| SearchMerge.MergeIsTopOfUnion | source/core/aggregator-manager/SearchMerger.cpp:331-386 | the merged documents are exactly the beginning of the sorted union of all lists: as many as the union has less the window's start, between 0 and TOP_K_NUM |
| ResultPaging.Prefetch | source/core/aggregator-manager/SearchWorker.cpp:83-101 | a worker prefetches exactly its first start+count documents |
| ResultPaging.CopyPage | source/core/aggregator-manager/SearchMerger.cpp:396-455 | copies to each place of the page, in each of the three parts, the text at its document's offset in its worker, leaving blanks only where a guard skips |
| ResultPaging.MergedPageShowsItsDocuments | source/core/aggregator-manager/SearchMerger.cpp:433-454 | no guard skips: each merged document's offset is at most its place, so the page shows exactly its documents' texts |
| ResultPaging.PageHasWantedPlaces | source/core/aggregator-manager/SearchMerger.cpp:396-455 | the page has a place for each document of the merged list from start on, up to count of them, with as many rows as the first worker's texts have |
| ResultPaging.PageBounds.AdjustStartCount | source/core/common/ResultType.h:403-416 | cuts the page to the window: start and end become minima with the window's end, and a page inside it is untouched |
| ResultPaging.AdjustedPageLiesInWindow | source/core/common/ResultType.h:403-416 | the adjusted page lies inside the window's documents |
| PageSplit.SplitByWorker | source/core/aggregator-manager/SearchMerger.cpp:655-693 | each worker on the page gets exactly its documents in page order, with their places |
| PageSplit.MergeSummaries | source/core/aggregator-manager/SearchMerger.cpp:509-544 | with responses that cover the page, every place gets the texts of the response that holds it, in each of the three parts |
| PageSplit.PageIsReassembled | source/core/aggregator-manager/SearchMerger.cpp:655-693 | split, answered in any order of workers and merged, each place shows the text of its own document |
| PageSplit.AdjustedPageShowsItsTexts | source/core/aggregator-manager/SearchMerger.cpp:509-544 | a page adjusted to the window, split, answered and merged: each of its count places shows the texts of the document standing there in the window |
| SequenceMerging.SequenceMerger.AddSequence | source/core/aggregator-manager/SequenceMerger.h:99-105 | adds a sequence behind the others, and drops an empty one |
| SequenceMerging.MinElement | source/core/aggregator-manager/SequenceMerger.h:125-128 | finds the first sequence whose head is least |
| SequenceMerging.SequenceMerger.Merge | source/core/aggregator-manager/SequenceMerger.h:123-149 | terminates, puts out each element once, and for sorted input the output is sorted and stable |
| QueryNormalizer.TokenizeQuery | source/core/common/QueryNormalizer.cpp:69-93 | appends the lower-cased tokens between white space |
| QueryNormalizer.TokensSpellQuery | source/core/common/QueryNormalizer.cpp:69-93 | the tokens hold the query's visible characters, lower-cased, in order, and nothing else |
| QueryNormalizer.MergeTokens | source/core/common/QueryNormalizer.cpp:50-65 | joins the tokens with single blanks |
| QueryNormalizer.TokenizeUndoesMerge | source/core/common/QueryNormalizer.cpp:50-93 | tokenizing joined tokens gives them back |
| QueryNormalizer.Normalize | source/core/common/QueryNormalizer.cpp:134-143 | computes the joined sorted tokens, whatever sort is used |
| QueryNormalizer.SortedIsUnique | source/core/common/QueryNormalizer.cpp:140 | a multiset of tokens has one sorted sequence |
| QueryNormalizer.NormalizeIsIdempotent | source/core/common/QueryNormalizer.cpp:134-143 | normalising twice is normalising once |
| QueryNormalizer.NormalizeIsCanonical | source/core/common/QueryNormalizer.cpp:134-143 | two queries normalise alike if and only if their token multisets are equal |
| QueryNormalizer.TokensArePlain | source/core/common/QueryNormalizer.cpp:69-93 | tokens are the nonempty strings without a capital letter and without blank, tab, line feed, vertical tab, form feed or carriage return |
| QueryNormalizer.NormalizeIgnoresCase | source/core/common/QueryNormalizer.cpp:69-93 | queries that differ only in case normalise alike |
| QueryNormalizer.JoinedBySingleBlanks | source/core/common/QueryNormalizer.cpp:50-65 | joined tokens have one blank between two of them, none at the ends and no other white space |
| ScdMerge.PairwiseScdMerger.Preprocess | source/core/common/PairwiseScdMerger.h:233-242 | registers the id of a new record with a blank one |
| ScdMerge.PairwiseScdMerger.Process | source/core/common/PairwiseScdMerger.h:244-271 | folds a record into its cached id, or writes it when its id is not cached |
| ScdMerge.PairwiseScdMerger.MEnd | source/core/common/PairwiseScdMerger.h:273-285 | writes one record per cached id and empties the cache |
| ScdMerge.PairwiseScdMerger.RunPass | source/core/common/PairwiseScdMerger.h:137-228 | a pass writes the folds and the other records of its residue |
| ScdMerge.PairwiseScdMerger.Run | source/core/common/PairwiseScdMerger.h:119-231 | what is written is the expected multiset, the same for every number of passes |
| ScdMerge.NewIdIsWrittenOnce | source/core/common/PairwiseScdMerger.h:119-231 | given existing files each new id is written once, as the fold of its existing and then its new records |
| ScdMerge.OldIdsPassThrough | source/core/common/PairwiseScdMerger.h:244-271 | a record whose id no new record has is written exactly as often as it was read |
| ScdMerge.WithoutExistingNothingIsMerged | source/core/common/PairwiseScdMerger.h:140-170 | without existing files exactly the new records are written |
| ScdMerge.FoldKeepsId | source/core/common/PairwiseScdMerger.h:299-327 | folding keeps the id |
| ScdMerge.FoldHasLastValues | source/core/common/PairwiseScdMerger.h:299-327 | a fold has exactly the properties that the id's records carry from its last insert record on, or from the first without one, each with the value the last such record gives it |
| ScdMerge.SomeoneIsLast | source/core/common/PairwiseScdMerger.h:299-327 | so a property is in the fold exactly when one of these records carries it |
| ScdMerge.FoldKind | source/core/common/PairwiseScdMerger.h:299-327 | a fold is an insert exactly when an insert record came and no delete record after it, and else of the last record's kind |
| ScdMerge.IdsTellDocidsApart | source/core/common/PairwiseScdMerger.h:244-271 | with a digest that tells strings apart and is never 0, records share an id exactly when they share a DOCID or both have none |
| ScdMerge.RecordsAreDocuments | source/core/common/PairwiseScdMerger.h:137-228 | the records are the documents of the files, each of its own file's kind |
| ScdMerge.InsertForgetsThePast | source/core/common/PairwiseScdMerger.h:299-327 | an insert record replaces everything folded before it |
| ScdIndex.ScdIndexLeveldb.InsertDocument | source/core/common/ScdIndexLeveldb.h:132-146 | puts the offset under the DOCID and appends it under the property value |
| ScdIndex.ScdIndexLeveldb.InsertBatch | source/core/common/ScdIndexLeveldb.h:157-161 | buffers the same, keeping the first offset of a DOCID |
| ScdIndex.ScdIndexLeveldb.Flush | source/core/common/ScdIndexLeveldb.h:192-208 | buffered pairs overwrite, buffered lists are appended, the buffers are empty |
| ScdIndex.BuildDirectly | source/core/common/ScdIndexLeveldb.h:132-146 | inserting each document directly gives the two tables the buffered build is compared with |
| ScdIndex.Build | source/core/common/ScdIndex.h:106-121 | for every flush count the property table is that of direct inserts, and for distinct DOCIDs the docid table too |
| ScdIndex.BufferingIsInvisibleExactlyForUniqueDocids | source/core/common/ScdIndex.h:106-121 | the docid table is that of direct inserts for every flush count if and only if DOCIDs are distinct |
| ScdIndex.FirstOfLastBatch | source/core/common/ScdIndex.h:106-121 | for every flush count the offset stored for a DOCID is the one it came with first in the last batch that has it |
| ScdIndex.PropertyListsFileOrder | source/core/common/ScdIndexLeveldb.h:141-161 | under each property value stand the offsets of exactly its documents, in file order |
| ScdIndex.OffsetsInOrder | source/core/common/ScdIndexLeveldb.h:141-161 | these are the offsets of exactly the documents with the property value, by their places in the file |
| BoundedQueue.ScoreQueue.Insert | source/core/search-manager/PriorityQueue.h:113-128 | an item enters a queue that is not full, or replaces the least when it is not below it; nothing else changes |
| BoundedQueue.ScoreQueue.Pop | source/core/search-manager/PriorityQueue.h:144-158 | gives up an item that no item held ranks below, and no other |
| BoundedQueue.KeptAreOffered | source/core/search-manager/PriorityQueue.h:113-128 | the queue holds offered items only, as many as fit |
| BoundedQueue.KeptAreTheGreatest | source/core/search-manager/PriorityQueue.h:113-128 | whatever was offered and is not held ranks no higher than anything held |
| BoundedQueue.KeptAscend | source/core/search-manager/PriorityQueue.h:144-158 | items come out in ascending order |
| AdSegments.GetAllPossibleSegStr | source/core/ad-manager/AdSelector.cpp:495-535 | terminates, visits all combinations of segment values in mixed-radix order, records a key for each and no other, and every stored feature list spells its own key |
| AdSegments.Tick | source/core/ad-manager/AdSelector.cpp:520-533 | carries from the last counter: the next combination in order, or the end |
| AdSegments.NextRank | source/core/ad-manager/AdSelector.cpp:520-533 | the next combination has the next rank, and there is none exactly after the last |
| AdSegments.RankIsInjective | source/core/ad-manager/AdSelector.cpp:495-535 | different combinations have different ranks |
| AdSegments.FirstDifferenceRanks | source/core/ad-manager/AdSelector.cpp:495-535 | combinations come by the first segment in which they differ: the last segment's values change fastest |
| AdSegments.EveryCombinationOnce | source/core/ad-manager/AdSelector.cpp:495-535 | every combination is visited exactly once |
| AdSegments.SpellCombination | source/core/ad-manager/AdSelector.cpp:507-518 | spells the key and the features of the current counters, skipping Unknown |
| AdSegments.KeyTableIsExact | source/core/ad-manager/AdSelector.cpp:505-534 | the recorded keys are exactly the keys of all combinations, and each stored feature list spells its own key |
| AdSegments.StoredFeaturesAreSegments | source/core/ad-manager/AdSelector.cpp:505-518 | a stored feature list names, in segment order and with the picked value, every segment of its combination whose value is not Unknown, and no other; no name comes twice |
| AdSegments.KeysOfAgeAndSex | source/core/ad-manager/AdSelector.cpp:505-518 | the keys and features of two segments, one of them Unknown |
| SegmentExpansion.ExpandBy | source/core/ad-manager/AdSelector.cpp:747-771 | in-place expansion by one feature: first values in place, copies for the others behind |
| SegmentExpansion.ExpandedByIsAllPairs | source/core/ad-manager/AdSelector.cpp:747-771 | expanding by a feature gives all pairs of a string and a value and nothing else |
| SegmentExpansion.PlaceOfPair | source/core/ad-manager/AdSelector.cpp:747-771 | where each pair stands: the first value in the string's own place, the others behind all strings, by string and then by value |
| SegmentExpansion.ExpandSegmentStr | source/core/ad-manager/AdSelector.cpp:742-773 | expands by every feature in turn |
| SegmentExpansion.ExpandedIsEveryChoice | source/core/ad-manager/AdSelector.cpp:742-773 | the expansion holds a key for every choice of one value per feature, and no other key |
| SegmentExpansion.ChoiceIsACombination | source/core/ad-manager/AdSelector.cpp:742-773 | a choice of known values is a combination of segment values that spells the same key |
| SegmentExpansion.ExpandedIsEnumerated | source/core/ad-manager/AdSelector.cpp:742-773 | every expanded string is an enumerated key |
| UserFeatures.GroupedByName | source/core/ad-manager/AdSelector.cpp:777-781 | grouping lists each name once, in order, with all its values in the order they came |
| UserFeatures.ValuesInOrder | source/core/ad-manager/AdSelector.cpp:777-781 | the values under a name are those of exactly the pairs with that name, by their places |
| UserFeatures.KnownUserFits | source/core/ad-manager/AdSelector.cpp:775-784 | the grouped features of a user with known values fit the segments |
| UserFeatures.GetUserSegmentStr | source/core/ad-manager/AdSelector.cpp:775-784 | the user's keys are the expansion of the grouped features |
| AdHistory.AdHistory.UpdateAdSegmentStr | source/core/ad-manager/AdSelector.cpp:284-307 | the ad gets the ids of its nonempty keys, stored with their names; other ads keep theirs; ids never change |
| AdHistory.AdHistory.FillHistory | source/core/ad-manager/AdSelector.cpp:594-616 | every pair of a user key and an ad key gets its own prediction, rows are just long enough, other columns are as before or 0 |
| AdHistory.AdHistory.ComputeHistoryCtr | source/core/ad-manager/AdSelector.cpp:537-620 | takes the reported values over, enumerates both sides and fills the table when there are at most 8388608 pairs of keys, and else serves the pending users |
| AdHistory.AdHistory.UpdateSegments | source/core/ad-manager/AdSelector.cpp:695-706 | reported values wait under their names, behind those that came before |
| AdHistory.AdHistory.UpdatePending | source/core/ad-manager/AdSelector.cpp:622-682 | serves the pending users one by one, ad by ad and key by key, and forgets them: the table is the one after exactly those writes |
| AdHistory.AdHistory.GetAdSegmentStrList | source/core/ad-manager/AdSelector.cpp:265-282 | the names of the ad's ids, in order |
| SegmentUpdate.MergeUpdates | source/core/ad-manager/AdSelector.cpp:541-572 | each segment takes the values reported under its name that it lacks, each once, in the order reported; other names are dropped |
| SegmentUpdate.MergeKeepsSegments | source/core/ad-manager/AdSelector.cpp:541-572 | merging keeps segments ordered and nonempty, keeps Unknown, and what fitted before fits still |
| SegmentUpdate.ReportedFits | source/core/ad-manager/AdSelector.cpp:541-572 | features whose values were reported under names of segments fit the segments afterwards |
| PendingHistory.LastWriteStands | source/core/ad-manager/AdSelector.cpp:669-674 | a written prediction stands unless another one is written to its cell later |
| PendingHistory.OthersStand | source/core/ad-manager/AdSelector.cpp:669-674 | cells not written to stand as before |
| PendingHistory.PendingIsFound | source/core/ad-manager/AdSelector.cpp:642-679 | after the pending users were served, every key of each of them reaches every id of each ad it was pending for |
| PendingHistory.LastUserStands | source/core/ad-manager/AdSelector.cpp:642-679 | the user served last has its own predictions in all cells of its keys and its ads' ids, whoever wrote there before |
| PendingHistory.LastUserFindsTheBest | source/core/ad-manager/AdSelector.cpp:622-682 | the lookup of that user and one of its ads then finds the best of these predictions |
| PendingHistory.PredictedWithStored | source/core/ad-manager/AdSelector.cpp:655-674 | for an enumerated ad key the prediction is made from the features stored for that key |
| PendingHistory.AllStandExactlyWhenTheyAgree | source/core/ad-manager/AdSelector.cpp:669-674 | all written predictions stand in the end if and only if writes to the same cell agree |
| PendingHistory.EveryUserHasItsOwnExactly | source/core/ad-manager/AdSelector.cpp:642-679 | every pending user has its own predictions in its cells if and only if users sharing a key and an ad's id are predicted alike there |
| PendingHistory.SharedKeyIsOverwritten | source/core/ad-manager/AdSelector.cpp:642-679 | two users with a common key, the first of whom is left with the second one's prediction |
| AdServing.PendingExactly | source/core/ad-manager/AdSelector.cpp:888-905 | a selection leaves pending exactly the clicked ads without a history, when there are enough to filter |
| AdServing.ServedSelectionPendsNothing | source/core/ad-manager/AdSelector.cpp:888-929 | once a selection's pending ads were served, behind any others, the lookup finds each of them and the same selection leaves none pending |
| AdServing.ServeSelection | source/core/ad-manager/AdSelector.cpp:922-929 | adding the pending ads and serving the pending users makes every failed lookup succeed |
| AdHistory.AdHistory.GetHistoryCtr | source/core/ad-manager/AdSelector.cpp:786-813 | found exactly when there is nothing to look up or some row reaches some id; the rate is the greatest such entry or 0 |
| HistoryTables.PairsMore | source/core/ad-manager/AdSelector.cpp:601-613 | writing one pair's prediction overwrites no other pair's |
| AdHistory.LookupFindsTheBestPrediction | source/core/ad-manager/AdSelector.cpp:589-618 | after filling, the lookup of known features with a segment id succeeds and finds the best prediction over their pairs of keys |
| AdSelect.Classify | source/core/ad-manager/AdSelector.cpp:885-920 | sorts the ads out: clicked, with history, and the rest, through the two bounded queues |
| AdSelect.ClassesPartition | source/core/ad-manager/AdSelector.cpp:885-920 | every ad falls in exactly one class |
| AdSelect.ClassedExactly | source/core/ad-manager/AdSelector.cpp:885-920 | which class an ad is in and with which score: a clicked ad by its history rate when there are enough to filter and else with 0, another ad by its history rate unless the selection explores, the rest without a rate |
| AdSelect.RestInOrder | source/core/ad-manager/AdSelector.cpp:885-920 | the ads without a score stay in the order of the list |
| AdSelect.FewAdsNeedNoHistory | source/core/ad-manager/AdSelector.cpp:889-905 | with at most 2(max/3+1) ads every clicked ad is kept without a lookup and none is left pending |
| AdSelect.SelectByRandSelectPolicy | source/core/ad-manager/AdSelector.cpp:815-830 | the documents at the distinct draws, in ascending order of the signed draws, always in bounds |
| AdSelect.ChoiceRepeatsExactly | source/core/ad-manager/AdSelector.cpp:822-828 | the choice repeats a document exactly when two draws agree modulo the length |
| AdSelect.RandomChoiceMayRepeat | source/core/ad-manager/AdSelector.cpp:822-828 | a concrete pair of draws names one document twice |
| AdSelect.GreatDrawsAreNegative | source/core/ad-manager/AdSelector.cpp:815-830 | draws from 2^31 on are negative and sort first: of seven documents the draw 2^32-1 names the second |
| AdSelect.Select | source/core/ad-manager/AdSelector.cpp:846-1010 | the list holds the ranked ads, best first, then ads without a score in the places left; a maximum of 0 overruns a queue exactly when an ad that was not clicked has a history |
| AdSelect.SelectionIsBoundedAndRanked | source/core/ad-manager/AdSelector.cpp:846-1010 | for every draw: no more ads than the input, all from it, scores aligned, the ranked part descending with the greater id first among equal scores, every other score strictly below; at most max_select of them if and only if max_select is not 0 |
| AdSelect.SelectedScores | source/core/ad-manager/AdSelector.cpp:935-1008 | in the ranked part a clicked ad has its predicted rate as score, another ad its history rate |
| AdSelect.MinScoreIsAttained | source/core/ad-manager/AdSelector.cpp:984-1004 | the score the others are put one below is 0 or that of a ranked ad |
| AdSelect.PlacesTaken | source/core/ad-manager/AdSelector.cpp:865-983 | clicked ads take up to max/3+1 places, ads with a history up to max-max/3-1, and what those leave is filled without a score |
| AdSelect.FilteredByHistory | source/core/ad-manager/AdSelector.cpp:892-908 | a clicked ad that is filtered out has no higher history rate than one that is kept |
| AdSelect.UnrankedIsPredictedLower | source/core/ad-manager/AdSelector.cpp:931-980 | a clicked ad that passed the filter and is not ranked is predicted no higher than any ranked ad scores |
| AdSelect.NothingSelectedExactly | source/core/ad-manager/AdSelector.cpp:865-866 | nothing is selected if and only if one ad is asked for and no clicked ad was kept |
| AdSelect.SelectionRepeatsExactly | source/core/ad-manager/AdSelector.cpp:846-1010 | among different ads, none is selected twice if and only if no random choice is made or different draws differ modulo the number of ads without a score |
| LatentVectors.Affinity | source/core/ad-manager/AdRecommender.cpp:21-30 | the score is the dot product |
| LatentVectors.CombineUser | source/core/ad-manager/AdRecommender.cpp:304-325 | the mean over the keys, unknown keys counting as zero; all ones without keys |
| LatentVectors.OneKeyMore | source/core/ad-manager/AdRecommender.cpp:304-325 | a further key enters the mean if it is known and dilutes it if not |
| LatentVectors.ScoredAsTrained | source/core/ad-manager/AdRecommender.cpp:304-340 | for known keys the vector used for scoring is the mean that training uses |
| LatentVectors.Descend | source/core/ad-manager/AdRecommender.cpp:549-567 | ads and users after the step, each ad seeing what the earlier ones left, with the largest component written |
| LatentVectors.ScaleTable | source/core/ad-manager/AdRecommender.cpp:574-586 | scaling multiplies every component of every vector |
| LatentVectors.ConstrainedWithin | source/core/ad-manager/AdRecommender.cpp:574-586 | the norm constraint brings every component, written or not, within MAX_NORM |
| LatentVectors.StepStaysWithin | source/core/ad-manager/AdRecommender.cpp:545-607 | a training step keeps both tables within MAX_NORM |
| LatentVectors.LastIsWritten | source/core/ad-manager/AdRecommender.cpp:569-572 | a key named twice keeps the vector written last |
| LatentVectors.ConstraintKeepsDirections | source/core/ad-manager/AdRecommender.cpp:569-607 | above the norm every vector is scaled alike, at or below it none is |
| StepDirection.StepMovesScore | source/core/ad-manager/AdRecommender.cpp:545-567 | the score of an ad with one vector changes by gradient times the square of the user vector, and by gradient times the square of the moved ad once the user has moved too |
| StepDirection.EachAdIsDirected | source/core/ad-manager/AdRecommender.cpp:549-567 | the same for each vector of an ad with several, for the users as the earlier ones left them |
| AdRecommendation.ClicksDirectTheScore | source/core/ad-manager/AdRecommender.cpp:545-567 | unscaled, a click raises the ad's score for the user by the rate times the square of the user vector, and never lowers it; no click changes it by ratio times that, and never raises it |
| FeatureIndex.GetUnviewed | source/core/ad-manager/AdRecommender.cpp:32-48 | -1 exactly when fewer bits are set, and otherwise the index-th set bit |
| FeatureIndex.ListKeepsIndex | source/core/ad-manager/AdRecommender.cpp:226-233 | listing a feature keeps the index, its inverse and the bits |
| FeatureIndex.TouchKeepsIndex | source/core/ad-manager/AdRecommender.cpp:520-536 | giving a key a vector keeps the index, its inverse, and set bits only on features without a vector |
| FeatureIndex.TouchKeepsBitsExactly | source/core/ad-manager/AdRecommender.cpp:520-536 | the bits stay exact if and only if the keys are listed, or the feature at 0 was viewed or is a key |
| FeatureIndex.ListedAreDistinct | source/core/ad-manager/AdRecommender.cpp:226-233 | no feature is listed twice |
| RecommendList.NothingTwice | source/core/ad-manager/AdRecommender.cpp:417-442 | distinct kept keys and unseen features without vectors give a list without duplicates |
| BoundedQueue.KeptKeysAreDistinct | source/core/ad-manager/AdRecommender.cpp:380-411 | the queue keeps distinct keys distinct |
| RecommendList.RankedUnlessUnseenRunOut | source/core/ad-manager/AdRecommender.cpp:417-442 | the list is descending if and only if unviewed features do not run out |
| RecommendList.RecommendationIsRanked | source/core/ad-manager/AdRecommender.cpp:380-442 | so for what the queue kept of any offered items |
| AdRecommendation.UnviewedFeaturesRunOut | source/core/ad-manager/AdRecommender.cpp:417-442 | a valid state in which unviewed features run out and the list is not descending |
| AdRecommendation.AdRecommender.constructor | source/core/ad-manager/AdRecommender.cpp:59-78 | a fresh recommender satisfies the invariant, with 1 click in 1000 impressions, rate 1 and ratio -1/999 |
| AdRecommendation.AdRecommender.UpdateAdFeatures | source/core/ad-manager/AdRecommender.cpp:212-240 | lists the new features once each in order, sets their bits, records the ad's positions, and keeps the invariant |
| AdRecommendation.FeaturesListedExactly | source/core/ad-manager/AdRecommender.cpp:222-238 | every feature of the ad ends up listed at its recorded position if and only if each was listed before or had no position |
| AdRecommendation.EarlyAdIsNeverListed | source/core/ad-manager/AdRecommender.cpp:222-238 | an ad with an impression before its listing stays unlisted, with another feature's position |
| AdRecommendation.AdRecommender.GetAdLatentVecKeys | source/core/ad-manager/AdRecommender.cpp:242-261 | the ad's id, or its listed features by position |
| AdRecommendation.AdKeysExactly | source/core/ad-manager/AdRecommender.cpp:242-261 | these keys are exactly the ad itself, or the features at its recorded positions |
| AdRecommendation.PickedExactly | source/core/ad-manager/AdRecommender.cpp:480-503 | which user keys take part in a step: all after a click, without one those that had a vector and those named again |
| AdRecommendation.AdRecommender.TouchAds | source/core/ad-manager/AdRecommender.cpp:515-538 | new keys get vectors, positions are looked up, bits are cleared, up to the first position outside the bit set |
| AdRecommendation.AdRecommender.Update | source/core/ad-manager/AdRecommender.cpp:463-612 | counters, rates, inserted keys and one training step; keeps the invariant, so in every run every component stays within MAX_NORM, the rate positive and the ratio negative |
| AdRecommendation.RatioApproaches | source/core/ad-manager/AdRecommender.cpp:471-477 | at every 50000th impression the rate becomes one over the number of clicks and the ratio comes 2 percent closer to the negative ratio of clicks to other impressions; otherwise both stay |
| AdRecommendation.TouchedKeepsBits | source/core/ad-manager/AdRecommender.cpp:520-536 | an impression keeps the bits exact if and only if features describe ads, the ad is listed, or feature 0 had been viewed |
| AdRecommendation.UnknownAdHidesTheFirstFeature | source/core/ad-manager/AdRecommender.cpp:520-536 | a concrete impression of an unlisted ad hides the only feature |
| AdRecommendation.AdRecommender.DoRecommend | source/core/ad-manager/AdRecommender.cpp:364-443 | the list is made from what the queue keeps and the unviewed features; without candidates nothing is recommended twice |
| AdRecommendation.NothingRecommendedTwice | source/core/ad-manager/AdRecommender.cpp:364-443 | kept keys and unviewed features of a valid recommender never repeat |
| AdRecommendation.BestAreKept | source/core/ad-manager/AdRecommender.cpp:380-411 | asked for the best of all ads, min(max_return, all) are kept, each with the score of its own vector, and none that is left out scores higher |
| RecommendList.LowestGiveWay | source/core/ad-manager/AdRecommender.cpp:417-442 | the items that give way to unseen features are the least ones, as many as are below the default score and as there are such features; they come last |

## Left out

- The donors' leftover lists of `migrateSharding`: they lose one vnode the map still gives the donor (line 596) and are only printed; the properties are about the map, the move list and the new topology.
- ZooKeeper, RPC, file copying, leveldb storage, logging, locks and threads: a migration step is a sent request or a shard's progress, and a wait is over when the queues it waits for are empty.
- The order in which requests are sent within one phase: any order is allowed.
- Hosts answer the request to generate files with yes, as their server always does (source/core/node-manager/DistributeFileSyncMgr.cpp:405-412): the branch for a no, and answers that belong to an earlier migration, are not part of this model.
- Shard addresses: one per source shard, as the code assumes; shard ids are nonzero where 0 is the code's "not found".
- No-loss at every step of a removal: false of the code; its exact condition is proved instead.
- Digests, hashes, document ids, the id manager, the click predictor and the order of ids by age: functions about which only what is written in the contracts is assumed; the id manager hands out unused positive ids and does not wrap at 16 bits.
- Floating point: scores, rates and vectors are exact reals, and the bounded queues compare them without the epsilon of `HitQueue.h`; float columns of the ranking are reals compared with their epsilon.
- The heap inside the bounded queue: the queue is its sorted contents, and ties of score and key are equal items. `source/core/search-manager/HitQueue.h:14` includes the queue of a library, which is not part of this model; the class of the same name in `source/core/search-manager/PriorityQueue.h` stands in for it.
- Master paging past the first top-K window, the filtering of tokens that are too many, the single-worker shortcut and error codes before the merge.
- A worker's decision not to prefetch a large page, and the copying of query texts to the parts of a split page.
- Sort columns are integers, reals or text; other column types of the property tables are not modelled.
- ScdMerge: callbacks, a split property other than DOCID, and copying numeric properties.
- ScdIndex: deserialisation and the second property index, which works like the first.
- ScdIndex.BufferingIsInvisibleExactlyForUniqueDocids: takes offsets to ascend, as positions in a file do.
- QueryNormalizer: characters are those of the C locale; the product-type keyword tables are not modelled.
- AdHistory.AdHistory.UpdateSegments: the overload for one name (source/core/ad-manager/AdSelector.cpp:684-693), and the refresh flag.
- AdHistory.AdHistory.GetAdSegmentStrList: an ad numbered just past the list has no ids; the guard at source/core/ad-manager/AdSelector.cpp:267 lets the code read past the end there.
- AdHistory.LookupFindsTheBestPrediction: takes the values to be among the segments' values. `SegmentUpdate.ReportedFits` gives that for reported values; the loop that reports mined values of ads never advances its iterator (source/core/ad-manager/AdSelector.cpp:453-458) and does not establish it.
- AdSelect.Select: what a call returns after it overran the queue; reading ad properties for the predictor.
- AdRecommendation.ClicksDirectTheScore: speaks of a step that is not scaled; the norm constraint multiplies all vectors of both tables by the same factor afterwards (`LatentVectors.ConstraintKeepsDirections`), which can lower a score in spite of a click.
- AdRecommendation: saving and loading, which drop the bits; the weighted forms of the combined user vector are not called.
- The job scheduler, the ad stream, cookies of directories and configuration classes: small invariants over unseen queues and files.
