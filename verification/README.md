# Verified model of the decentralized-training core

The project models the algorithms that every peer of the network runs on its own and must agree on with all the others,
and proves what they promise each other. One module stands for one source file, or for the arithmetic one of them needs.

- **Gradient aggregation.** `AllReduce` (ring all-reduce), `Vrf`, `Clusters`, `VrfClusters` and `Hierarchical` (the
  hash-driven topology, in its Python and its Rust form), `Shuffles` (what the shuffle reaches), `HierarchicalReduce` over
  `TreeMean` (the tree of rings), `TreeAgreement` (when its peers agree), `Byzantine` over `Krum`, `OrderStatistics` and
  `Euclid` (robust rules), `RobustValues` (what they return), `BreakdownPoints` (how many adversaries they withstand),
  `Compression` (Top-K).
- **Genomes.** `Genome` (validation, blueprint), `Mutations` (widen, add, remove) and `MutationEffects` (what each changes).
- **Codecs and hashes.** `Wire`, `WireDecode`, `WireLayout` and `WireBinding` (gradient messages), `Tokenizer` (byte-level
  BPE), `Merkle`, `EvolutionLedger` (the hash chain).
- **Protocols.** `Credits` (the credit state machine), `Tariffs` (what is earned and spent), `LazyDecay` (what laziness does
  to decay) and `CreditLedger` (the ledger's objects), `Tally` (votes), `Evolution` (settlement of outcomes), `Settlement`
  (who is paid), `ShardMap` (last writer wins), `RateLimit` (sliding windows).
- **Shared.** `Wrappers`, `Sums`, `Sorting`, `Bytes`, `Gradients`.

Where the source updates in place, so does the model: arrays for the ring's chunks and the shuffle, classes for genomes,
cursors, tokenizers, ledgers, accounts, trackers, shard maps and buckets. Each such method is proved against a function,
and the theorems are about that function, for all inputs or all runs.

Outside the model and turned into parameters: SHA-256 (an arbitrary function from bytes to 32 bytes), UTF-8 and JSON
(codecs with a left inverse; in the ledger only for the entries at hand, and only where a theorem says so), the Euclidean
norm (any function that is the nonnegative root of the sum of squares), `0.5 ** x` (any function, with values in (0,1] or
multiplicative where a theorem says so), fitness measurements (arbitrary), and the clock (an argument of each call, read
once a call). Floats are exact reals, except wire tensors, whose words are 32-bit patterns and come back bit for bit.
Tamper evidence is stated as extraction of colliding inputs, never by assuming that the hash is injective.

## What the code does that its descriptions do not say

Each of these is proved, with the exact condition under which the expected property does hold, and an input on which it
does not.

- The Python topology groups peer `idx` under `perm[idx] // k`; the Rust one chunks the list `perm`. They use one shuffle
  in opposite directions and in general put different peers together (`Clusters.GroupsAgreeIff`,
  `VrfClusters.ZeroHashDisagrees`), let alone under the same cluster numbers (`Clusters.ClustersAgreeIff`).
- For no peers the Python round count is negative, the Rust one zero (`HierarchicalReduce.CountsAgreeIff`).
- Agreement after the hierarchical reduction is documented without condition; it needs at most as many peers as the
  threshold, or room for all of them, and equality with the flat mean needs even levels as well
  (`TreeAgreement.PeersAgreeIff`, `TreeAgreement.PeersGetMeanIff`, `TreeAgreement.SevenPeers`).
- Bulyan is listed among the methods that tolerate up to f < n/2 adversaries; it withstands as many as its trimming removes,
  which with the default ratio is f only for f <= 1 or n >= 6f (`BreakdownPoints.BulyanRobustIff`,
  `BreakdownPoints.BulyanDefaultRobustIff`, `BreakdownPoints.SevenPeersTwoAdversaries`).
- `decode` cannot restore a tensor without elements, because `torch.frombuffer` refuses an empty buffer
  (`WireDecode.RoundTripIff`, `WireDecode.EmptyTensorRaises`).
- The root of a message covers names and bytes, joined without a boundary, and neither shapes nor metadata
  (`WireBinding.ShapeEditPasses`). Leaves are hashed without a prefix, so a parameter of 65 bytes of which the first is 1
  can pose as a pair of digests: every message of two or more parameters shares its root with one of a single parameter
  (`WireBinding.ForgeryPasses`, `WireBinding.TwoGradientsOneRoot`); where no parameter is of that form, the root binds
  (`WireBinding.RootBindsCovered`).
- Adding a layer can invalidate a genome when it or a neighbour fixes only one dimension, or when it is an attention layer
  whose heads do not divide the width it is given (`Mutations.AddValidIff`, `Mutations.AddFullGeneIff`,
  `Mutations.AddOneDimensionFails`, `Mutations.AddUnpairedFails`), and so can removing one in front of a norm or attention
  layer (`Mutations.RemoveValidIff`, `Mutations.RemoveInFrontOfAttentionFails`). A transformer blueprint of no layers is
  invalid (`Genome.SimpleTransformerValidIff`).
- A single reversing pass does not undo merges of merges (`Tokenizer.DecodeInvertsEncodeIff`,
  `Tokenizer.NestedMergeLosesBytes`), and a tokenizer restored from its own dictionary assigns other ids than the one saved
  (`Tokenizer.RestoredAgreesIff`, `Tokenizer.RestoredDisagrees`).
- The hash chain does not notice entries cut off its end (`EvolutionLedger.PrefixVerifies`: it never does), nor an end
  rewritten together with its hashes (`EvolutionLedger.RewrittenEndVerifies`, for any decisions); replacing one entry goes
  unnoticed in the last place, and elsewhere exactly with its stored hash kept (`EvolutionLedger.EditUnnoticedIff`,
  `EvolutionLedger.LastEntryRewritten`).
- Lazy decay is called equivalent to continuous decay. Every amount, earned or spent, decays from the account's last decay
  on instead of from its own booking: that comes to the same exactly for an amount booked at the time of a decay
  (`LazyDecay.OperationKeepsPaceIff`, over whole runs `LazyDecay.LazyIsContinuousIff`). Operations within a minute of the
  last decay do not decay first, so a vote or a reward at second 59 is worth less at second 119 than it should be
  (`LazyDecay.MinuteLost`); refunds and rewards never decay first and lose value for the time before they were paid
  (`LazyDecay.RefundDecaysWithTheRest`, `LazyDecay.RewardDecaysWithTheRest`, `LazyDecay.CreditsLoseHalf`). For the same
  minute a reading shows the balance undecayed (`LazyDecay.ReadingIsExactIff`) and can change what the next one shows
  (`LazyDecay.ReadingsAreHarmlessIff`).
- Depositing on a proposal again, as a second vote on it does, drops the deposit held so far without a refund
  (`Credits.StakesAccountedFor`, exactly then; `Credits.SecondDepositForfeits`).
- A tallied proposal is never retired: tallied again it is accepted and registered again, and its proposer rewarded again
  (`Evolution.OneRewardIff`, on the ledger `Evolution.OneRewardOpIff`, `Evolution.TallyTwice`).
- The shard map is called conflict-free; two replicas assigning one key at the same clock go on disagreeing
  (`ShardMap.MergeCommutesIff`, `ShardMap.ConcurrentAssignmentsConflict`, `ShardMap.FreshReplicasConflict`), and a merge can
  bring a removed peer back (`ShardMap.RemovedPeerReturnsIff`, `ShardMap.SnapshotUndoesRemoval`). With one writer a key
  everything converges (`ShardMap.SingleWritersConverge`).
- The check of the rate limiter does not reserve a place, so checks made ahead of their records all pass
  (`RateLimit.LimitHoldsIff`, `RateLimit.OverfillByCheckingAhead`; for tokens `RateLimit.LimitedIff`,
  `RateLimit.OverspendByCheckingAhead`). Nor does it know how many tokens a request will take, so the last one may exceed
  the budget (`RateLimit.InBudgetIff`, `RateLimit.OverspendTokens`).

## Model

| member | source | states |
|---|---|---|
| `AllReduce.ReduceAll` | engine/ussi_engine/training/allreduce.py:77-154 | for every number of peers and all tensors, as long as they agree in the element count of each, every peer's result is the tensor-wise mean of all the gradients, in the first peer's names and shapes |
| `AllReduce.TurnRing` | engine/ussi_engine/training/allreduce.py:118-145 | after n-1 scatter-reduce and n-1 all-gather steps every chunk of every peer is the sum over the full ring |
| `AllReduce.ScatterStep` | engine/ussi_engine/training/allreduce.py:120-132 | one lockstep step keeps the invariant that a peer's chunk at clockwise distance d sums the cyclic run of min(d, steps)+1 peers, the sends being read before any receive |
| `AllReduce.GatherStep` | engine/ussi_engine/training/allreduce.py:134-145 | one lockstep step hands every finished chunk one peer further |
| `AllReduce.PadChunks` | engine/ussi_engine/training/allreduce.py:110-116 | splitting into n chunks: short or missing trailing chunks are made up with zero chunks, and the pieces put together begin with the flat gradient |
| `AllReduce.FinishedChunk` | engine/ussi_engine/training/allreduce.py:118-145 | a run around the whole ring, wherever it starts, is the coordinate-wise sum over all peers |
| `AllReduce.FinishedFlat` | engine/ussi_engine/training/allreduce.py:147-154 | concatenating the finished chunks and cutting the padding off is the sum of the flat gradients |
| `AllReduce.Unflatten` | engine/ussi_engine/training/allreduce.py:217-226 | each named tensor is rebuilt from its own slice of the flat data |
| `AllReduce.FlattenSlice` | engine/ussi_engine/training/allreduce.py:207-226 | the slice of a flattened gradient at a tensor's offset is that tensor's data |
| `AllReduce.UnflattenedMean` | engine/ussi_engine/training/allreduce.py:147-154 | slicing the averaged flat gradient apart gives the mean of every named tensor |
| `Vrf.Permutation` | node/src/consensus/vrf.rs:33-57 | for every hash function the in-place shuffle returns a permutation of the peers, the one its recursive form describes |
| `Vrf.PermutationSpecIsPermutation` | engine/ussi_engine/training/hierarchical.py:454-472 | the Python shuffle, step for step the same, is a permutation for every hash function |
| `Shuffles.EveryPermutationReached` | node/src/consensus/vrf.rs:33-57 | no arrangement of up to 2^64 peers is out of reach: from any seed some hash function shuffles them into it |
| `Shuffles.SameArrangementIff` | node/src/consensus/vrf.rs:33-57 | two shuffles end in the same arrangement if and only if they drew the same partner for every index |
| `Shuffles.DrawsDetermined` | node/src/consensus/vrf.rs:42-54 | the arrangement tells every draw, whatever it started from |
| `Shuffles.DrawIs` | node/src/consensus/vrf.rs:45-53 | the partner of index i is the number that the first eight bytes of the seed spell, least significant first, modulo i + 1 |
| `Shuffles.TwoPeers` | node/src/consensus/vrf.rs:33-57 | of two peers the first keeps its place exactly when the byte drawn from is odd |
| `Vrf.InversePermutation` | engine/ussi_engine/training/hierarchical.py:155-170 | inverting a permutation gives a permutation, and inverting twice gives the first one back |
| `Vrf.ShardLoad` | node/src/consensus/vrf.rs:61-64 | the exact number of data shards the peer at each place of the shuffle serves |
| `Vrf.ShardsBalanced` | node/src/consensus/vrf.rs:61-64 | loads differ by at most one shard, and with as many shards as peers nobody is idle |
| `VrfClusters.AssignClusters` | node/src/consensus/vrf.rs:82-122 | the levels of clusters over the shuffled peers, sorted within each cluster; nothing for zero peers, size or depth |
| `VrfClusters.ClusterLeaders` | node/src/consensus/vrf.rs:126-137 | the leaders of level l are exactly the members of level l+1 |
| `VrfClusters.OptimalDepth` | node/src/consensus/vrf.rs:140-151 | the least depth between 1 and 7 at which the hierarchy has room, or 7 |
| `VrfClusters.CapLosesNothingBelowSeven` | node/src/consensus/vrf.rs:140-151 | the depth chosen has room for everybody exactly when seven levels would |
| `VrfClusters.ScalingStats` | node/src/consensus/vrf.rs:168-183 | flat and hierarchical round counts; the hierarchy never needs more |
| `Clusters.LevelCluster` | node/src/consensus/vrf.rs:95-110 | cluster c is a rearrangement of block c, ascending, with between 1 and k members |
| `Clusters.LevelMember` | engine/ussi_engine/training/hierarchical.py:155-185 | peer g is in cluster c exactly when it stands at a place i of the arrangement with i / k = c |
| `Clusters.OneCluster` | engine/ussi_engine/training/hierarchical.py:155-185 | no peer is in two clusters of a level |
| `Clusters.LevelCovers` | engine/ussi_engine/training/hierarchical.py:155-185 | a level's clusters hold exactly the level's members, nobody else and nobody left out |
| `Clusters.MembersAtFacts` | engine/ussi_engine/training/hierarchical.py:172-185 | at every level the members are distinct, drawn from the peers, and as many as the closed count says |
| `Clusters.LevelOfInverse` | engine/ussi_engine/training/hierarchical.py:155-170 | with the shuffle read as the Python code reads it, peer g is in cluster c exactly when perm[g] / k = c |
| `Clusters.ClustersAgreeIff` | engine/ussi_engine/training/hierarchical.py:155-170 | Python and Rust use one shuffle in opposite directions: their clusters agree at every level exactly when each peer lies in the same block under the shuffle and its inverse |
| `VrfClusters.ZeroHashDisagrees` | engine/ussi_engine/training/hierarchical.py:155-170 | a hash that is always zero shuffles three peers to [1, 2, 0]; in clusters of two, Rust puts peers 1 and 2 together and Python puts them apart |
| `Clusters.TogetherIff` | engine/ussi_engine/training/hierarchical.py:155-170 | two peers share a Python cluster exactly when their entries of the shuffle are in one block, and a Rust cluster exactly when their entries of its inverse are |
| `Clusters.GroupsAgreeIff` | engine/ussi_engine/training/hierarchical.py:155-170 | whatever the cluster numbers: both put the same peers together exactly when any two peers share a block under the shuffle if and only if they do under its inverse |
| `Clusters.SingleTop` | node/src/consensus/vrf.rs:140-151 | there is one cluster at the top exactly when k to the depth is at least n |
| `Clusters.NeverMoreThanFlat` | node/src/consensus/vrf.rs:168-183 | for every n, k >= 1 and depth the hierarchy takes no more rounds than one flat ring |
| `Clusters.RoundsStep` | node/src/consensus/vrf.rs:168-183 | peers that fit into one cluster take the 2(n-1) rounds of one ring; more take those of a full cluster and then those of as many leaders |
| `Clusters.RingRoundsAre` | engine/ussi_engine/training/allreduce.py:118-145 | a ring takes n - 1 steps to scatter and n - 1 to gather |
| `Hierarchical.BuildLevel` | engine/ussi_engine/training/hierarchical.py:160-185 | grouping by a dictionary of keys and sorting: exactly the keys that occur, each with the sorted values filed under it |
| `Hierarchical.LeafLevel` | engine/ussi_engine/training/hierarchical.py:155-170 | level 0 groups peer idx under perm[idx] // k: the clusters of the inverse arrangement |
| `Hierarchical.HigherLevel` | engine/ussi_engine/training/hierarchical.py:172-185 | a higher level groups the leaders below, in cluster order, k at a time |
| `Hierarchical.AssignPeer` | engine/ussi_engine/training/hierarchical.py:187-210 | the searches over all levels give a peer its cluster and leadership at each level it takes part in, and its position at level 0 |
| `Hierarchical.FindPosition` | engine/ussi_engine/training/hierarchical.py:475-480 | the position lookup finds the peer's place within its level-0 cluster |
| `Hierarchical.AssignClustersVrf` | engine/ussi_engine/training/hierarchical.py:123-212 | the whole topology is that of one permutation, and every peer's assignment is right |
| `Hierarchical.PathClimbsByLeading` | engine/ussi_engine/training/hierarchical.py:187-205 | a peer's path reaches level l+1 exactly when it leads its cluster at level l |
| `Hierarchical.PathIsQuotients` | engine/ussi_engine/training/hierarchical.py:194-205 | in closed form: at every level of a peer's path the number of its cluster is its entry of the shuffle, divided by the cluster size once for every level so far |
| `HierarchicalReduce.ReduceAll` | engine/ussi_engine/training/hierarchical.py:258-318 | one peer keeps its gradient; up to the threshold everybody gets the flat mean; beyond it the peer at each place gets the mean of means of the top block it climbs to |
| `HierarchicalReduce.ReduceLevel` | engine/ussi_engine/training/hierarchical.py:277-294 | running the rings of one level, in any order of its clusters, gives every member its cluster's mean of the values before the level |
| `HierarchicalReduce.TopDown` | engine/ussi_engine/training/hierarchical.py:296-316 | the broadcast hands every member, level by level, the result of its own top block |
| `HierarchicalReduce.AllPeersAgree` | engine/ussi_engine/training/hierarchical.py:258-318 | whenever k to the depth is at least n, all peers leave with the same gradient |
| `HierarchicalReduce.ResultsWithinInputs` | engine/ussi_engine/training/hierarchical.py:258-318 | every coordinate of every result lies between the least and the greatest input |
| `HierarchicalReduce.EvenTreeIsFlatRing` | engine/ussi_engine/training/hierarchical.py:258-318 | with room and equal clusters within each level the tree gives what the flat ring gives |
| `HierarchicalReduce.MeanOverArrangement` | engine/ussi_engine/training/hierarchical.py:277-294 | the mean gradient does not depend on how the shuffle arranges the peers |
| `HierarchicalReduce.TotalCommunicationRounds` | engine/ussi_engine/training/hierarchical.py:110-120 | summing over the built clusters gives the closed-loop count, at most the flat 2(n-1) |
| `HierarchicalReduce.ComputeScalingStats` | engine/ussi_engine/training/hierarchical.py:402-436 | the closed-loop count, which for no peers comes out as minus two rounds a level |
| `HierarchicalReduce.CountsAgreeIff` | engine/ussi_engine/training/hierarchical.py:411-423 | Python and Rust counts agree exactly when there is a peer, or no level |
| `TreeMean.AgreementIffRoom` | engine/ussi_engine/training/hierarchical.py:277-316 | the two tree phases on one coordinate: all places end equal on every input if and only if k to the depth is at least n |
| `TreeAgreement.ReduceAllPeers` | engine/ussi_engine/training/hierarchical.py:258-318 | the whole of reduce_all as a function of its inputs: lone gradient, flat mean up to the threshold, tree of rings beyond it |
| `TreeAgreement.PeersAgreeIff` | engine/ussi_engine/training/hierarchical.py:258-318 | all peers leave with one gradient, on every list of gradients of a layout, if and only if n is at most the threshold or k to the depth is at least n |
| `TreeAgreement.PeersGetMeanIff` | engine/ussi_engine/training/hierarchical.py:258-318 | every peer leaves with the flat mean, on every such list, if and only if n is at most the threshold, or there is room and every level splits evenly |
| `TreeAgreement.NoRoomSplitsPeers` | engine/ussi_engine/training/hierarchical.py:266-318 | past the threshold and without room: gradients, placed through the arrangement, on which two peers end up apart |
| `TreeAgreement.SevenPeers` | engine/ussi_engine/training/hierarchical.py:266-270 | seven peers, clusters of two, two levels: they always agree under the default threshold, and not under a threshold of one |
| `TreeMean.FlatMeanIffEven` | engine/ussi_engine/training/hierarchical.py:277-316 | the two tree phases on one coordinate: the flat mean on every input if and only if there is room and every level splits evenly (or is a single cluster) |
| `TreeMean.EvenUpKeepsMean` | engine/ussi_engine/training/hierarchical.py:277-294 | one level of equal clusters keeps the mean |
| `TreeMean.SpreadBounds` | engine/ussi_engine/training/hierarchical.py:277-316 | means of means stay within the bounds of the inputs |
| `TreeMean.NoRoomMeansSplit` | engine/ussi_engine/training/hierarchical.py:277-316 | without room there are values of one coordinate that leave two places apart |
| `Byzantine.RobustAggregate` | engine/ussi_engine/training/byzantine.py:58-102 | an error without gradients, the gradient itself for one, and otherwise the configured rule with its defaults for f, m and the trim ratio |
| `RobustValues.TrimmedMeanValue` | engine/ussi_engine/training/byzantine.py:91-93 | the trimmed mean as configured: of the values at a coordinate the t lowest and the t highest are dropped and the others averaged, t being the whole part of n times the given ratio, or of n times f / n, and at least one |
| `RobustValues.TrimmedMeanFallback` | engine/ussi_engine/training/byzantine.py:209-215 | where that drops everything the lower median is returned |
| `RobustValues.MedianValue` | engine/ussi_engine/training/byzantine.py:82-95 | the median rule returns the value with as many values below it as above, or one more above; the mean rule the mean |
| `RobustValues.KrumValue` | engine/ussi_engine/training/byzantine.py:86-90 | Krum returns the best gradient, Multi-Krum the mean of the best ones, as many as configured or all but f; with n <= 2f+2 everybody counts |
| `RobustValues.BulyanValue` | engine/ussi_engine/training/byzantine.py:96-100 | Bulyan averages what is left of the n - 2f best when the t lowest and t highest are dropped, t by the given ratio or a quarter |
| `RobustValues.ScoreIs` | engine/ussi_engine/training/byzantine.py:181-187 | a gradient's score is the sum of the n - f - 2 least of its distances to the others |
| `RobustValues.DistancesAre` | engine/ussi_engine/training/byzantine.py:181-187 | the distances a score draws on are the norms of the differences to every other gradient |
| `RobustValues.BestIsChoice` | engine/ussi_engine/training/byzantine.py:189-197 | selected are exactly the gradients that are ahead of all the others, by score and then by index, best first |
| `OrderStatistics.TrimmedMeanIs` | engine/ussi_engine/training/byzantine.py:217-227 | for every list made of a lowest, a middle and as many highest values the trimmed mean is the mean of the middle |
| `OrderStatistics.LowerMedianIs` | engine/ussi_engine/training/byzantine.py:232-245 | for every list made of lower values, a middle one and higher values, as many or one more, the median is the middle one |
| `Byzantine.TrimmedMeanAggregateValid` | engine/ussi_engine/training/byzantine.py:91-93 | with trim ratio 0, up to f adversaries that are a minority cannot move any coordinate out of the honest range |
| `Byzantine.MedianAggregateValid` | engine/ussi_engine/training/byzantine.py:94-95 | the same for the lower median and any minority |
| `Byzantine.KrumAggregateClose` | engine/ussi_engine/training/byzantine.py:148-162 | the Krum or Multi-Krum mean lies within diameter plus Krum radius of every honest gradient |
| `Byzantine.KrumConfigClose` | engine/ussi_engine/training/byzantine.py:85-90 | robust_aggregate with Krum or Multi-Krum, enough peers and no more averaged than are honest for certain: within diameter plus radius of every honest gradient |
| `Byzantine.KrumConfigUnanimous` | engine/ussi_engine/training/byzantine.py:85-90 | in those cases the gradient on which all honest peers agree is returned itself, names, shapes and data |
| `Byzantine.DefaultCountsSuffice` | engine/ussi_engine/training/byzantine.py:85-90 | with the default counts every n >= 2f+3 is such a case |
| `Byzantine.KrumSelect` | engine/ussi_engine/training/byzantine.py:165-197 | the selection with its fall-back to everything when n <= 2f+2 |
| `Byzantine.BulyanValid` | engine/ussi_engine/training/byzantine.py:96-100 | trimming Krum's survivors keeps every coordinate in the honest range when at least as many are trimmed from each end as there are adversaries |
| `Byzantine.BulyanDefaultQuarter` | engine/ussi_engine/training/byzantine.py:96-100 | the default quarter trims enough if and only if f <= 1 or n >= 6f |
| `Byzantine.BulyanConfigValid` | engine/ussi_engine/training/byzantine.py:96-100 | robust_aggregate with Bulyan keeps every coordinate in the honest range whenever enough is trimmed |
| `Byzantine.BulyanCaseValid` | engine/ussi_engine/training/byzantine.py:96-100 | so it does for every configuration with n >= 2f+3 and no more adversaries than f whose own ratio trims as many values from each end as there are adversaries, or which has the default ratio and f <= 1 or n >= 6f |
| `BreakdownPoints.AdversariesFirst` | engine/ussi_engine/training/byzantine.py:172-197 | identical adversaries among honest peers at equal distances are selected before every honest peer, ties going to the smaller index |
| `BreakdownPoints.BulyanRobustIff` | engine/ussi_engine/training/byzantine.py:96-100 | for every n > 1, f and ratio: whatever a adversaries send, every coordinate stays in the honest range, if and only if a is no more than the values trimmed from each end of what Krum leaves, or a minority of those where trimming gives way to the median |
| `BreakdownPoints.BulyanConfigRobustIff` | engine/ussi_engine/training/byzantine.py:55-100 | the same for robust_aggregate with Bulyan as configured |
| `BreakdownPoints.BulyanDefaultRobustIff` | engine/ussi_engine/training/byzantine.py:55-100 | with the default ratio and n >= 2f+3 the f adversaries configured for are withstood if and only if f <= 1 or n >= 6f |
| `BreakdownPoints.SevenPeersTwoAdversaries` | engine/ussi_engine/training/byzantine.py:55-100 | with the default ratio seven peers do not withstand two |
| `BreakdownPoints.TrimmedMeanConfigRobustIff` | engine/ussi_engine/training/byzantine.py:91-93 | robust_aggregate with the trimmed mean withstands exactly as many as it trims from each end, or a minority where it gives way to the median |
| `BreakdownPoints.MedianConfigRobustIff` | engine/ussi_engine/training/byzantine.py:94-95 | with the median exactly a minority |
| `OrderStatistics.TrimmedMeanRobustIff` | engine/ussi_engine/training/byzantine.py:200-229 | trimming t from each end withstands b adversaries, whatever they send, if and only if b <= t |
| `OrderStatistics.LowerMedianRobustIff` | engine/ussi_engine/training/byzantine.py:232-245 | the lower median withstands b adversaries among n values if and only if 2b < n |
| `Krum.PairwiseDistances` | engine/ussi_engine/training/byzantine.py:258-267 | the matrix filled from its upper triangle holds the distance of every pair, and zeros on the diagonal |
| `Krum.Select` | engine/ussi_engine/training/byzantine.py:165-197 | scoring each gradient by its nearest neighbours and sorting selects the m best |
| `Krum.RankingFacts` | engine/ussi_engine/training/byzantine.py:165-197 | ranking loses no gradient and puts none before one that scores better |
| `Krum.KrumBound` | engine/ussi_engine/training/byzantine.py:165-197 | for n >= 2f+3 and m <= n-f every selected gradient is honest or within (n-f-2)D/(n-2f-1) of an honest one |
| `Krum.SelectedClose` | engine/ussi_engine/training/byzantine.py:165-197 | every selected gradient is within diameter plus that radius of every honest one |
| `Euclid.TriangleInequality` | engine/ussi_engine/training/byzantine.py:258-267 | the Euclidean norm over gradients of any length obeys the triangle inequality, which the bound rests on |
| `Euclid.MeanStaysClose` | engine/ussi_engine/training/byzantine.py:137-145 | a mean of gradients within r of a point is within r of it |
| `Compression.Compress` | engine/ussi_engine/training/compression.py:46-63 | keeps max(1, ratio x numel) entries no dropped entry exceeds in magnitude; fails exactly when that is more than there are |
| `Compression.KeepCountIs` | engine/ussi_engine/training/compression.py:46-50 | as many as the whole part of the share, and one at least |
| `Compression.Decompress` | engine/ussi_engine/training/compression.py:65-76 | the values at their places in a zeroed buffer of the stored shape |
| `Compression.RoundTrip` | engine/ussi_engine/training/compression.py:46-76 | decompress after compress agrees with the tensor on the kept places and is zero elsewhere |
| `Compression.TopKIsTopK` | engine/ussi_engine/training/compression.py:50-52 | sorting by magnitude does yield such a selection, so the contract of compress can be met |
| `Compression.TopKOptimal` | engine/ussi_engine/training/compression.py:46-76 | no vector with at most k nonzero entries is nearer to the tensor in squared error |
| `Genome.ArchitectureGenome.Clone` | engine/ussi_engine/architecture/genome.py:372-378 | a fresh genome equal to this one |
| `Genome.ArchitectureGenome.Validate` | engine/ussi_engine/architecture/genome.py:203-257 | the loop with its carried width reports exactly what is wrong: no genes, heads that do not divide, skips that are not backwards or join unequal dimensions, and genes fed another width than they ask for |
| `Genome.ValidIffNothingWrong` | engine/ussi_engine/architecture/genome.py:203-257 | a genome is valid if and only if none of these is the case |
| `Genome.ChainedIff` | engine/ussi_engine/architecture/genome.py:241-255 | carrying one width from left to right checks exactly the pairs of genes of which one feeds the other |
| `Genome.SimpleTransformer` | engine/ussi_engine/architecture/genome.py:148-201 | the blueprint: six genes a block, the feed-forward width defaulted |
| `Genome.BlueprintGene` | engine/ussi_engine/architecture/genome.py:149-201 | gene by gene: attention, norm, up-projection, gelu activation, down-projection, norm, four times the hidden width between when none is given |
| `Genome.SimpleTransformerValidIff` | engine/ussi_engine/architecture/genome.py:148-201 | the blueprint is valid if and only if it has a layer and its heads divide the hidden width |
| `Mutations.WidenLayerMutation.Apply` | engine/ussi_engine/architecture/mutations.py:184-229 | a fresh genome with the widened gene and its downstream adapted, generation and parent hash set; the given genome is not modified |
| `MutationEffects.WidenEffect` | engine/ussi_engine/architecture/mutations.py:184-229 | gene by gene, for every position and width: the gene puts out the new width; those behind it, up to and including the first that puts out a width of its own, take it in, norm and attention layers put it out as well, attention with the greatest head count that divides it; nothing else changes |
| `Mutations.ReduceHeads` | engine/ussi_engine/architecture/mutations.py:207-212 | the head-reduction loop ends at the largest count up to the old one that divides the width |
| `Mutations.FixHeadsDivides` | engine/ussi_engine/architecture/mutations.py:207-212 | that count divides the width, is between 1 and the old one, and nothing larger divides |
| `Mutations.PropagateFrom` | engine/ussi_engine/architecture/mutations.py:192-225 | the in-place downstream loop computes the recursive propagation and stops where a gene fixes its own width |
| `Mutations.WidenKeepsValid` | engine/ussi_engine/architecture/mutations.py:184-229 | every position and every positive width keep a skip-free genome valid and skip-free |
| `Mutations.AddLayerMutation.Apply` | engine/ussi_engine/architecture/mutations.py:67-109 | a fresh genome with the gene fitted and inserted and the next consumer adjusted; the given one is not modified |
| `MutationEffects.AddEffect` | engine/ussi_engine/architecture/mutations.py:67-109 | the genes in front stay, the new gene is fitted to its neighbours' widths and put in, and of the genes behind it only the first that asks for a width is told the one it puts out |
| `Mutations.AddValidIff` | engine/ussi_engine/architecture/mutations.py:67-109 | for every gene with a dimension: valid if and only if, with the dimensions it is given, its heads divide its input, the width before it is its input, and what follows takes its output |
| `Mutations.AddOneDimensionIff` | engine/ussi_engine/architecture/mutations.py:93-97 | for a gene with one dimension in a paired genome: the width it is given on both sides must be the width before it and divide its own heads and the next consumer's |
| `Mutations.AddOneDimensionFails` | engine/ussi_engine/architecture/mutations.py:93-103 | adding a linear gene of input 8 in front of an attention gene of 16 heads breaks a valid paired genome |
| `Mutations.AddFullGeneIff` | engine/ussi_engine/architecture/mutations.py:67-109 | for a gene with both dimensions that comes down to its heads and to the consumers that lived off no width agreeing on one |
| `Mutations.AddKeepsValid` | engine/ussi_engine/architecture/mutations.py:67-109 | in genomes that fix both dimensions or neither, a non-attention gene can be added anywhere |
| `Mutations.AddDimensionlessKeepsValid` | engine/ussi_engine/architecture/mutations.py:67-109 | a gene without dimensions can be added anywhere |
| `Mutations.AddUnpairedFails` | engine/ussi_engine/architecture/mutations.py:67-109 | a genome with an unpaired gene that adding makes invalid |
| `Mutations.RemoveLayerMutation.Apply` | engine/ussi_engine/architecture/mutations.py:135-160 | a fresh genome without the gene and with the next consumer told the width in front of the gap; the given one is not modified |
| `MutationEffects.RemoveEffect` | engine/ussi_engine/architecture/mutations.py:135-160 | the gene is gone, the others move up unchanged, except that the first one behind the gap that asks for a width is told the one in front, and a norm layer puts it out as well |
| `MutationEffects.OutsideNothing` | engine/ussi_engine/architecture/mutations.py:135-229 | at a position outside the genome nothing is widened or removed |
| `Mutations.RemoveValidIff` | engine/ussi_engine/architecture/mutations.py:135-160 | for every skip-free genome: valid if and only if something is left and what follows takes the width in front of the gap |
| `Mutations.RemoveInFrontOfAttentionFails` | engine/ussi_engine/architecture/mutations.py:135-160 | removing the gene that widened from 8 to 16 in front of 16 heads breaks a valid paired genome |
| `Mutations.RemoveKeepsValid` | engine/ussi_engine/architecture/mutations.py:135-160 | in a paired genome, removal in front of any consumer but a norm or an attention layer is safe |
| `Merkle.ComputeRoot` | node/src/consensus/merkle.rs:11-33 | the layered reduction with promoted odd nodes; each layer is strictly shorter than the last |
| `Merkle.SmallRoots` | node/src/consensus/merkle.rs:11-33 | the roots of none, one, two and three chunks, with the prefix bytes written out |
| `Merkle.ReduceLayer` | node/src/consensus/merkle.rs:20-31 | pairing the neighbours of one layer, an odd last node passing up unhashed |
| `Merkle.BuildTreeFacts` | node/src/consensus/merkle.rs:11-33 | the layers spell out a binary tree whose hash is the root and whose leaves are the chunks in order |
| `Merkle.CollisionFound` | node/src/consensus/merkle.rs:35-48 | whatever the leaves are hashed under: walking down two trees of equal hash, either all hash inputs agree as far as both go, or two different inputs of one hash are reached |
| `Merkle.AlikeEqual` | node/src/consensus/merkle.rs:35-48 | where no leaf is hashed as a pair is, trees with the same hash inputs are the same tree; the zero byte in front of each leaf sees to that |
| `Merkle.MerkleBinding` | node/src/consensus/merkle.rs:11-48 | two nonempty chunk lists of any lengths with equal roots are equal, or a colliding pair of hash inputs is extracted |
| `Wire.Encode` | engine/ussi_engine/training/wire.py:79-165 | raises exactly when a count, length or dimension overflows its field, and otherwise writes the message, its root and its metadata |
| `WireLayout.MessageBytes` | engine/ussi_engine/training/wire.py:117-160 | header, records in the order of the names, and the metadata behind its length |
| `WireLayout.HeaderBytes` | engine/ussi_engine/training/wire.py:117-126 | four bytes of magic, version 1, flag 1 with a compressor and 0 without, the root, the number of parameters |
| `WireLayout.RecordBytes` | engine/ussi_engine/training/wire.py:128-145 | the length of the name in two bytes, the name, rank, dimensions and payload length in four bytes each, the payload |
| `WireLayout.NumberBytes` | engine/ussi_engine/training/wire.py:117-160 | numbers are written least significant byte first |
| `WireLayout.WordIs` | engine/ussi_engine/training/wire.py:104-112 | a word of a tensor is four bytes, least significant first |
| `Wire.WriteParam` | engine/ussi_engine/training/wire.py:128-146 | one parameter record, field by field, or failure exactly on overflow |
| `Wire.ComputeGradientRoot` | engine/ussi_engine/training/wire.py:104-114 | the root over the hashes of names and payloads, in sorted order |
| `Gradients.StringLeIs` | engine/ussi_engine/training/wire.py:97 | the order in which names are written: by the first difference, a name before what it begins |
| `Wire.BytesIO.Read` | engine/ussi_engine/training/wire.py:184-199 | a cursor read returns what is left when it comes up short, and advances by what it returned |
| `Wire.WordsRoundTrip` | engine/ussi_engine/training/wire.py:140-146 | 32-bit words written and read back are the same words |
| `WireDecode.Decode` | engine/ussi_engine/training/wire.py:168-248 | the cursor program computes the parser and its checks: magic, version, root, metadata, tensors, each with its own error |
| `WireBinding.MismatchRefusedIff` | engine/ussi_engine/training/wire.py:224-238 | for every data, compressor and number of parameters: decode raises for the root exactly when the root in bytes 6 to 38 is not the one over the names and bytes read |
| `WireBinding.HeaderFields` | engine/ussi_engine/training/wire.py:184-197 | what parses has at least 42 bytes: the magic, version 1, the flags, the root |
| `WireBinding.ForeignDataRefused` | engine/ussi_engine/training/wire.py:184-197 | data that is too short, lacks the magic or is of another version is refused, the latter two by name |
| `WireBinding.TamperingRefused` | engine/ussi_engine/training/wire.py:184-248 | whatever is done to an encoded message behind its root: what decode still accepts has the names and bytes that were encoded, or a parameter that poses as a pair, or exposes the hash function |
| `WireDecode.ReadParams` | engine/ussi_engine/training/wire.py:201-217 | reading the records one after another, the cursor ending where the parser does |
| `WireDecode.ParamThen` | engine/ussi_engine/training/wire.py:128-217 | a written record followed by anything is read back whole, leaving what follows |
| `WireDecode.ParseMessage` | engine/ussi_engine/training/wire.py:168-235 | parsing a message gives back its flags, root, names, shapes, payloads and metadata |
| `WireDecode.RoundTripIff` | engine/ussi_engine/training/wire.py:79-248 | uncompressed: decoding what was encoded gives the same names, shapes, bits and metadata if and only if no tensor is empty; an empty one makes decode raise |
| `WireDecode.EmptyTensorRaises` | engine/ussi_engine/training/wire.py:241-246 | a message with one tensor of no elements makes decode raise, whatever the codec and the hash |
| `WireDecode.CompressedRoundTrip` | engine/ussi_engine/training/wire.py:79-248 | with the compressor that encoded, decoding gives what that compressor makes of every tensor, and the metadata |
| `WireLayout.PlainWithoutFlag` | engine/ussi_engine/training/wire.py:190-246 | with the lowest bit of the flags clear a message is read as plain tensors, whatever compressor there is and whatever the other bits are |
| `WireLayout.DecompressedWithFlag` | engine/ussi_engine/training/wire.py:239-241 | with it set, a compressor and the right root every parameter is decompressed by its entry in the metadata, and a missing entry raises |
| `WireBinding.RootsBindInputs` | engine/ussi_engine/training/wire.py:224-238 | for any two parameter lists, empty ones included: equal hash inputs give equal roots, and equal roots give equal hash inputs, or two colliding inputs, or one that hashes to zero |
| `WireBinding.RootBindsCovered` | engine/ussi_engine/training/wire.py:224-238 | for any two parameter lists of any lengths: equal names-with-bytes give equal roots; and if no parameter is 65 bytes starting with 1, equal roots give equal names-with-bytes (joined without a boundary), or two colliding inputs, or one that hashes to zero |
| `WireBinding.ForgeryPasses` | engine/ussi_engine/training/wire.py:224-248 | without any collision: every message of two or more parameters has the root of a one-parameter message with 64 bytes of payload, which decoding accepts wherever the first root was right |
| `WireBinding.TwoGradientsOneRoot` | engine/ussi_engine/training/wire.py:104-114 | for every gradient of two or more tensors there is one of a single tensor with the same root, which encodes and decodes like any other |
| `WireBinding.WordsOfBytes` | engine/ussi_engine/training/wire.py:242-246 | bytes read as words and written again are the same bytes |
| `WireBinding.ShapeEditPasses` | engine/ussi_engine/training/wire.py:224-248 | shapes and metadata are outside the root: changed to as many elements, they pass the check and the tensor comes out in the other shape |
| `WireDecode.EstimateExact` | engine/ussi_engine/training/wire.py:251-264 | the uncompressed message is exactly as long as the estimate plus 4 plus the metadata |
| `Tokenizer.ByteTokenizer.BuildBpe` | engine/ussi_engine/data/tokenizer.py:141-147 | ids run on from the vocabulary size, which grows by the number of merges; a pair listed again takes the later id |
| `Tokenizer.ByteTokenizer.ApplyBpe` | engine/ussi_engine/data/tokenizer.py:149-164 | merging the leftmost pair until none is left; every merge shortens the list |
| `Tokenizer.ByteTokenizer.ReverseBpe` | engine/ussi_engine/data/tokenizer.py:166-177 | one pass that replaces each merged id by its two parts |
| `Tokenizer.ByteTokenizer.Encode` | engine/ussi_engine/data/tokenizer.py:67-93 | byte tokens, merged, with special tokens, truncated |
| `Tokenizer.EncodingIs` | engine/ussi_engine/data/tokenizer.py:67-93 | an encoding begins with token 1, goes on with the merged tokens, all of them above the special ones, and ends with token 2; truncation cuts the end off |
| `Tokenizer.PlainEncoding` | engine/ussi_engine/data/tokenizer.py:77-79 | a text of which no two neighbours merge is encoded byte by byte, four up |
| `Tokenizer.LeftmostFirst` | engine/ussi_engine/data/tokenizer.py:149-164 | the leftmost pair merges first whatever its place in the list, and merged tokens merge again: three worked texts |
| `Tokenizer.ByteTokenizer.Decode` | engine/ussi_engine/data/tokenizer.py:95-113 | special tokens stripped, one reversing pass, other tokens than bytes dropped |
| `Tokenizer.DecodesTokenwise` | engine/ussi_engine/data/tokenizer.py:95-114 | for any tokens: special and unknown ones are dropped, bytes come out four down, and a merged token gives the bytes among its two parts |
| `Tokenizer.Merged` | engine/ussi_engine/data/tokenizer.py:149-164 | after merging no two neighbours are in the table |
| `Tokenizer.MergingKeepsMeaning` | engine/ussi_engine/data/tokenizer.py:149-164 | for every table of bytes and earlier merges, full expansion of the merged tokens is full expansion of the original ones |
| `Tokenizer.BytesMeanThemselves` | engine/ussi_engine/data/tokenizer.py:67-93 | byte tokens expand to themselves, so merged text expands to its bytes |
| `Tokenizer.DecodeInvertsEncodeIff` | engine/ussi_engine/data/tokenizer.py:67-113 | for every table, input and length limit: decoding gives the bytes back if and only if no merged token is cut off and every one merges two bytes |
| `Tokenizer.FlatTableRoundTrip` | engine/ussi_engine/data/tokenizer.py:67-113 | with a table of byte pairs only, every input that is not truncated comes back |
| `Tokenizer.NestedMergeLosesBytes` | engine/ussi_engine/data/tokenizer.py:166-177 | a merge of a merge is not undone by the single pass: "abc" does not come back |
| `Tokenizer.EncodedInVocabulary` | engine/ussi_engine/data/tokenizer.py:67-93 | every token emitted is below the advertised vocabulary size |
| `Tokenizer.FromDict` | engine/ussi_engine/data/tokenizer.py:187-195 | a tokenizer with the saved merges and length limit, whose ids run on from the saved vocabulary size and enlarge it again |
| `Tokenizer.RestoredAgreesIff` | engine/ussi_engine/data/tokenizer.py:67-93 | for every text, length limit and use of special tokens: the restored table encodes alike if and only if no merged token of the text survives truncation |
| `Tokenizer.SaveAndRestore` | engine/ussi_engine/data/tokenizer.py:179-195 | the same for the tokenizer that from_dict builds from to_dict, whose vocabulary has grown once more |
| `Tokenizer.RestoredDisagrees` | engine/ussi_engine/data/tokenizer.py:179-195 | "ab" with its pair merged encodes differently before and after |
| `EvolutionLedger.Ledger.Append` | engine/ussi_engine/architecture/evolution_ledger.py:114-149 | the new entry is indexed, chained to the head and hashed; the chain verifies afterwards exactly when it did before |
| `EvolutionLedger.GenesisIsZeros` | engine/ussi_engine/architecture/evolution_ledger.py:20-24 | the predecessor of the first entry is named by 64 zeros |
| `EvolutionLedger.Ledger.VerifyChain` | engine/ussi_engine/architecture/evolution_ledger.py:151-163 | true exactly when every entry names its predecessor's hash and hashes to its own |
| `EvolutionLedger.Ledger.UpdatePostFitness` | engine/ussi_engine/architecture/evolution_ledger.py:165-174 | the first entry of the proposal is updated in place, and the chain verifies as before |
| `EvolutionLedger.AppendVerifiesIff` | engine/ussi_engine/architecture/evolution_ledger.py:131-149 | chaining to the head neither breaks a verifying chain nor mends a broken one |
| `EvolutionLedger.PostFitnessKeepsChain` | engine/ussi_engine/architecture/evolution_ledger.py:165-174 | the update leaves every hashed field and hash alone |
| `EvolutionLedger.FromJson` | engine/ussi_engine/architecture/evolution_ledger.py:194-211 | a ledger is given out exactly when the text parses and its chain verifies, with the head of its last entry |
| `EvolutionLedger.SaveAndLoad` | engine/ussi_engine/architecture/evolution_ledger.py:187-211 | a ledger comes back entry for entry, with its head, if and only if it verifies and its own text reads back; one that reads back but does not verify is refused |
| `EvolutionLedger.SameHeadFinding` | engine/ussi_engine/architecture/evolution_ledger.py:43-63 | for every codec, two verifying ledgers with one head have the same hashed fields throughout, or a collision, a preimage of the genesis hash, or two decisions of one canonical text are exhibited |
| `EvolutionLedger.SameHeadSameHistory` | engine/ussi_engine/architecture/evolution_ledger.py:43-63 | where the canonical texts of these entries can be read back, the last case does not occur |
| `EvolutionLedger.EditUnnoticedIff` | engine/ussi_engine/architecture/evolution_ledger.py:151-163 | replacing one entry by any other stays unnoticed if and only if the new one names the same predecessor, hashes to its own stored hash, and, unless it is the last, stores the old hash |
| `EvolutionLedger.LastEntryRewritten` | engine/ussi_engine/architecture/evolution_ledger.py:151-163 | the last entry can be replaced by any decision with the same predecessor and its hash |
| `EvolutionLedger.RewrittenEndVerifies` | engine/ussi_engine/architecture/evolution_ledger.py:151-163 | any end of a verifying ledger can be replaced by any decisions chained anew, and the chain verifies |
| `EvolutionLedger.PrefixVerifies` | engine/ussi_engine/architecture/evolution_ledger.py:151-163 | cutting entries off the end is never noticed |
| `Credits.RunsKeepBalance` | engine/ussi_engine/credits.py:174-199 | over every run of every operation: each balance is earned minus spent minus decayed, and the sums over all accounts are the ledger's minted, spent and decayed totals |
| `Credits.StepKeepsBalance` | engine/ussi_engine/credits.py:241-469 | every single operation keeps those books, whatever its arguments, the clock and the decay factor |
| `Credits.RunsKeepSolvent` | engine/ussi_engine/credits.py:323-469 | no run overdraws an account, when no rate or grant is negative and decay factors lie in (0,1] |
| `Credits.RefundsWithinDeposits` | engine/ussi_engine/credits.py:314-379 | over every run, settled stakes of a voter on a proposal plus the one still held never outnumber the deposits charged |
| `Credits.StakesAccountedFor` | engine/ussi_engine/credits.py:314-379 | over any run every deposit charged on a proposal is settled, forfeited by depositing on it again, or still held |
| `Credits.SecondDepositForfeits` | engine/ussi_engine/credits.py:314-343 | depositing on a proposal twice takes two deposits, of which no later run settles more than one |
| `Credits.SettlingTwice` | engine/ussi_engine/credits.py:345-379 | without a stake nothing is minted, and settling again changes nothing |
| `LazyDecay.StepWorth` | engine/ussi_engine/credits.py:499-520 | what any one operation books on any account counts, at every later time, decayed from the account's last decay; nothing else changes what the account is worth |
| `LazyDecay.RunWorth` | engine/ussi_engine/credits.py:499-520 | the same over any run: the worth of an account is its first worth and the sum of all amounts booked, each decayed from the last decay before it |
| `LazyDecay.LazyIsContinuousIff` | engine/ussi_engine/credits.py:499-520 | over any run a due reading shows what continuous decay gives if everything is booked at the times of decays; a run that only earns never shows more, one that only spends never less, and either shows as much only if so booked |
| `LazyDecay.OperationKeepsPaceIff` | engine/ussi_engine/credits.py:499-520 | for each operation, earning, refunding, rewarding or spending: a later due reading shows what continuous decay gives if and only if nothing is booked or the account decayed at that very time |
| `LazyDecay.MinuteLost` | engine/ussi_engine/credits.py:510-514 | a reward, or the reward of a vote, at second 59 shows at second 119 decayed by 119 seconds, which is less than by 60 |
| `LazyDecay.ReadingIsExactIff` | engine/ussi_engine/credits.py:499-520 | a reading shows the decayed worth of the balance if and only if a minute has passed since the last decay, or no time has, or the balance is zero |
| `LazyDecay.ReadingsAreHarmlessIff` | engine/ussi_engine/credits.py:499-520 | of two readings the first leaves the second alone if and only if it does not decay, the second comes a minute later or at the same time, or the balance is zero |
| `LazyDecay.OnlyZeroKeeps` | engine/ussi_engine/credits.py:516-518 | half-life decay over any positive time loses something |
| `LazyDecay.RefundDecaysWithTheRest` | engine/ussi_engine/credits.py:345-379 | a refund is credited before the decay that is due, so it decays with the rest: read right after, the balance is the same as after decaying first if and only if no decay is due, no stake is held, nothing is paid or the factor is 1 |
| `LazyDecay.RewardDecaysWithTheRest` | engine/ussi_engine/architecture/evolution.py:340-350 | the proposer's reward likewise, if and only if no decay is due, the reward is nothing or the factor is 1 |
| `LazyDecay.CreditsLoseHalf` | engine/ussi_engine/credits.py:364-379 | one half-life after the last decay a refund of 1.5 and a reward of 5 are worth half |
| `Credits.OpenedLedgersBalance` | engine/ussi_engine/credits.py:168-199 | the books of every ledger that was opened empty balance after any run |
| `Credits.OpenedLedgersKeepBounds` | engine/ussi_engine/credits.py:168-379 | and in it no voter settles more stakes than deposits were charged, and no account is overdrawn |
| `CreditLedger.Ledger.GetOrCreate` | engine/ussi_engine/credits.py:174-199 | a new peer gets an account with the welcome bonus, minted; other accounts stay |
| `Tariffs.WelcomedOnce` | engine/ussi_engine/credits.py:174-199 | a new peer is met with the welcome bonus, once, and has done nothing yet |
| `CreditLedger.Ledger.EarnTrainingRound` | engine/ussi_engine/credits.py:215-255 | the in-place update is the model's: touched, credited and minted by base, reputation and streak, and counted; the amount is returned |
| `Tariffs.RoundEarns` | engine/ussi_engine/credits.py:215-255 | a training round earns the base rate weighted between the multipliers of the worst and the best reputation, and more for a streak |
| `Tariffs.StreakAddsUp` | engine/ussi_engine/credits.py:524-548 | time connected adds up over connections towards the hours of a streak |
| `Tariffs.NoStreakOffline` | engine/ussi_engine/credits.py:529-548 | a peer that is not connected has no streak, and disconnecting again adds nothing to one |
| `CreditLedger.Ledger.EarnDataContribution` | engine/ussi_engine/credits.py:257-284 | the in-place update is the model's: credited by size and counted; the amount is returned |
| `Tariffs.DataEarns` | engine/ussi_engine/credits.py:257-284 | data earns by the megabyte of 1024 times 1024 bytes |
| `CreditLedger.Ledger.EarnVote` | engine/ussi_engine/credits.py:286-312 | the reward for voting, and the deposit when a proposal is named |
| `Tariffs.VoteEarns` | engine/ussi_engine/credits.py:286-343 | a vote earns its rate, and one on a proposal stakes the deposit if the balance covers it |
| `CreditLedger.Ledger.ChargeVoteDeposit` | engine/ussi_engine/credits.py:314-343 | the deposit is taken, held and returned, or nothing is taken and a free vote is noted |
| `CreditLedger.Ledger.SettleVote` | engine/ussi_engine/credits.py:345-379 | the deposit is removed; a refund is credited and returned only for a stake |
| `CreditLedger.Ledger.CheckInference` | engine/ussi_engine/credits.py:383-428 | priority, paid and free tier with the hour renewed, and no credits moved |
| `CreditLedger.Ledger.SpendInference` | engine/ussi_engine/credits.py:430-469 | an allowed request costs a free place or its price |
| `Tariffs.SpentIsTheBill` | engine/ussi_engine/credits.py:286-470 | over any run of any operations of any peers an account has spent what the listed prices and the deposit come to for the requests and deposits its balance covered, and nothing else |
| `Tariffs.PaidInference` | engine/ussi_engine/credits.py:383-470 | a balance that covers the price is charged it: priority or standard, and the surcharge for a long generation |
| `Tariffs.PriorityRefused` | engine/ussi_engine/credits.py:397-413 | a priority request it does not cover is refused and takes nothing |
| `Tariffs.FreeInference` | engine/ussi_engine/credits.py:415-497 | a standard request it does not cover takes a free place of the hour, or is told how long the hour still lasts |
| `Tariffs.CheckingIsFree` | engine/ussi_engine/credits.py:383-428 | asking gives the same verdict and takes nothing |
| `CreditLedger.Ledger.ApplyDecay` | engine/ussi_engine/credits.py:499-520 | nothing within a minute or without decay; otherwise the loss is booked on the account and in the ledger |
| `Tariffs.BalanceFound` | engine/ussi_engine/credits.py:499-520 | with decay on, a positive half-life and a minute gone by the balance is scaled by the half-life power of the time since the last decay; otherwise it is as it was left |
| `CreditLedger.Ledger.RewardProposer` | engine/ussi_engine/architecture/evolution.py:340-350 | the proposer is credited and the reward minted, without decay |
| `Tally.Decide` | engine/ussi_engine/architecture/evolution.py:541-579 | the deduplicating and weighing loops compute the acceptance rule |
| `Tally.AcceptsIff` | engine/ussi_engine/architecture/evolution.py:541-579 | told from the last votes alone: enough voters, and of the weight of all of them, abstentions included, the quorum approves; without any weight nothing approves |
| `Tally.AbstentionCounts` | engine/ussi_engine/architecture/evolution.py:558-579 | an abstention raises what the quorum asks by its weight and adds nothing: it counts exactly as a rejection |
| `Tally.LastVoteIs` | engine/ussi_engine/architecture/evolution.py:541-545 | of several votes of one voter the last counts |
| `Tally.NoVoteIs` | engine/ussi_engine/architecture/evolution.py:541-545 | and without one the voter has none |
| `Tally.UniqueIsLast` | engine/ussi_engine/architecture/evolution.py:543-547 | the ballot lists each voter once, with its last vote |
| `Tally.LastVotesDecide` | engine/ussi_engine/architecture/evolution.py:541-579 | the decision and the rate depend on each voter's last vote and on nothing else |
| `Tally.OrderOfVotersIsFree` | engine/ussi_engine/architecture/evolution.py:541-579 | votes of different voters may arrive in either order |
| `Tally.ApprovingNeverHurts` | engine/ussi_engine/architecture/evolution.py:557-579 | with weights that are not negative, one more approval never turns acceptance into rejection |
| `Tally.SwitchingToApprovalNeverHurts` | engine/ussi_engine/architecture/evolution.py:557-579 | nor does switching any vote cast to an approval |
| `Evolution.ProposalOutcomeTracker.RegisterAccepted` | engine/ussi_engine/architecture/evolution.py:297-311 | the outcome is appended, unsettled, with the current round |
| `Evolution.ProposalOutcomeTracker.SettleBallot` | engine/ussi_engine/architecture/evolution.py:362-374 | the loop over the voters is one ledger settlement each, abstentions skipped |
| `Evolution.ProposalOutcomeTracker.SettleOne` | engine/ussi_engine/architecture/evolution.py:327-374 | marks the outcome settled, rewards the proposer when fitness did not fall, then settles the voters |
| `Settlement.OutcomePays` | engine/ussi_engine/architecture/evolution.py:327-374 | for everybody with an account: settling an outcome pays the proposer the reward if fitness did not fall, refunds a voter at stake as accurate when approval and improvement agree and as inaccurate otherwise, and moves nobody else's money |
| `Settlement.BallotPays` | engine/ussi_engine/architecture/evolution.py:362-374 | the same for the voters alone; who abstained is paid nothing |
| `Evolution.ProposalOutcomeTracker.TickRound` | engine/ussi_engine/architecture/evolution.py:313-325 | the round advances, every outcome due is settled, and the ledger has run exactly their operations |
| `Evolution.TickSettlesExactly` | engine/ussi_engine/architecture/evolution.py:313-325 | after any run and a tick, settled are exactly the outcomes whose age is at least the rounds to settle |
| `Evolution.AlwaysExact` | engine/ussi_engine/architecture/evolution.py:297-325 | with at least one round to settle that holds at every moment of every run |
| `Evolution.RegisteringBreaksExact` | engine/ussi_engine/architecture/evolution.py:297-325 | registering keeps it if and only if there is at least one round to settle |
| `Evolution.PaidOnce` | engine/ussi_engine/architecture/evolution.py:318-329 | over any run an outcome is paid out once if the run settles it, and never otherwise |
| `Evolution.OutcomeSettlesOnce` | engine/ussi_engine/architecture/evolution.py:327-374 | paying out settles each voter who took sides exactly once and nobody else |
| `Evolution.RewardsWithinRegistrations` | engine/ussi_engine/architecture/evolution.py:327-350 | a proposal, or a proposer, is rewarded at most as often as it is registered |
| `Evolution.EveryRegistrationPays` | engine/ussi_engine/architecture/evolution.py:313-350 | and as often, if fitness stays high for as many rounds as settling takes |
| `Evolution.OneRewardIff` | engine/ussi_engine/architecture/evolution.py:313-350 | from here on a proposal, or a proposer, is rewarded at most once if and only if no more than one of its outcomes awaits settlement |
| `Evolution.RewardOpsOfRun` | engine/ussi_engine/architecture/evolution.py:313-350 | the reward operations the ledger runs for a proposer over any run of the tracker are the rewards so counted, and those that reach the ledger past the tracker |
| `Evolution.RewardOpsWithinRegistrations` | engine/ussi_engine/architecture/evolution.py:313-350 | over any run of the tracker the ledger rewards a proposer at most as often as an outcome of theirs is registered |
| `Evolution.OneRewardOpIff` | engine/ussi_engine/architecture/evolution.py:313-350 | over all runs of the tracker the ledger rewards a proposer at most once if and only if no more than one outcome of theirs awaits settlement |
| `Evolution.OneProposalRewardIff` | engine/ussi_engine/architecture/evolution.py:313-350 | for a proposer with a single proposal: at most one reward on the ledger if and only if that proposal is not awaiting settlement more than once |
| `Evolution.TallyTwice` | engine/ussi_engine/architecture/evolution.py:528-608 | a second tally accepts an accepted proposal again and has it await settlement twice |
| `Evolution.PlayIsRun` | engine/ussi_engine/architecture/evolution.py:313-374 | every run of the tracker is a run of the credit ledger |
| `Evolution.PlayKeepsBooks` | engine/ussi_engine/architecture/evolution.py:313-374 | conservation and the refund bound hold for any interleaving of ticks, registrations and ledger operations |
| `Evolution.EvolutionProtocol.ReceiveVote` | engine/ussi_engine/architecture/evolution.py:518-526 | the vote is appended to its proposal's votes, and no others change |
| `Evolution.EvolutionProtocol.TallyVotes` | engine/ussi_engine/architecture/evolution.py:528-608 | an accepted proposal becomes the current genome, joins the history and is registered with its ballot; otherwise nothing changes |
| `ShardMap.ShardMapStore.Assign` | node/src/consensus/shard_map.rs:35-46 | the clock advances and the entry carries it as its version |
| `ShardMap.FirstAssignment` | node/src/consensus/shard_map.rs:35-46 | the first assignment of an empty replica has version 1 |
| `ShardMap.ClocksCountAssignments` | node/src/consensus/shard_map.rs:35-66 | in every swarm that started empty a clock is at least the number of its own replica's assignments and at most the number of all |
| `ShardMap.ShardMapStore.RemovePeer` | node/src/consensus/shard_map.rs:49-51 | the peer's entries go, the clock stays |
| `ShardMap.ShardMapStore.Merge` | node/src/consensus/shard_map.rs:54-66 | the loop over the remote entries, in any order, keeps the newer of two entries and the local one on a tie |
| `ShardMap.ShardMapStore.Lookup` | node/src/consensus/shard_map.rs:69-73 | an entry that covers the layer whenever there is one, and none otherwise |
| `ShardMap.ShardMapStore.Pipeline` | node/src/consensus/shard_map.rs:76-85 | exactly the entries of the model, each once, by first layer |
| `ShardMap.PipelineServesOnce` | node/src/consensus/shard_map.rs:69-85 | where the pipeline of a model tiles its layers, exactly one peer serves each of them, and nobody a layer beyond or of another model |
| `ShardMap.MergeAssociative` | node/src/consensus/shard_map.rs:54-66 | merging is associative for all maps |
| `ShardMap.MergeIdempotent` | node/src/consensus/shard_map.rs:54-66 | merging a map again changes nothing |
| `ShardMap.MergeCommutesIff` | node/src/consensus/shard_map.rs:54-66 | merging commutes if and only if equal versions of a key carry equal entries |
| `ShardMap.MergeAllIsNewest` | node/src/consensus/shard_map.rs:54-66 | merging many maps leaves for every key one of its newest entries, and the latest clock |
| `ShardMap.Convergence` | node/src/consensus/shard_map.rs:54-66 | the same compatible maps merged in any order, with any repetition, give the same map |
| `ShardMap.NewestVersions` | node/src/consensus/shard_map.rs:54-66 | versions never depend on the order, compatible or not |
| `ShardMap.RunsKeepOrder` | node/src/consensus/shard_map.rs:35-66 | every run keeps every clock at least at every version, and entries under their own keys |
| `ShardMap.SwarmsInOrder` | node/src/consensus/shard_map.rs:31-66 | so it is in every state reachable from empty replicas |
| `ShardMap.AssignmentDominates` | node/src/consensus/shard_map.rs:35-66 | so an assignment is newer than all local entries and wins against every map whose clock is not ahead |
| `ShardMap.SingleWritersConverge` | node/src/consensus/shard_map.rs:35-66 | when no two replicas assign the same key, any run leaves maps that converge |
| `ShardMap.ConcurrentAssignmentsConflict` | node/src/consensus/shard_map.rs:35-66 | two replicas that assign a key to two peers at the same clock, which nobody is ahead of, disagree after any run of publishing, receiving, assigning other keys and removing other peers |
| `ShardMap.ConflictPersists` | node/src/consensus/shard_map.rs:49-66 | entries of one version and different peers stay apart until the key is assigned anew or one of the peers removed |
| `ShardMap.FreshReplicasConflict` | node/src/consensus/shard_map.rs:31-66 | two empty replicas and one assignment each are enough |
| `ShardMap.DifferentVersionsSettle` | node/src/consensus/shard_map.rs:54-66 | with different versions one exchange settles a key on the newer entry |
| `ShardMap.RemovedPeerReturnsIff` | node/src/consensus/shard_map.rs:49-66 | when a removed peer's key comes back with a merge: if and only if the other map gives it to the peer and nothing local is as new |
| `ShardMap.SnapshotUndoesRemoval` | node/src/consensus/shard_map.rs:49-66 | merging a snapshot from before a removal undoes it entirely |
| `RateLimit.BucketState.CountInWindow` | agent-sdk/ussi/rate_limit.py:79-83 | the lazily pruned list gives the count over the full history |
| `RateLimit.BucketState.Record` | agent-sdk/ussi/rate_limit.py:85-86 | the time is appended to list and history alike |
| `RateLimit.Resource.Check` | agent-sdk/ussi/rate_limit.py:112-120 | refused exactly when not a contributor, a limit is set, and the full history has reached it within the window; no history changes |
| `RateLimit.PassesIff` | agent-sdk/ussi/rate_limit.py:79-120 | a check passes without a limit, and otherwise when what was recorded in the half-open window up to now stays below it |
| `RateLimit.Resource.Record` | agent-sdk/ussi/rate_limit.py:156-159 | only the peer's own history grows, by this time |
| `RateLimit.Resource.Serve` | agent-sdk/ussi/rate_limit.py:112-159 | check, serve, record, as the class documentation prescribes, is one step of the model; served tells whether the check passed |
| `RateLimit.TokenBudget.CheckTokens` | agent-sdk/ussi/rate_limit.py:122-134 | the pruned pairs give the token total over the full history of the last hour |
| `RateLimit.TokenBudget.RecordTokens` | agent-sdk/ussi/rate_limit.py:160-163 | tokens are recorded for the peer, unless there are none |
| `RateLimit.PruningIsHarmless` | agent-sdk/ussi/rate_limit.py:79-83 | pruning at an earlier cutoff loses nothing a later cutoff would keep |
| `RateLimit.LimitHoldsIff` | agent-sdk/ussi/rate_limit.py:79-159 | over every interleaving of checks and records on a monotone clock: no half-open window of the length ever exceeds the limit if and only if at every record a check made there and then would have passed |
| `RateLimit.ChecksFirstSuffices` | agent-sdk/ussi/rate_limit.py:112-159 | a passing check of its own before every record is enough for that |
| `RateLimit.RequestsLimited` | agent-sdk/ussi/rate_limit.py:112-159 | so then every half-open window of the length holds at most the limit |
| `RateLimit.OverfillByCheckingAhead` | agent-sdk/ussi/rate_limit.py:112-159 | a run of the program for any limit: limit+1 checks made ahead all pass, and their records put limit+1 requests into one half-open window |
| `RateLimit.EveryWindowLimited` | agent-sdk/ussi/rate_limit.py:122-163 | for tokens, too: if every record follows its own passing check, no half-open window exceeds the limit before its last record |
| `RateLimit.LimitedIff` | agent-sdk/ussi/rate_limit.py:122-163 | for any amounts on a monotone clock that holds if and only if at every record a check made there and then would have passed |
| `RateLimit.InBudgetIff` | agent-sdk/ussi/rate_limit.py:122-163 | no half-open window exceeds the limit at all if and only if every record fits into what is left at its time |
| `RateLimit.OverspendTokens` | agent-sdk/ussi/rate_limit.py:122-163 | a run of the program for any limit: one check passes, and its record alone exceeds the budget by any amount |
| `RateLimit.OverspendByCheckingAhead` | agent-sdk/ussi/rate_limit.py:122-163 | a run of the program for any limit: two checks made ahead pass, and a window reaches the limit before its last record |
| `RateLimit.ClosedLimitHoldsIff` | agent-sdk/ussi/rate_limit.py:79-120 | windows closed at both ends keep to the limit if and only if every record passes a check that still counts what is exactly a window old |
| `RateLimit.ClosedWindowsTwice` | agent-sdk/ussi/rate_limit.py:79-120 | otherwise they hold at most twice the limit |
| `RateLimit.FillClosedWindow` | agent-sdk/ussi/rate_limit.py:79-159 | a run of the program for any limit, every record after its own passing check, that does fill one with twice the limit |

## Left out

- Networking, HTTP services, the command line, dashboards, the Docker node manager: input and output only.
- Model code, training loops, distillation and fitness evaluation: foreign numerics; fitness is an arbitrary number here.
- Floating-point rounding, FP16 and `math.log` (the automatic depth of a topology): exact reals; that the hierarchy has room is a condition.
- The asynchronous all-reduce variants: the lockstep protocol is the one modelled, as the code itself simulates it.
- The hash inputs of the shuffle: round identifiers, model identifiers and peer lists enter as the seed digest.
- Flattening and averaging asks that every gradient has the first one's tensors with as many elements each; the code asks only for equal totals, and averages across tensor boundaries when they are cut differently. The tree of rings and the robust rules are modelled for gradients of one layout: the same names, at least one, and the same shapes; names that only later gradients have, which the code drops, are left out there.
- Hierarchical.AssignClustersVrf: a depth of zero, which the code replaces by its automatic depth, is left out with that depth.
- Compression.Compress: indices are exact, while the code stores them as 32-bit floats, which is inexact from 2^24 entries on; ties among equal magnitudes are left open, as `topk` leaves them. Quantizing and chained compressors are left out; the wire theorems hold for any compressor.
- Skip connections under widen, add and remove: the mutations shift no skip targets, so the theorems are about skip-free genomes; negative positions of an addition, which Python counts from the end, are left out, and so is the parameter dictionary of a gene, which the mutations leave alone.
- The forward-skip error of `validate` covers every case its range error could: the range error cannot be reached, and is not modelled apart.
- The hexadecimal form of the root and the two size properties of a message are left out.
- The tokenizer's encoding starts at the UTF-8 bytes of the text, and decoding ends there; batches and padding are left out.
- The time stamp of a ledger entry is part of the decision handed in; handing out entry objects to callers, who could change their fields, is left out.
- LazyDecay.LazyIsContinuousIff: a run that both earns and spends between decays may lose on one booking what it gains on another; there the condition on the whole run is sufficient, and exact for each operation by itself.
- Credit accounts keep no list of past transactions, a record of at most 200 entries that nothing reads back into a balance; leaderboards and statistics are left out, as is the gate in front of inference that only counts outcomes.
- Evolution.ProposalOutcomeTracker.SettleOne: the reputation penalty of a proposer whose mutation failed is left out; reputation is kept elsewhere and nothing here depends on it.
- Evolution.EvolutionProtocol.TallyVotes: the entry it adds to the audit ledger and the creation and broadcast of proposals are left out; a tracker is always present.
- ShardMap.ShardMapStore.Assign: the 64-bit clock is unbounded, and so are the 32-bit layer numbers; serialization for gossip is left out.
- The savings ratio and other floating-point figures beside the two round counts are left out, as are overflow of the 64-bit counts.
- The four buckets of the limiter are four such resources with their own window and limit; the remaining-quota report and the error message are left out.
- Reputation scores, work queues, scheduler phases, round coordination and the proof-of-work search: their invariants are settled by single branches.
