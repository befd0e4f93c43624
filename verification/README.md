# Expert Sniper, verified

A Dafny model of the parts of Expert Sniper in which a fast, stateful or distributed form
has to agree with a simple one, and proofs that it does. `dafny verify dfyconfig.toml`
checks the whole project.

Foreign numerics are parameters: a language model is a function from the tokens it has seen
to its most likely next token, a float operation is any function on bit patterns, a network
peer is any sequence of answers, a hash is a function without collisions on the blocks in
question. Everything proved holds for all of them.

## What is modelled

* **Speculative decoding** (`Decoding`, `Drafting`, `Speculation`). The target engine with
  its KV cache, the greedy loop, prompt lookup, the draft model with its own cache, and the
  draft/verify/rollback loop. For every draft source the speculative stream is the greedy
  stream.
* **Hashed n-gram tables** (`Primes`, `NGramTables`, `NGramStream`, `Sorting`, `NGramRows`,
  `NGramLookup`). Prime search, table geometry, the 64-bit hash, the segment shift by running
  maximum, chunked context, the dilated convolution, the sharded and cached row lookup and
  its coalesced range reads, each against direct indexing or a window definition.
* **Sparse attention** (`SparseAttention`, `UnstableSorting`). The block selector: a row is a
  function of the stream up to its query, and of nothing else even when the sort is unstable,
  unless scores tie.
* **The Expert Network** (`Partials`, `Batches`, `HotCache`, `PartitionRace`, `Placement`,
  `Protocol`, `FetchPartition`, `HfReader`). Partial FFNs and their sum for one token and for
  batches, the driver's hot cache beside background fetches and evictions, rendezvous placement, the wire format, the verified sparse download, and the
  reader that fills the holes from the checkpoint.
* **Caches and block storage** (`Recency`, `ExpertCache`, `ExpertReader`, `ByteCache`,
  `ActiveBuffer`, `BlockFormat`, `Preprocess`). The LRU cache and the reader around it, the
  llama.cpp byte-budget cache and its client, the block format with its two writers, and
  the shard-by-shard preprocessing that deletes its input as it goes.

`Collections` and `Arithmetic` hold small facts about sequences and products.

## What turned out to hold only under a condition

* The hot cache reads a node's partition twice while it computes that node's partial: for the
  size of the lookup tables (`src/expert_network/reader.py:229-231`) and to mark them
  (`src/expert_network/node.py:160`). It is the live set that fetch workers add to
  (`reader.py:149`), so an id recorded in between can lie outside the tables, and the call
  raises. `PartitionRace.LateExpertRaises` reaches that without any failed request, with a
  node that does not answer `/partition`. `PartitionRace.WindowRaises` gives the exact
  condition: an interleaving between the two reads raises if and only if, at the first read,
  the node still has an expert to be discovered with an id outside the tables.
  `HotCache.DistributedReader.ComputeDistributed` raises for no other reason, and
  `PartitionRace.AnsweringNodesNeverRaise` says that it never does when all nodes told their
  partitions.
* The hot cache records "nobody serves this expert" after probes that merely failed
  (`src/expert_network/reader.py:152-155`). A call that does not raise is exact in every
  interleaving when no expert it asks for was recorded so when it began, although a node serves
  it (`HotCache.DistributedReader.ComputeDistributed`). `HotCache.TransientErrorLosesPartial`
  reaches a quiet state whose next answer lacks a node's partial.
  `HotCache.QuietCallIsExact` says when a quiet call is right for every float arithmetic: if and
  only if no node it skips serves an active expert recorded that way.
* A row that the n-gram hash names can belong to no shard. `NGramTables.RowsHaveShards`: every
  row of the heads has a shard if and only if the shards together hold as many rows as the heads
  have; the padding is never looked up. Padding to a multiple of the number of shards is enough
  (`NGramTables.DivisiblePaddingSuffices`), but the defaults pad to 128 and split into 512:
  `NGramStream.FirstTokenHasNoShard` has a table with these defaults, the default seed and 521
  rows, and a first token whose row 520 would be in shard 520 of 512. A lookup of such a row
  fails (`NGramLookup.BehindTheTable`).
* `align_up` wraps around for sizes within a page of 2^64; `ByteCache.AlignUpIsLeast` gives
  the exact range in which it is the least multiple.
* A download is only protected by hashes that exist. `FetchPartition.PartitionFetcher.AcceptedIsPublished`:
  what is accepted is the published block, whatever peers send, if and only if the manifest has
  a hash for it. Without one the first answer is written as it is
  (`FetchPartition.PartitionFetcher.PullBlock`); that leaves the rest of every layer file alone
  if and only if the body is no longer than a block (`FetchPartition.BodyKeepsTheRest`), and the
  excess of a longer one lands at the start of the next expert's block
  (`FetchPartition.LongBodySpills`). The theorems about a run therefore assume a manifest entry
  for every owned block.
* Without a manifest the sparse-file reader takes a block for a hole when its first 4096 bytes
  are zero. `HfReader.ProbeTells`: holes are recognised in every file if and only if blocks are
  empty, or at least as long as the probe, or the block is the last one. Blocks are whole pages,
  so after a fresh download the probe is right (`HfReader.FreshDownloadIsTrustworthy`).
* The sparse-file reader submits an id that is missing and neither cached nor in flight once for
  every time it is asked for; `HfReader.SubmittedOnce`: each such expert is read exactly once if
  and only if none of them is repeated.
* The sparse selector keeps the same blocks whatever argsort it uses if and only if no kept block
  ties with one that is left out (`SparseAttention.Indexer.AnySortKeepsBest`).
* An expert's owner is independent of the roster's order if and only if no other node ties
  with it (`Placement.OrderMattersOnlyForTies`).
* A layer file is readable by its offsets if and only if its header fits one page
  (`BlockFormat.WrittenLayerIsReadable`).
* A chunk of no tokens makes `ngram_ids` return the rows of the whole context, because the
  slice `[-0:]` keeps everything (`NGramStream.Table.RowsAreWindows`).

Where a comment and the code differ the model follows the code: the comment at
`src/expert_network/fetch_partition.py:226-228` says the fastest probe copy is written, the
code writes the copy of the last peer in the list that delivered.

## Model

| member | source | states |
|---|---|---|
| Decoding.Engine.Forward | src/mlx_expert_sniper/generate.py:98-194 | a forward pass appends the fed tokens to the KV cache and predicts, at every fed position, the model's choice after everything up to it |
| Decoding.Engine.Trim | src/mlx_expert_sniper/speculative.py:331-336 | trimming forgets the last positions, or all when there are fewer |
| Decoding.GreedyIsTheStream | src/mlx_expert_sniper/generate.py:230-241 | the greedy stream is the one sequence of own choices without a stop that ends by the budget or a stop and by nothing else |
| Decoding.GenerateStream | src/mlx_expert_sniper/generate.py:199-241 | the reference loop yields exactly the greedy stream: texts of own choices, none an eos or holding a stop string, ended by the budget or such a choice; one forward pass per chunk after the prefill, each feeding one token |
| Decoding.StopsIsStop | src/mlx_expert_sniper/generate.py:234-238 | a token stops the stream if and only if it is an eos id or one of the three stop strings occurs in its text |
| Decoding.GreedyYields | src/mlx_expert_sniper/generate.py:230-241 | the greedy chunks are the texts of such a run, and no other texts are |
| Drafting.PromptLookupDraft | src/mlx_expert_sniper/speculative.py:27-41 | drafts are what followed the newest earlier occurrence of the longest repeated suffix, and are empty exactly when nothing repeats or nothing is asked for |
| Drafting.RepeatsAtDistance | src/mlx_expert_sniper/speculative.py:32-40 | a repeated suffix is one whose every token equals the one a fixed distance before it |
| Drafting.ContinuationIsOwnChoices | src/mlx_expert_sniper/speculative.py:106-126 | the stateless k-token continuation is the only k-token sequence of the draft model's own choices |
| Drafting.ModelDraft.Trim | src/mlx_expert_sniper/speculative.py:86-94 | a rollback drops the rejected drafts that were fed, one less than were rejected, and only once |
| Drafting.ModelDraft.Sync | src/mlx_expert_sniper/speculative.py:96-104 | afterwards the cache is the longest common prefix of itself and the context |
| Drafting.ModelDraft.Call | src/mlx_expert_sniper/speculative.py:106-126 | for any cache, kept or forgotten trims and diverging contexts, the drafts are the stateless continuation and the cache ends as context plus all drafts but the last |
| Speculation.AcceptDrafts | src/mlx_expert_sniper/speculative.py:325-329 | the longest run of drafts that match the predictions is accepted |
| Speculation.AcceptedAreOwnChoices | src/mlx_expert_sniper/speculative.py:322-340 | accepted drafts plus the correction are what the target would have chosen token by token |
| Speculation.AcceptedIsMaximal | src/mlx_expert_sniper/speculative.py:325-329 | a prefix of the drafts is accepted if and only if the target would have chosen it |
| Speculation.EmitRound | src/mlx_expert_sniper/speculative.py:340-358 | emitting a round keeps the promise of the greedy stream, and fulfils it when it stops at a stop token or the budget |
| Speculation.VerifyDrafts | src/mlx_expert_sniper/speculative.py:318-338 | one pass verifies the drafts and the rollback leaves the KV cache at context plus accepted drafts |
| Speculation.VerifyRound | src/mlx_expert_sniper/speculative.py:314-362 | a round yields own choices, one more than accepted; KV cache stays context without its last token and a draft model stays a proper prefix behind |
| Speculation.SpecGenerateStream | src/mlx_expert_sniper/speculative.py:265-362 | for every draft source, prompt, budget and k the stream is the greedy one: texts of the target's own choices, none an eos or holding a stop string, ended by the budget or such a choice; the statistics are true of the engine's passes, fed tokens and cache; at most one forward pass more than chunks plus prefill is spent, and a draft model's cache never has to be healed |
| Primes.IsPrime | src/mlx_expert_sniper/models/qwen4_exp.py:549-557 | trial division by two and odd numbers up to the root decides primality |
| Primes.PrimeAbove | src/mlx_expert_sniper/models/qwen4_exp.py:560-566 | there is a prime above every number, so the search ends |
| Primes.NthPrimeIncreases | src/mlx_expert_sniper/models/qwen4_exp.py:560-566 | the n-th prime after a start is unique and grows strictly with n |
| Primes.FindNthPrimeAfter | src/mlx_expert_sniper/models/qwen4_exp.py:560-566 | terminates, and returns the prime with exactly n primes in (start, p] |
| NGramTables.NgramTableGeometry | src/mlx_expert_sniper/models/qwen4_exp.py:569-590 | sizes are the consecutive primes of this layer's heads, offsets their running sums, the table padded to the divisor, rows per shard and head dimension the rounded-down shares |
| NGramTables.PaddedIsLeastMultiple | src/mlx_expert_sniper/models/qwen4_exp.py:579-580 | the padded size is the least multiple of the divisor that holds the table |
| NGramTables.HeadSizesAreDistinctPrimes | src/mlx_expert_sniper/models/qwen4_exp.py:569-578 | head sizes are primes not below the base, equal only for the same layer and head |
| NGramTables.GeometryIsStacked | src/mlx_expert_sniper/models/qwen4_exp.py:572-580 | offsets are running sums of the sizes and the padded table holds them all |
| NGramTables.HeadRangesAreDisjoint | src/mlx_expert_sniper/models/qwen4_exp.py:572-589 | each head's rows lie in the table and in no other head's range |
| NGramTables.ShardIndexInRange | src/mlx_expert_sniper/models/qwen4_exp.py:611-613 | every shard index below a limit is valid if and only if the shards hold that many rows |
| NGramTables.RowsHaveShards | src/mlx_expert_sniper/models/qwen4_exp.py:579-613 | every row of the heads lies in one of the shards if and only if the shards hold as many rows as the heads have, also when a shard would have no rows |
| NGramTables.DivisiblePaddingSuffices | src/mlx_expert_sniper/models/qwen4_exp.py:579-589 | a divisor that the number of shards divides is enough for that, and then no padded row is lost |
| NGramTables.SmallTableLosesRows | src/mlx_expert_sniper/models/qwen4_exp.py:569-590 | a configuration with the default divisor and shards, and its geometry of 521 rows, whose shards hold 512 |
| NGramTables.BuildLayerMultipliers | src/mlx_expert_sniper/models/qwen4_exp.py:530-546 | one multiplier per shift, drawn from the split-mix hash of seed, layer and shift, each odd and positive with no token times it leaving signed 64 bits |
| NGramTables.MultiplierFits | src/mlx_expert_sniper/models/qwen4_exp.py:537-546 | multipliers are odd and positive and no token times a multiplier leaves signed 64 bits |
| NGramTables.HalfBoundIsLargest | src/mlx_expert_sniper/models/qwen4_exp.py:538-540 | multipliers are drawn below the largest half that cannot overflow, but at least one |
| NGramTables.LaterMultiplier | src/mlx_expert_sniper/models/qwen4_exp.py:530-546 | the third multiplier of layer 3 for the default seed and a vocabulary of 248320, from the constants of the hash |
| NGramTables.MixIsExact | src/mlx_expert_sniper/models/qwen4_exp.py:708-710 | for vocabulary tokens the 64-bit mix equals the mix over unbounded integers and stays below 2^63 |
| NGramTables.XorBits | src/mlx_expert_sniper/models/qwen4_exp.py:710 | a bit of the exclusive or is set if and only if that bit of the two numbers differs |
| NGramTables.XorCancels | src/mlx_expert_sniper/models/qwen4_exp.py:710 | it is symmetric, a number with itself gives zero, and mixing a number in twice takes it out |
| NGramTables.MixBits | src/mlx_expert_sniper/models/qwen4_exp.py:708-710 | each bit of the mix is the parity of that bit over the products of tokens and multipliers |
| NGramTables.NgramOfHead | src/mlx_expert_sniper/models/qwen4_exp.py:705-707 | head h hashes n tokens if and only if it is one of the heads of that block, from (n - 2) times the heads per n-gram on |
| NGramTables.HeadRowsStayInRange | src/mlx_expert_sniper/models/qwen4_exp.py:705-714 | whatever is hashed, each head's row is in that head's own range |
| NGramStream.TwoChunksAreOne | src/mlx_expert_sniper/models/qwen4_exp.py:700-702 | feeding two chunks through the context slot gives the results and the slot of one call |
| NGramStream.ChunkingIsInvisible | src/mlx_expert_sniper/models/qwen4_exp.py:692-714 | so does any cut of the stream |
| NGramStream.CumMaxFindsLastEos | src/mlx_expert_sniper/models/qwen4_exp.py:681-684 | the running maximum finds the last eos at or before each position |
| NGramStream.ShiftIsTokenBack | src/mlx_expert_sniper/models/qwen4_exp.py:677-690 | the shift is the token s back if no eos lies in those s positions, else eos |
| NGramStream.Table.RowsAreWindows | src/mlx_expert_sniper/models/qwen4_exp.py:703-714 | the kept rows are those of the chunk's windows if and only if the chunk is not empty |
| NGramStream.Table.WindowIsExact | src/mlx_expert_sniper/models/qwen4_exp.py:703-714 | in a table the code builds, every row of a window of vocabulary tokens is the unbounded hash reduced to its head's size, in that head's own range |
| NGramStream.FirstTokenHasNoShard | src/mlx_expert_sniper/models/qwen4_exp.py:611-613 | with default seed, divisor and shards, a first token can have a row whose shard does not exist |
| NGramStream.NGramEmbedding.constructor | src/mlx_expert_sniper/models/qwen4_exp.py:651-667 | the embedding's table is the geometry and the multipliers of its layer, and its slot is empty |
| NGramStream.NGramEmbedding.NgramIds | src/mlx_expert_sniper/models/qwen4_exp.py:692-714 | a call gives the rows of its own windows, exact when all tokens are in the vocabulary, and leaves the last tokens in the slot; an empty chunk gives the rows of the whole context |
| NGramStream.NGramEmbedding.NgramIdsOfChunks | src/mlx_expert_sniper/models/qwen4_exp.py:692-714 | a stream fed in any non-empty chunks gives the ids and slot of one call, and exact ids for vocabulary tokens |
| NGramStream.ConvIsWindows | src/mlx_expert_sniper/models/qwen4_exp.py:757-760 | an output of the dilated convolution depends on its own window only |
| NGramStream.TapsOfOneInput | src/mlx_expert_sniper/models/qwen4_exp.py:757-760 | a single input comes out weighted by the tap a multiple of the dilation away, and not at all between taps |
| NGramStream.TapsAdd | src/mlx_expert_sniper/models/qwen4_exp.py:757-760 | outputs add up as inputs do |
| NGramStream.ShortConv.Run | src/mlx_expert_sniper/models/qwen4_exp.py:750-760 | a chunk gives the activated outputs of the stream's windows and carries the state over, so a cut is invisible |
| Sorting.ArgSortSorts | src/mlx_expert_sniper/models/qwen4_exp.py:615 | the stable argsort lists every index once, in stable order |
| Sorting.StableOrderIsUnique | src/mlx_expert_sniper/models/qwen4_exp.py:615 | there is only one stable order |
| Sorting.ArgSortInverts | src/mlx_expert_sniper/models/qwen4_exp.py:616 | the argsort of a permutation is its inverse |
| NGramRows.DiskReadRows | src/mlx_expert_sniper/ngram_source.py:147-158 | positional reads return, for each id, the row-size bytes from the tensor's base plus id times the row size, or an error exactly when the file ends before one of them does |
| NGramRows.RowIsSlice | src/mlx_expert_sniper/ngram_source.py:147-158 | a row is there if and only if those bytes are, and it is those bytes |
| NGramRows.CoalescedRanges | src/mlx_expert_sniper/ngram_source.py:199-206 | merged ranges are sorted, disjoint, further apart than the distance, hold every row, start at rows, and number at most the distinct rows |
| NGramRows.BetweenIsProduct | src/mlx_expert_sniper/ngram_source.py:203 | the distance the coalescing compares is the product of the rows in between and the row size |
| NGramRows.GreatestStartContains | src/mlx_expert_sniper/ngram_source.py:216-222 | the greatest start not after a covered row is the start of the range that contains it |
| NGramRows.HfReadRows | src/mlx_expert_sniper/ngram_source.py:194-224 | coalesced range requests return the same bytes as direct reads, in any order and with duplicates, with at most one request per distinct row |
| NGramLookup.RowSource.LruGet | src/mlx_expert_sniper/ngram_source.py:42-50 | a hit becomes the newest and is counted, a miss is counted and changes nothing |
| NGramLookup.RowSource.LruPut | src/mlx_expert_sniper/ngram_source.py:52-57 | a stored row becomes the newest and at most the oldest row leaves |
| NGramLookup.PutEvictsOldest | src/mlx_expert_sniper/ngram_source.py:52-57 | the stored row is the newest, the others keep their order, and only the oldest leaves, exactly when they do not fit |
| NGramLookup.RowSource.RawRows | src/mlx_expert_sniper/ngram_source.py:87-106 | for every cache history the raw rows are the table's; hits are touched, only misses are read, counted and stored |
| NGramLookup.RowSource.Rows | src/mlx_expert_sniper/ngram_source.py:87-121 | rows of one shard for ids in any order and with duplicates are the table's own |
| NGramLookup.SortUndone | src/mlx_expert_sniper/models/qwen4_exp.py:615-624 | gathering with the inverse permutation puts every row back in its place |
| NGramLookup.FlatAt | src/mlx_expert_sniper/models/qwen4_exp.py:611-613 | shard and local row of an id find the row at that id in the one array of all shards |
| NGramLookup.ValueIsSlices | src/mlx_expert_sniper/ngram_source.py:87-106 | a row's raw value is, for each kind of tensor, the bytes at its place in the shard's file |
| NGramLookup.BehindTheTable | src/mlx_expert_sniper/models/qwen4_exp.py:611-613 | an id behind the last shard has no row |
| NGramLookup.DirectIsIndexing | src/mlx_expert_sniper/models/qwen4_exp.py:608-625 | finding rows shard by shard is indexing that array, with the same failures |
| NGramLookup.RowSource.FetchSorted | src/mlx_expert_sniper/models/qwen4_exp.py:617-623 | one fetch per shard, concatenated, is direct indexing of the sorted ids |
| NGramLookup.RowSource.Lookup | src/mlx_expert_sniper/models/qwen4_exp.py:608-625 | the sharded, cached lookup is indexing the one array of all shards put behind each other, and fails exactly when a row is missing there |
| SparseAttention.Indexer.KeptIsBest | src/mlx_expert_sniper/models/qwen4_exp.py:386-393 | blocks that are not complete yet never displace a complete one |
| SparseAttention.Indexer.KeptScoreHighest | src/mlx_expert_sniper/models/qwen4_exp.py:377-392 | no left-out complete block scores higher than a kept one, each scored on its own keys, the ratio of them from its start on |
| SparseAttention.Indexer.ScoreIsOfOwnKeys | src/mlx_expert_sniper/models/qwen4_exp.py:377-384 | a block's score does not change when keys outside it do |
| SparseAttention.Indexer.AnySortKeepsBest | src/mlx_expert_sniper/models/qwen4_exp.py:389-393 | every argsort, stable or not, keeps the same blocks if and only if no kept block ties with one that is left out |
| UnstableSorting.FrontsAgree | src/mlx_expert_sniper/models/qwen4_exp.py:390 | all argsorts of the same keys have the same first k indices, as a set, if and only if the keys on both sides of position k differ |
| SparseAttention.Indexer.RowIsSelection | src/mlx_expert_sniper/models/qwen4_exp.py:366-400 | a row, masked or dense, is the selection of the stream up to its query; later keys do not matter |
| SparseAttention.Indexer.RowIsCausal | src/mlx_expert_sniper/models/qwen4_exp.py:395-400 | nothing after the query is attended to and the incomplete tail always is |
| SparseAttention.Indexer.RowIsListed | src/mlx_expert_sniper/models/qwen4_exp.py:386-400 | a row attends to exactly the kept blocks in full and the tail |
| SparseAttention.Indexer.RowListDistinct | src/mlx_expert_sniper/models/qwen4_exp.py:386-400 | that list names each position once, so its length is the size of the row |
| SparseAttention.Indexer.RowList | src/mlx_expert_sniper/models/qwen4_exp.py:386-400 | it holds exactly min(complete blocks, block_topk) blocks in full and the incomplete tail |
| SparseAttention.Indexer.RowSize | src/mlx_expert_sniper/models/qwen4_exp.py:366-369 | a row has at most budget + ratio - 1 positions, and is the full causal row if and only if the complete blocks fit the budget |
| SparseAttention.ChunkingIsInvisible | src/mlx_expert_sniper/models/qwen4_exp.py:360-400 | a query's row is the same in one call over the stream and in a call that ends at its chunk |
| SparseAttention.QSAIndexer.Call | src/mlx_expert_sniper/models/qwen4_exp.py:333-400 | a call caches its keys; each row of its mask is the selection of its own query from the keys up to it, and there is no mask if and only if all those rows are the causal ones |
| SparseAttention.SelectsAllWhenFits | src/mlx_expert_sniper/models/qwen4_exp.py:366-369 | a query selects everything up to itself if and only if the complete blocks fit the budget |
| Partials.LookupFindsOwnRow | src/expert_network/node.py:161-164 | the table sends an owned, loaded, requested id to its own stacked row and every other id to row 0 |
| Partials.ComputedAreOwned | src/expert_network/node.py:150-155 | the number reported is that of the requested experts the node owns and has loaded |
| Partials.PartialIsLocal | src/expert_network/node.py:142-172 | a partial depends on the partition only through the requested ids, on the blocks only through the experts computed, and not on the table size |
| Partials.StackedIsContribution | src/expert_network/node.py:161-171 | the stacked and masked sum is the contribution of the owned slots |
| Partials.PartialsSumToWhole | src/mlx_expert_sniper/engine.py:15-42 | in exact arithmetic, for every token of any request, the partials of disjoint partitions covering the active ids sum to the single-machine FFN, whatever other experts the request lists |
| Batches.BatchPartialByToken | src/expert_network/node.py:142-172 | a node's answer to a batch is, token by token, its partial of that token |
| Batches.BatchSumsToWhole | src/expert_network/reader.py:275-286 | in exact arithmetic the nodes' answers to a batch of any size, stacked over the experts of all its tokens, sum to the single-machine FFN of the batch at every token |
| HotCache.StepKeepsSound | src/expert_network/reader.py:128-181 | every step of a fetch worker keeps positive owners true, cached blocks published, partitions growing, and negative owners true unless a search was refused |
| HotCache.StepNarrows | src/expert_network/reader.py:128-181 | no step makes it possible to learn of an expert of a node that could not be learned of before |
| HotCache.DistributedReader.LearnPartitions | src/expert_network/reader.py:112-126 | the owner and partition tables are those after every answering node, in turn, reported its partition |
| HotCache.Network.LearnedIsTrue | src/expert_network/reader.py:112-126 | a node that answered has its whole partition recorded and is the recorded owner of all of it |
| HotCache.Network.UnansweredStays | src/expert_network/reader.py:112-126 | nothing changes for experts no answering node serves |
| HotCache.DistributedReader.Work | src/expert_network/reader.py:128-181 | the code of a fetch worker is the step relation |
| HotCache.DistributedReader.Plan | src/expert_network/reader.py:196-216 | with workers running, every node is local or remote, a local node has its recorded share with every owner known, which is its whole share if no active expert was wrongly recorded as unserved at entry; in a quiet call exactly the nodes with nothing missing are local |
| HotCache.DistributedReader.LocalPartial | src/expert_network/reader.py:218-234 | with the workers running between the two reads of the partition: from a whole share the driver computes the node's own partial bit for bit, or nothing when a block was evicted, or raises, exactly when the second read has an id outside the tables sized by the first |
| HotCache.DistributedReader.PartialOver | src/expert_network/node.py:155-172 | given tables of some size it raises exactly when a recorded id is outside them, and else computes the node's own partial from a whole share |
| HotCache.SameShareSamePartial | src/expert_network/reader.py:229-233 | although it knows less of the partition and allocates smaller tables |
| HotCache.LocalTableSizeIsLeast | src/expert_network/reader.py:230-231 | the tables are the smallest that hold every id recorded and asked for |
| HotCache.EmptyShareIsZeros | src/expert_network/reader.py:211-222 | a node without active experts answers zeros |
| HotCache.DistributedReader.SumAll | src/expert_network/reader.py:275-286 | the sum is taken in node order over the local partials and the remote answers |
| HotCache.ReferenceIsFold | src/expert_network/reader.py:275-292 | without a cache the node partials are widened one by one, added in node order from the left, and the total is narrowed |
| HotCache.ReferenceLists | src/expert_network/reader.py:275-292 | where adding is listing, the result is the list of all widened partials in node order |
| HotCache.WarmStepsQueue | src/expert_network/reader.py:263-267 | warming queues a fetch for exactly the experts that are not cached, in flight or known to be unserved, and changes nothing else |
| HotCache.DistributedReader.WarmAll | src/expert_network/reader.py:263-267 | in a quiet call each miss takes one warming step, which queues a fetch unless the expert is cached, in flight or known to be unserved, and nothing else happens |
| HotCache.DistributedReader.ComputeDistributed | src/expert_network/reader.py:237-292 | for every cache state and interleaving, if no active expert is wrongly recorded as unserved at entry, the result is bit for bit the cache-off one or the call raises; it raises only if an id outside some share's tables was still to be learned at entry; with the cache off it is always the narrowed sum of the widened partials in node order; a quiet call never raises, returns the quiet answer, and leaves exactly the missing fetches queued |
| HotCache.QuietCallIsExact | src/expert_network/reader.py:196-234 | the quiet answer is the cache-off one for every arithmetic if and only if no skipped node serves an active expert recorded as unserved |
| HotCache.TransientErrorLosesPartial | src/expert_network/reader.py:152-156 | one transient error leads to a quiet state whose next answer is wrong |
| PartitionRace.RunNarrows | src/expert_network/reader.py:128-181 | likewise for every run of the workers |
| PartitionRace.LearnableIsLearned | src/expert_network/reader.py:128-150 | whatever can still be learned is learned by some run, without any failed request |
| PartitionRace.WindowRaises | src/expert_network/reader.py:229-233 | some interleaving between the two reads of the partition raises if and only if an id outside the tables can still be learned at the first; then one without a failed request does |
| PartitionRace.AnsweringNodesNeverRaise | src/expert_network/reader.py:112-126 | when all nodes told their partitions no later call can raise |
| PartitionRace.LateExpertRaises | src/expert_network/reader.py:229-233 | a reachable state, without any failed request, in which the driver answers for a node and one more discovery raises |
| Placement.OwnerLeads | src/expert_network/hrw.py:11-15 | the owner is at the first position with the highest score |
| Placement.AddedNodeTakesItsWins | src/expert_network/hrw.py:11-15 | a node added at any position takes exactly the experts it wins, all others stay |
| Placement.RemovedNodeMovesItsOwn | src/expert_network/hrw.py:11-15 | removing a node moves no expert it did not own |
| Placement.OrderIsIrrelevant | src/expert_network/hrw.py:11-15 | the same members in any order give an undisputed expert the same owner |
| Placement.OrderMattersOnlyForTies | src/expert_network/hrw.py:11-15 | no reordering to the front changes the owner if and only if no other node ties with it |
| Placement.OwnedIsItsShare | src/expert_network/hrw.py:18-22 | a partition is the sorted list of exactly the experts the node owns |
| Placement.Plan | src/expert_network/hrw.py:25-30 | the plan has every roster node with its partition, and fails exactly for an empty roster with experts to place |
| Placement.SharesPartitionTheExperts | src/expert_network/hrw.py:25-30 | every expert is in its owner's share and in no other |
| Placement.JoiningOnlyTakes | src/expert_network/hrw.py:11-22 | after a node joins, another node's share loses exactly what the newcomer took |
| Protocol.WordsRoundTrip | src/expert_network/protocol.py:17-23 | 16-bit little-endian words read back as written |
| Protocol.ArrangedSorts | src/expert_network/protocol.py:16 | ids are sent sorted: a rearrangement that uses every position once |
| Protocol.RequestRoundTrip | src/expert_network/protocol.py:15-27 | packing succeeds exactly when every field fits 16 bits, and the packed message decodes to the request with sorted ids |
| Protocol.RequestLayout | src/expert_network/protocol.py:3-9 | layer, count, ids, the three shapes and the contents are at their documented places, low bytes first |
| Protocol.RequestSize | src/expert_network/protocol.py:3-9 | a message is 22 bytes, two an id, and 2, 4 and 4 bytes for each element of its three arrays |
| Protocol.MessageIsUnambiguous | src/expert_network/protocol.py:30-49 | a message holds at most one request |
| Protocol.UnpackRequest | src/expert_network/protocol.py:30-49 | a complete message decodes to exactly the request it holds, or to an error when it holds none |
| Protocol.UnpackResponse | src/expert_network/protocol.py:58-65 | a complete message decodes exactly when it is the encoding of some response, and to that response |
| Protocol.ResponseRoundTrip | src/expert_network/protocol.py:52-65 | every response that can be packed comes back |
| Protocol.ResponseLayout | src/expert_network/protocol.py:10-11 | count, number of dimensions, shape and contents are at their documented places |
| FetchPartition.BlockLands | src/expert_network/fetch_partition.py:241-251 | a block written at its offset changes no other block, not the header and not the size |
| FetchPartition.WriterAgrees | src/mlx_expert_sniper/download.py:211-232 | a layer file of the block writer has the size and the blocks expected at these offsets |
| FetchPartition.BodyKeepsTheRest | src/expert_network/fetch_partition.py:241-251 | writing a body at an expert's offset leaves the rest of every full-size file alone if and only if it is no longer than a block |
| FetchPartition.LongBodySpills | src/expert_network/fetch_partition.py:241-251 | the excess of a longer body is at the start of the next expert's block |
| FetchPartition.LastBodyExtends | src/expert_network/fetch_partition.py:241-251 | the excess of the last block makes the file longer |
| FetchPartition.PartitionFetcher.AcceptedIsPublished | src/expert_network/fetch_partition.py:152-156 | whatever peers send, only the published block is accepted if and only if the manifest has a hash for it |
| FetchPartition.PeerRanker.Record | src/expert_network/fetch_partition.py:100-105 | the speed estimate starts at the first measurement, then is seven parts the old value and three parts the new, so it lies between them; no other estimate changes |
| FetchPartition.PeerRanker.Penalize | src/expert_network/fetch_partition.py:107-109 | a failure halves the estimate |
| FetchPartition.PeerRanker.Order | src/expert_network/fetch_partition.py:111-129 | the dispatch order is a permutation of the peers, drawn with positive weights once a speed is known |
| FetchPartition.PeerRanker.Weight | src/expert_network/fetch_partition.py:122 | a peer weighs its speed but at least a tenth of the fastest, and never more than the fastest |
| FetchPartition.CreditAdds | src/expert_network/fetch_partition.py:195-197 | a credit raises the sum of all credits by its amount |
| FetchPartition.PartitionFetcher.FetchBlock | src/expert_network/fetch_partition.py:140-163 | at most three requests, which go round one permutation of the peers; all before the last brought nothing, so with at most three peers one that delivers is always found; for a block with a published hash only the published block is returned, whatever peers send; one without a hash is the first answer; giving up takes three failures or no peers; speeds are those of the attempts made |
| FetchPartition.PartitionFetcher.TakeTurns | src/expert_network/fetch_partition.py:148-162 | each attempt goes to the next peer in the order and is ranked by what it brought |
| FetchPartition.PartitionFetcher.SomebodyDelivers | src/expert_network/fetch_partition.py:148-163 | with at most three peers, all attempts fail only if no peer delivers |
| FetchPartition.PartitionFetcher.PullBlock | src/expert_network/fetch_partition.py:245-253 | what was fetched is written at the expert's offset whatever its length, counted, and credited to the peer it came from; a protected block is the published one |
| FetchPartition.PartitionFetcher.Check | src/expert_network/fetch_partition.py:166-177 | a block is skipped only if it is on disk as published, and a complete layer needs nothing |
| FetchPartition.PartitionFetcher.Probe | src/expert_network/fetch_partition.py:225-240 | every peer is asked once, exactly the peers that delivered are credited with what they delivered, each is ranked by this one answer, and the last copy is used |
| FetchPartition.PartitionFetcher.LastCopyIsLast | src/expert_network/fetch_partition.py:234-239 | there is a copy if and only if some peer delivered, and it is from the last one that did |
| FetchPartition.PartitionFetcher.FetchLayer | src/expert_network/fetch_partition.py:200-253 | success or not, only owned blocks change and only to the published ones; on success all are complete and accounted for |
| FetchPartition.PartitionFetcher.Run | src/expert_network/fetch_partition.py:180-261 | a normal return leaves every owned block as published, and with at most three peers of which one is reliable the return is normal; no run touches another machine's block; fetched + skipped = owned × layers; bytes = sum of credits = block size × (blocks written + surplus copies of the one probe); requests are the probe's and at most three a block; a run on an installed partition fetches nothing and asks nobody |
| HfReader.HolesAreSeen | src/expert_network/hf_reader.py:82-85 | a zero block at least as long as the probe is recognised as a hole |
| HfReader.ProbeTells | src/expert_network/hf_reader.py:82-85 | in every file of the expected size a zero block is recognised as a hole, if and only if blocks are empty, at least as long as the probe, or the block is the last |
| HfReader.FreshDownloadIsTrustworthy | src/expert_network/hf_reader.py:72-86 | after a download into an empty directory every block read locally without a manifest is the published one, owned or not |
| HfReader.ManifestDecides | src/expert_network/hf_reader.py:80-86 | with a manifest a block is read locally if and only if it is listed and its layer file exists |
| HfReader.ProbeDecides | src/expert_network/hf_reader.py:82-86 | without one, if and only if the layer file exists and one of the 4096 bytes at its place is not zero |
| HfReader.ManifestIsTrustworthy | src/expert_network/hf_reader.py:80-86 | after a download, with a manifest of what this machine owns, exactly the owned blocks are read locally, each as published |
| HfReader.HFExpertReader.RawIsPublished | src/expert_network/hf_reader.py:89-101 | with such files and the published checkpoint whatever is read, local or remote, is the published block |
| HfReader.HFExpertReader.PrefetchExperts | src/expert_network/hf_reader.py:104-109 | the requested ids are launched in order, leaving out what is cached or in flight, each once |
| HfReader.HFExpertReader.FetchOne | src/expert_network/hf_reader.py:123-134 | a missing expert is the parse of its block, is cached, and is counted once as local or remote |
| HfReader.HFExpertReader.GetExperts | src/expert_network/hf_reader.py:114-145 | every expert is its own parse, of the published block when files and checkpoint hold the model; lookups come first, each missing expert is stored and counted once, leftovers that did not fail are cached, in-flight experts stay uncached, and cache and counters are exactly what that makes of them; a read is submitted for each lookup that finds nothing cached or in flight |
| HfReader.LeftoversOnly | src/expert_network/hf_reader.py:136-142 | only prefetches nobody asked for that did not fail enter the cache that way, and all of them while there is room |
| HfReader.SubmittedOnce | src/expert_network/hf_reader.py:118-124 | at least one read is submitted per missing expert that is not in flight, and exactly one if and only if no such id is repeated |
| ExpertCache.StepKeepsInclusion | src/mlx_expert_sniper/expert_io.py:189-225 | each operation keeps a smaller cache a subsequence, in recency order, of a larger one |
| ExpertCache.RunKeepsInclusion | src/mlx_expert_sniper/expert_io.py:189-225 | so does every sequence of operations |
| ExpertCache.HitsGrowWithCapacity | src/mlx_expert_sniper/expert_io.py:189-225 | hits never decrease with capacity |
| ExpertCache.LRUExpertCache.Get | src/mlx_expert_sniper/expert_io.py:189-197 | a lookup is the specified step and keeps the per-layer index a mirror of the map |
| ExpertCache.LRUExpertCache.Put | src/mlx_expert_sniper/expert_io.py:199-210 | a store is the specified step: newest, evicting at most the oldest, index mirrored |
| ExpertCache.LRUExpertCache.Contains | src/mlx_expert_sniper/expert_io.py:212-215 | a probe answers membership and changes neither order nor counters |
| ExpertCache.LRUExpertCache.Peek | src/mlx_expert_sniper/expert_io.py:217-220 | likewise for the value |
| ExpertCache.LRUExpertCache.CachedIds | src/mlx_expert_sniper/expert_io.py:222-225 | the index lists exactly the cached experts of a layer |
| ExpertReader.MoEExpertReader.PrefetchExperts | src/mlx_expert_sniper/expert_io.py:364-376 | the requested ids are launched in order after those in flight, leaving out what is cached or in flight |
| ExpertReader.LaunchedOnce | src/mlx_expert_sniper/expert_io.py:370-376 | launching keeps what was in flight, adds exactly the ids neither cached nor in flight, and launches nothing twice |
| ExpertReader.MoEExpertReader.ResetPrefetch | src/mlx_expert_sniper/expert_io.py:378-383 | all prefetches are dropped and every invariant stays |
| ExpertReader.MoEExpertReader.Load | src/mlx_expert_sniper/expert_io.py:455-500 | an uncached expert comes from victim buffer, prefetch or disk, is its own block's parse, and ends in the cache and not in the victim buffer |
| ExpertReader.MoEExpertReader.Park | src/mlx_expert_sniper/expert_io.py:511-515 | a leftover enters the victim buffer as its newest entry, within the cap, never the cache |
| ExpertReader.MoEExpertReader.GetExperts | src/mlx_expert_sniper/expert_io.py:420-532 | each expert is the parse of its on-disk block; cache and victim buffer stay disjoint, pending prefetches uncached, the buffer within its cap, reads = cache + victim + prefetch + direct; the new state is what the requests and leftovers make of it |
| ExpertReader.RequestedIsNewest | src/mlx_expert_sniper/expert_io.py:446-500 | a requested expert is the newest cache entry wherever it came from, and is counted once |
| ExpertReader.RequestIsCounted | src/mlx_expert_sniper/expert_io.py:446-500 | a request is answered by the cache, else the victim buffer, else a prefetch, else the disk, and counted there; a used victim leaves its buffer |
| ExpertReader.ParkedAreLeftovers | src/mlx_expert_sniper/expert_io.py:502-520 | only finished reads nobody asked for enter the victim buffer, each with its own content |
| ExpertReader.LeftoversAreParked | src/mlx_expert_sniper/expert_io.py:502-520 | while there is room all of them do and no victim leaves |
| ExpertReader.AppendThenTrim | src/mlx_expert_sniper/expert_io.py:512-515 | appending and trimming the front is a store that evicts first |
| ByteCache.AlignUpIsLeast | llama-cpp/patches/src/llama-expert-cache.cpp:30-32 | rounding up gives the least 4096-multiple not below its argument if and only if the addition does not wrap |
| ByteCache.EvictionKeepsPrefix | llama-cpp/patches/src/llama-expert-cache.cpp:111-125 | eviction leaves a prefix of the recency list with its entries, list, map and byte count in agreement |
| ByteCache.EvictionKeepsLongestPrefix | llama-cpp/patches/src/llama-expert-cache.cpp:111-125 | and it is the longest prefix that leaves room |
| ByteCache.RequestKeepsValid | llama-cpp/patches/src/llama-expert-cache.cpp:127-207 | a request keeps list, map and count in agreement, within budget but for a single oversized entry, and alters no other slab |
| ByteCache.ExpertByteCache.EvictUntilFree | llama-cpp/patches/src/llama-expert-cache.cpp:111-125 | the eviction loop is the specified eviction and counts what it evicts |
| ByteCache.ExpertByteCache.GetOrAlloc | llama-cpp/patches/src/llama-expert-cache.cpp:171-207 | hit, miss or refusal as specified, with the counters |
| ByteCache.ExpertByteCache.Ensure | llama-cpp/patches/src/llama-expert-cache.cpp:127-169 | what it returns holds the expert's bytes from disk and is the newest entry |
| ByteCache.ExpertByteCache.Touch | llama-cpp/patches/src/llama-expert-cache.cpp:209-217 | a cached key moves to the front, an unknown one changes nothing |
| ActiveBuffer.SlotHoldsItsExpert | llama-cpp/patches/src/llama-expert-cache-ctx.cpp:101-129 | slot c is the slice of the id with c known ids before it |
| ActiveBuffer.ExpertCacheContext.Source | llama-cpp/patches/src/llama-expert-cache-ctx.cpp:108-126 | hit, miss or no cache, the bytes are the expert's slice of the tensor |
| ActiveBuffer.ExpertCacheContext.BuildActiveBuffer | llama-cpp/patches/src/llama-expert-cache-ctx.cpp:90-133 | the buffer starts with the slices of the known ids in order and is otherwise unchanged, for every cache state and allocator; unknown ids are skipped |
| BlockFormat.PaddingIsMinimal | src/expert_network/hf_source.py:189 | padding is the least that reaches a page boundary |
| BlockFormat.ExpertLayout | src/expert_network/hf_source.py:175-191 | each tensor's place starts where the ones before it end |
| BlockFormat.LayoutIsContiguous | src/mlx_expert_sniper/download.py:200-209 | places fill the payload without gaps or overlaps and lie inside the block |
| BlockFormat.ParseRecovers | src/expert_network/node.py:39-53 | parsing a block gives back the expert's slice of every tensor: its own group of that tensor's bytes per expert |
| BlockFormat.WriteLayer | src/mlx_expert_sniper/download.py:190-247 | a layer file is the header page followed by every expert's block, or the file of the expected size that was there; the re-read of any sample of experts fails exactly when one of them is not where readers look, and never when the header fits its page |
| BlockFormat.WrittenLayerIsReadable | src/mlx_expert_sniper/download.py:211-232 | the file has the size and the blocks its readers expect if and only if the header fits its page |
| BlockFormat.FetchExpertBlock | src/expert_network/hf_source.py:193-205 | assembling byte ranges of the checkpoint gives the same block the layer writer writes |
| Preprocess.CountTells | src/mlx_expert_sniper/download.py:368-373 | counting a layer's tensors tells whether it is complete |
| Preprocess.FoundIsOwn | src/mlx_expert_sniper/download.py:404-417 | a tensor keeps the value of the one shard that has it |
| Preprocess.Preprocessor.Ingest | src/mlx_expert_sniper/download.py:404-417 | every tensor of a shard becomes pending, an n-gram file or pinned |
| Preprocess.Preprocessor.FlushLayers | src/mlx_expert_sniper/download.py:363-381 | exactly the complete layers are finished, each written once with its own tensors |
| Preprocess.Preprocessor.CarryOver | src/mlx_expert_sniper/download.py:427-445 | pending tensors keep their values and end in the carry file that was not being read, which is then the only one on disk |
| Preprocess.Preprocessor.ProcessShard | src/mlx_expert_sniper/download.py:404-451 | nothing still needed lives in a file when it is overwritten or deleted, and the next shard finds everything in order |
| Preprocess.Preprocessor.MergePinned | src/mlx_expert_sniper/download.py:458-464 | the merged file holds every pinned tensor of every shard |
| Preprocess.Preprocessor.Run | src/mlx_expert_sniper/download.py:383-470 | from a clean directory: every complete layer is written once with its own tensors and no other, every pinned key survives the merge, every n-gram tensor is saved, the shards are deleted or left intact as asked, and no carry or part file is left |

## Left out

- HTTP, retries, redirects, the servers, the command line and the agent pages: plumbing. Peers and nodes are oracles.
- MLX numerics (quantised matmul, softmax, normalisation, rotary position, gated delta nets): parameters. Scores of the sparse selector are integers, of which only the order is used; NaN scores are not modelled.
- `fetch_from_hf`, `parse_partition`, `write_config`, manifests and headers as JSON: a header is a byte string.
- The one-bit fallback buffer and its backfill threads: a backfill may enter the cache at any time, so the cache and the victim buffer need not stay disjoint.
- Resuming an interrupted preprocessing run, and `_stack_experts`: a run starts from a clean directory with experts stacked per shard.
- Timings, throughput, byte counters of the readers.
- Routing bias above zero, engines without KV trimming, the vocabulary check of draft models; remote and DFlash drafters are covered as oracles only.
- The batch dimension of `ngram_ids` and `_short_conv`: one row, one channel.
- Speculation.SpecGenerateStream: the prompt is not empty and k is not negative; the code indexes `context[-1]`.
- SparseAttention.Indexer.RowIsSelection: takes the argsort to be stable; `mx.argsort` does not promise it. `AnySortKeepsBest` says exactly when that makes no difference.
- HotCache.DistributedReader.ComputeDistributed: nodes keep their partitions and answer compute requests; a failed request raises in the code. Other callers of the reader may warm experts at any time, so more can be learned than by one caller's own fetches. Eviction is any loss of entries at a store, a superset of LRU. Hit and byte counters are not modelled.
- Batches.BatchSumsToWhole: one output coordinate per token, which is how the sum is taken, over exact reals.
- ExpertReader.MoEExpertReader.GetExperts: an awaited prefetch or a direct read that raises is not modelled; a failed leftover is.
- FetchPartition.PartitionFetcher.Run: assumes owned ids below the number of experts, a header of at most one page, distinct peer ids, a published hash for every owned block and no other data with that hash. Reading the local file does not fail. Requests of the thread pool are taken one after another; their answers are arbitrary. A file of another size is truncated, as in the code.
- HfReader.HFExpertReader.GetExperts: a missing expert whose fetch raises is not modelled; a failed leftover is. Headers and descriptors are read once and kept, which is not modelled.
- FetchPartition.PeerRanker.Order: the random generator and the draw probabilities are a parameter.
- Protocol.UnpackRequest: what an incomplete message decodes to is not stated; the code can return arrays of fewer dimensions when all are empty. NumPy's limit on the number of dimensions is not modelled.
- Protocol.RequestRoundTrip: an id that does not fit raises, as current NumPy does; old versions wrapped it.
- ActiveBuffer.ExpertCacheContext.BuildActiveBuffer: the buffer was allocated for at least as many ids as are passed, and strides are below 2^64 - 4096.
- ByteCache.ExpertByteCache.GetOrAlloc: the allocator cannot hold more than 2^64 bytes in all; a failed disk read counts as a refusal.
- BlockFormat.WriteLayer: tensors are byte strings of experts × bytes per expert; dtypes and shapes enter through that product.
- Preprocess.Preprocessor.Run: every tensor is in one shard and expert tensors have one of the nine names; layers of one flush are taken in any order, the code takes them in increasing order.
- Locks: the hot cache is modelled by atomic steps, everything else single-threaded.
