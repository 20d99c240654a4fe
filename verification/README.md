# A verified model of the vector index, its cache and its change log

This Dafny project models the parts of the repository that are hard to get right and proves what they
promise.  `dafny verify dfyconfig.toml` checks all of it.

- **The cover tree** (`internal/cover/tree`).  `CoverTree` has the nodes and the tree as heap objects that
  insertions change in place; a ghost map says which subtree each node denotes.  `CoverShape` says what an
  insertion does to that subtree as a function and proves what whole runs of insertions keep.  `TreeSearch`
  has the memoised radius and both nearest-neighbour searches, proved against the index-free specification
  in `Nearest`; `PriorityQueue` and `Sorting` are the heap and the sort they use; `TreeWalk` is `ForEach`;
  `Exactness` says when the searches are exact, and `LevelBound` when they are under the level bound.
  `TreeCodec` is the byte format as a printer and a parser, `TreeStore` the methods that write and read
  heap trees.
- **The two indexes** (`index/bruteforce`, `index/cover`).  `BruteForce` and `BruteCodec` are the linear scan
  and its format, `CoverIndex` and `CoverBlob` the cover index and its format.  `Vectors` has the inner
  products, Cauchy-Schwarz and the Euclidean metric; `Wire` the machine words; `Bags` permutations.
- **The stored and cached indexes** (`vec`, `vecadmin`).  `Persisted` says what a blob holds, `Storage` is the
  sequential machine of row changes, triggers, MATCH, Search, reindex, invalidation and restart, and
  `EnsureIndex` the method behind MATCH.  `Names` has the shadow names and cache keys.
- **The cache protocol** (`vec/api.go`, `vec/search.go`).  `CacheEntry` has the entry and the table of entries
  as classes; `CacheProtocol` interleaves any number of Search calls, builders and writers one critical
  section at a time, for safety, and `CacheProgress` says what its calls reach.  `BlobPath` adds the
  persisted-blob path to it.  `BuildLease` is the lock row shared between processes.
- **The change log** (`vecsync`).  `ChangeLog` is what the emitted SQLite triggers do, and replay.

Numbers: distances, norms and scores are exact reals, and a float32 that is stored or transmitted is its
IEEE 754 binary32 bit pattern.  The vector library is a parameter (`CoverTree.Library`), with what is
assumed of it written as a hypothesis (`CosineLibrary`, `EuclideanIsL2`, `IsSqrt`) of the lemmas that need it.

Where the code and the documentation disagree the model follows the code.  The documentation says no
manual step is needed to keep persisted indexes fresh (`README.md:314-316`), but the triggers are made by
the first MATCH, and a blob stored by a reindex stays right through later writes exactly when they are
installed (`Storage.ReindexSurvivesIff`).  It says the trigger builders set the row's `scn`
(`docs/INGESTION.md:101-105`); they allocate and log a number but leave the row's own column alone, so the
payload repeats the number exactly when the writer put it there (`ChangeLog.PayloadsNumberedIff`).

## Model

| member | source | states |
|---|---|---|
| CoverTree.Tree.constructor | internal/cover/tree/tree.go:40-56 | a base of at most 1 becomes 1.3; the new tree is valid, empty and prunes by per-node radius |
| CoverTree.Tree.Insert | internal/cover/tree/tree.go:69-88 | next dense index, value appended, point recorded under its index, exactly one new node, new version; the tree denotes `Inserted` of the old one and stays valid (links, conservation, memo, levels) |
| CoverTree.Tree.FindPlace | internal/cover/tree/tree.go:150-189 | the loop over pointers with its moving level ends, on every tree and distance, where the recursive `Place` ends, and the baseLevel it tracks by division and multiplication is the exact power |
| CoverTree.Tree.Turn | internal/cover/tree/tree.go:154-188 | one turn of the loop keeps the place it is heading for and lowers the pair (subtree, levels left to climb) unless it stops |
| CoverTree.Tree.AppendChild | internal/cover/tree/tree.go:168-176 | writing through the pointer to one deep node changes what every ancestor denotes to the grafted subtree and nothing else |
| CoverTree.Tree.WrapRoot | internal/cover/tree/tree.go:179-185 | the new root's only child is the whole old tree, unchanged |
| CoverTree.Tree.FirstNearChild | internal/cover/tree/tree.go:160-168 | the first child in order closer than the radius, or none |
| CoverTree.Tree.Put | internal/cover/tree/values.go:12-18 | dense index allocation: the new point is none of the stored ones and the index map covers exactly the allocated indices |
| CoverTree.StampedMagnitude | internal/cover/tree/tree.go:78-80 | a given magnitude is kept, a missing one is filled in from the vector |
| CoverShape.InsertedContents | internal/cover/tree/tree.go:150-189 | an insertion adds exactly the new point to the multiset of stored points, whether it attaches deep or wraps the root |
| CoverShape.GrownContents | internal/cover/tree/tree.go:69-88 | after any sequence of insertions the tree holds exactly the inserted points, each once |
| CoverShape.GrownLevelsAndSpread | internal/cover/tree/tree.go:150-189 | over whole runs baseLevel = base^level at every node, and each later sibling lies within base^(level+1) of its parent and at least that far from its elder siblings |
| CoverShape.PlaceParentIsStored | internal/cover/tree/tree.go:154-176 | the node a point is attached to is in the tree |
| CoverShape.PlaceSpread | internal/cover/tree/tree.go:154-176 | attaching where the loop stops keeps the separation of siblings everywhere in the tree |
| CoverShape.InsertedUnderRoot | internal/cover/tree/tree.go:150-177 | the least level from 0 on (never from the root's own) whose ball around the root holds the point decides: with no child of the root in that ball around the point, the point becomes the root's last child, one level below |
| CoverShape.InsertedAboveRoot | internal/cover/tree/tree.go:178-187 | a point outside every ball of the root from level 0 to the root's own becomes the new root, one level up, above the unchanged old tree |
| CoverShape.GraftContents | internal/cover/tree/tree.go:170-176 | attaching below a node adds the new leaf exactly once |
| TreeWalk.ForEach | internal/cover/tree/tree.go:126-148 | visits every stored point exactly once, in preorder, with its value |
| TreeWalk.WalkSkipsNothing | internal/cover/tree/tree.go:132-147 | although a seen index makes the walk skip a whole subtree, with unique indices the walk is the preorder |
| TreeSearch.EnsureRadius | internal/cover/tree/tree.go:302-326 | whatever is memoised, the answer is the uncached recursive radius, and only radii and stamps change |
| TreeSearch.BoundRadius | internal/cover/tree/tree.go:330-342 | the bound of the chosen strategy, whatever is memoised: the longest way down (`CoverShape.RadiusIff`) or the geometric bound (`LevelBound.LevelRadiusSteps`) |
| CoverShape.RadiusCoversDescendants | internal/cover/tree/tree.go:302-326 | under the triangle inequality the radius bounds the distance from a node to every descendant |
| CoverShape.RadiusIff | internal/cover/tree/tree.go:302-326 | the radius is the length of the longest way down from the node: an upper bound of all ways that one of them attains |
| LevelBound.LevelRadiusSteps | internal/cover/tree/tree.go:330-335 | the level bound is the geometric series of the levels below: the node's baseLevel and then the bound one level down |
| LevelBound.NoBaseNoPruning | internal/cover/tree/tree.go:331-333 | with a base of at most 1 no lower bound is positive, as long as distances are float32 numbers |
| LevelBound.LevelBoundReaches | internal/cover/tree/tree.go:330-335 | where every child is one level below its parent and within the parent's baseLevel, the level bound of a node reaches every descendant, under the triangle inequality |
| LevelBound.PlaceNested | internal/cover/tree/tree.go:154-177 | an insertion that attaches keeps that shape everywhere in the tree |
| LevelBound.GrownNested | internal/cover/tree/tree.go:69-88 | every run of insertions none of which makes a new root after the first has that shape |
| LevelBound.LevelBoundIsExact | internal/cover/tree/tree.go:192-299 | over a metric, searches of such a tree by the level bound are exact for every query |
| LevelBound.BuiltLevelIndexIsExact | index/cover/index.go:133-162 | a Euclidean index with the level bound, no insertion of which made a new root, answers every Query(q, k) with the min(k, n) nearest |
| Exactness.SoundBoundsIff | internal/cover/tree/tree.go:238-293 | over a metric with zero self-distance, the bounds are sound for every query if and only if every node's bound reaches every point below it |
| CoverShape.LowerBound | internal/cover/tree/tree.go:266-293 | under a metric, distance to the node minus its radius is below the distance to everything under it |
| TreeSearch.BestFirst | internal/cover/tree/tree.go:249-299 | terminates with min(k, n) distinct stored points, nearest first, for any distance and either bound; when the bounds are sound, as under a metric with radius bounds, no point left out is closer than any returned; with k = 1 a root that prunes all its children is the answer |
| TreeSearch.DepthFirst | internal/cover/tree/tree.go:192-246 | the same contract for the depth-first search and every k |
| TreeSearch.Round | internal/cover/tree/tree.go:268-291 | one round keeps the partition of the points into offered, pruned and waiting below the queue, and ends or makes progress |
| TreeSearch.Offer | internal/cover/tree/tree.go:277-282 | filling or replacing keeps the k nearest of the points seen so far |
| TreeSearch.PruneQueue | internal/cover/tree/tree.go:273-276 | stopping at a bound that is no better than the worst neighbour discards no point that belongs in the answer |
| TreeSearch.PruneSubtree | internal/cover/tree/tree.go:238-243 | skipping a child whose bound is no better than the worst neighbour discards none either |
| TreeSearch.Drain | internal/cover/tree/tree.go:294-299 | emptying the max-heap from the back gives the same neighbours in ascending order |
| Nearest.SameDistances | internal/cover/tree/tree.go:192-299 | an exact answer is unique up to ties: any two have the same distances position by position |
| Nearest.FullListing | internal/cover/tree/tree.go:268-299 | with k >= n every stored point is listed exactly as often as it is stored, for every distance function |
| Exactness.SearchesAgree | internal/cover/tree/tree.go:192-299 | depth-first and best-first search return the same distance sequence |
| Exactness.EuclideanIsMetric | internal/cover/tree/distance.go:44-46 | the Euclidean formula is symmetric and triangular among points of one dimension |
| Exactness.EuclideanSearchIsExact | internal/cover/tree/tree.go:249-299 | a Euclidean tree with per-node bounds meets the hypothesis of exact search for every query of its dimension |
| Exactness.BuiltEuclideanIndexIsExact | index/cover/index.go:133-162 | an index as Build leaves it, Euclidean with per-node bounds, answers every Query(q, k) with the min(k, n) nearest |
| Exactness.ScoresKeepOrderIff | index/cover/index.go:159-160 | a nearer distance is reported with a higher score if and only if it is below 2; from 2 on all report -1 |
| Exactness.RootAloneIsExactIff | internal/cover/tree/tree.go:268-299 | answering the root alone is exact if and only if no stored point is closer |
| Exactness.AttachThenWrap | internal/cover/tree/tree.go:150-189 | the tree of three insertions of which the second lands near the first and the third is far from it |
| Exactness.WrapTwice | internal/cover/tree/tree.go:179-185 | the tree of three insertions that each wrap what was there, however far away it is |
| Exactness.CosineQueryMissesNearest | index/cover/index.go:133-162 | a run of Build and Query(q, 1) with the cosine distance and per-node bounds that answers a vector of score 0.6 although a stored one scores higher |
| Exactness.LevelQueryMissesNearest | internal/cover/tree/tree.go:330-342 | a run with Euclidean distance and the level bound that answers a point at distance 1 although the query is itself stored |
| PriorityQueue.Push | internal/cover/tree/neighbor.go:12-18 | the array heap with one more element |
| PriorityQueue.Pop | internal/cover/tree/neighbor.go:20-26 | returns a least element (the farthest neighbour, or the nearest bound) and leaves a heap of the rest |
| PriorityQueue.RootIsLeast | internal/cover/tree/tree.go:543-545 | heap order puts the extreme element at index 0, which both searches read |
| Sorting.Sort | internal/cover/tree/tree.go:234-234 | sorted by the key and a permutation |
| TreeCodec.NodeRoundTrip | internal/cover/tree/tree.go:412-481 | decoding an encoded node followed by any bytes gives the node and exactly those bytes, if and only if its numbers fit the fields |
| TreeCodec.NodeCanonical | internal/cover/tree/tree.go:438-481 | every byte string the node parser accepts is the encoding of what it returns |
| TreeCodec.TreeRoundTrip | internal/cover/tree/tree.go:345-410 | the same if-and-only-if for the whole stream with base, metric name and root flag |
| TreeStore.EncodeNode | internal/cover/tree/tree.go:412-436 | what is written for a heap node is the encoding of the subtree it denotes |
| TreeStore.EncodeBinary | internal/cover/tree/tree.go:345-365 | the same for the whole tree |
| TreeStore.DecodeNode | internal/cover/tree/tree.go:438-481 | succeeds exactly when the parser does; builds fresh nodes that denote the parsed subtree with indices numbered in preorder, and stores exactly its values |
| TreeStore.DecodeBinary | internal/cover/tree/tree.go:368-410 | leaves exactly the rest unread and makes the tree the one described, valid again, with stale memos impossible |
| TreeStore.RebuildStrip | internal/cover/tree/tree.go:412-481 | rebuilding a stripped tree restores every level, baseLevel, point and child, with points renumbered in preorder |
| TreeStore.RebuiltNumbers | internal/cover/tree/values.go:12-18 | decoded points are numbered consecutively in preorder |
| TreeStore.RebuiltLevels | internal/cover/tree/node.go:16-22 | recomputing base^level on decode gives every node its exact baseLevel |
| TreeStore.RenumberedPreorder | internal/cover/tree/tree.go:126-148 | the walk of the restored tree meets the same points in the same order |
| TreeStore.StrippedValues | internal/cover/tree/tree.go:420-423 | values come back in the order in which the walk met them |
| TreeStore.MetricOfIff | internal/cover/tree/tree.go:378-388 | a tree is read as Euclidean if and only if its blob says "euclidean"; each metric's own name reads back as it |
| Wire.U32RoundTrip | internal/cover/tree/tree.go:515-515 | a 32-bit pattern survives its little-endian form |
| Wire.WordsRoundTrip | internal/cover/tree/tree.go:509-533 | so does a vector of patterns |
| Vectors.CosineSimilarity | vector/distance.go:11-30 | fails exactly on unequal, empty or zero vectors; otherwise the cosine, which lies in [-1, 1] |
| Vectors.L2Distance | vector/distance.go:34-44 | fails exactly on unequal lengths; otherwise the Euclidean distance |
| Vectors.CauchySchwarz | vector/distance.go:19-26 | for the sums the loop accumulates, in any dimension |
| Vectors.CosineInRange | index/bruteforce/brute.go:65-65 | every score lies in [-1, 1] |
| Vectors.L2Triangle | vector/distance.go:38-43 | triangle inequality |
| Vectors.L2Separates | vector/distance.go:38-43 | zero exactly for equal vectors |
| Vectors.L2Symmetric | vector/distance.go:38-43 | symmetry |
| Vectors.L2OneMore | vector/distance.go:38-43 | one more coordinate adds the square of its difference to the square of the distance, from zero on |
| Vectors.LawOfCosines | vector/distance.go:19-29 | the two scores are tied by the law of cosines: squared distance, squared lengths and the cosine |
| Vectors.DotLoop | index/bruteforce/brute.go:158-164 | the accumulation loop is the inner product |
| BruteForce.Index.Build | index/bruteforce/brute.go:20-43 | fails, changing nothing, exactly on ragged input; otherwise holds the input with its norms |
| BruteForce.Index.Query | index/bruteforce/brute.go:46-83 | nothing, an error, or the k best of all non-zero items by cosine, best first, in every case of the code |
| BruteForce.Scan | index/bruteforce/brute.go:61-71 | scores exactly the items of non-zero norm |
| BruteForce.FirstAreBest | index/bruteforce/brute.go:72-83 | the first k after sorting are at least as good as all the others |
| BruteForce.BestOfAll | index/bruteforce/brute.go:73-75 | k <= 0, or k at least the number of hits, returns every hit |
| BruteForce.BestSize | index/bruteforce/brute.go:73-83 | an answer has exactly k hits for 1 <= k <= n and all n otherwise |
| BruteForce.HitsInRange | index/bruteforce/brute.go:65-65 | all scores lie in [-1, 1] |
| BruteCodec.IndexRoundTrip | index/bruteforce/brute.go:87-156 | reading a written index gives it back (or the empty index if it could answer nothing), exactly when its numbers fit |
| BruteCodec.QueryEquivalent | index/bruteforce/brute.go:46-156 | the reloaded index answers every query as the written one |
| BruteCodec.ParseItems | index/bruteforce/brute.go:121-155 | the cursor parser is in bounds on every byte string and computes the specified result |
| BruteCodec.ReadVector | index/bruteforce/brute.go:146-152 | the inner loop over the words, with its bounds check |
| BruteCodec.ReadId | index/bruteforce/brute.go:136-144 | one length-prefixed id, with its bounds checks |
| BruteCodec.Marshal | index/bruteforce/brute.go:87-117 | writes the specified encoding |
| BruteCodec.Unmarshal | index/bruteforce/brute.go:121-156 | accepts exactly the parseable strings and changes nothing otherwise |
| BruteCodec.BruteBlobIsNotCover | vec/api.go:1258-1260 | a linear-scan blob is taken for a cover blob exactly when its dimension (mod 2^32) spells "COV1" |
| BruteCodec.TwoItemsLayout | index/bruteforce/brute.go:107-116 | the bytes of a two-item index: little-endian dimension and count, then for each item its id with length and its words |
| CoverIndex.Index.Build | index/cover/index.go:86-130 | fails, changing nothing, exactly on ragged input; otherwise the tree grown by inserting the points in order, holding the ids and vectors |
| CoverIndex.Index.EnsureTree | index/cover/index.go:224-233 | defaults for base and metric, and an empty valid tree |
| CoverIndex.Index.Query | index/cover/index.go:133-162 | error and empty cases as coded; otherwise ids and clamped scores of a listing of min(k, n) stored points, exact under a metric |
| CoverIndex.CoverRefinesBruteForce | index/cover/index.go:133-162 | for cosine and no zero vector, a query for everything meets the linear scan's contract: same hits with multiplicity, descending, same errors |
| CoverIndex.BuiltIndexRefinesBruteForce | index/cover/index.go:86-162 | the same for an index as Build leaves it |
| CoverIndex.AgreementIff | index/bruteforce/brute.go:61-71 | the two indexes report the same hits if and only if no stored vector is zero |
| CoverIndex.ScoreReported | index/cover/index.go:305-313 | clamping is the identity on cosine scores |
| CoverIndex.AnswerSize | index/cover/index.go:144-162 | an answer over n stored points has exactly k hits for 1 <= k <= n and n otherwise, in descending order |
| CoverBlob.Marshal | index/cover/index.go:165-187 | the tree format, or the linear-scan format for an index never built |
| CoverBlob.Unmarshal | index/cover/index.go:190-222 | accepts exactly what the format's parser accepts, told apart by four bytes, and ends in a valid index of what was parsed |
| CoverBlob.RefreshCaches | index/cover/index.go:280-303 | the cached ids and vectors are those of the tree, in index order |
| CoverBlob.DecodeBruteData | index/cover/index.go:316-355 | in bounds on every byte string, same inputs accepted and same items found as the linear-scan parser |
| CoverBlob.CoverRoundTrip | index/cover/index.go:165-211 | a written blob is recognised as a cover blob and reads back exactly when its numbers fit |
| CoverBlob.ThreeNodesLayout | internal/cover/tree/tree.go:345-436 | the bytes of a cover blob with a root and two children: every field in its place, width and byte order, children in order |
| CoverBlob.LoadedIsSaved | index/cover/index.go:165-211 | the loaded tree is the saved one renumbered in preorder, and a query for everything reports the same ids and scores; an index built from no rows comes back empty |
| Persisted.BruteEncodes | vec/api.go:991-995 | what the linear-scan index writes loads as its rows |
| Persisted.CoverEncodes | vec/api.go:984-990 | what the cover index writes loads as its rows |
| EnsureIndex.LoadPersisted | vec/api.go:969-996 | reading a stored blob with the two real readers gives what the specification of a blob says, for every byte string |
| EnsureIndex.ScanRows | vec/api.go:1128-1154 | succeeds exactly when every embedding decodes and then lists each embedded row once, whatever the row order |
| EnsureIndex.ScannedIff | vec/api.go:1135-1151 | the scan lists an id with a non-empty vector v if and only if the row's blob is the encoding of v |
| EnsureIndex.EncodeEmbedding | vector/encoding.go:13-23 | writing each word at its offset gives the encoding, which decodes to the vector written |
| EnsureIndex.DecodeEmbedding | vector/encoding.go:27-41 | succeeds if and only if the length is a multiple of four, and then with the one vector whose encoding the blob is |
| Storage.EmbeddingRoundTrip | vector/encoding.go:13-42 | every encoded vector decodes to itself, and is an embedding for the index exactly when it is not empty |
| Storage.IndexedIff | vec/api.go:1135-1151 | an index over decodable rows has vector v under an id if and only if the row's blob is the encoding of v |
| EnsureIndex.AutoKindIff | vec/api.go:97-116 | "auto" (or no kind) is the cover tree if and only if there are at least 4000 documents of at least 64 dimensions, 16 for each dimension |
| EnsureIndex.BuildBlob | vec/api.go:1156-1175 | builds exactly rectangular input; the blob is in the format of the kind the options resolve to, with their metric and base, and loads as the rows unless a number does not fit its field |
| EnsureIndex.Process.EnsureIndex | vec/api.go:1052-1188 | the method does the MATCH step of the storage machine and answers with what the cache then holds; it writes a blob of the right kind exactly when it had to build |
| EnsureIndex.Process.BuildAndPublish | vec/api.go:1128-1188 | scan, build, write and publish, or an error that changes nothing |
| EnsureIndex.Process.Reindex | vecadmin/api.go:178-230 | the reindex step of the storage machine, always in the linear-scan format; reports the number of embedded rows |
| Storage.IndexesAgreeWithRows | vec/api.go:833-855 | in every sequential run with triggers installed, each stored blob loads as, and each cached index is, exactly the dataset's current embedded rows, each once |
| Storage.StepKeeps | vec/api.go:1052-1188 | each step (row change, MATCH, Search, reindex, invalidation, restart) keeps that agreement for all tables and datasets |
| Storage.WriteKeeps | vec/api.go:833-855 | an insert, update (also to another dataset) or delete drops what it makes stale and keeps the rest current |
| Storage.MatchKeeps | vec/api.go:1052-1188 | a MATCH keeps every table and dataset current, whether it hits, loads or builds |
| Storage.MatchAnswersFromRows | vec/api.go:1052-1188 | a MATCH over indexable rows leaves an index of exactly those rows in the cache |
| Storage.SearchAnswersFromRows | vec/api.go:1052-1188 | a read-only Search over indexable rows leaves an index of exactly those rows in the cache and stores nothing |
| Storage.BuiltBlobIsStored | vec/api.go:1176-1181 | a MATCH that builds stores its blob, and the first MATCH after a restart answers from it without writing |
| Storage.WriteChangesOneRow | vec/api.go:833-855 | a row change removes the old row, writes the new one and touches no other |
| Storage.WrittenIsIndexed | vec/api.go:1135-1151 | a row written with the encoding of v is in the next build with v |
| Storage.WriteSparesOtherBlobs | vec/api.go:836-855 | writes leave the blobs of other datasets and tables alone |
| Storage.WriteClearsIff | vec/api.go:833-868 | a write drops a cached index if and only if the triggers are installed, the table name is the same and the dataset is one of the old or new row (or one of those is empty); all others stay |
| Storage.InvalidateClearsIff | vec/api.go:342-368 | a manual invalidation drops exactly the cached indexes of that table name and dataset, and changes nothing else |
| Storage.ReindexSurvivesIff | vecadmin/api.go:178-230 | after a reindex of any indexable dataset the stored blob agrees with the rows through every later sequence of row changes if and only if the table's triggers are installed |
| Names.ShadowLeadsBack | vec/api.go:890-910 | invalidating by shadow name reaches the table's own keys if and only if the table is named and "._vec_" is not in the schema name (or, unqualified, in the table name) |
| Names.InvalidationReaches | vec/api.go:342-368 | then every database path's entry for the dataset is cleared, and every dataset's when none is named |
| Names.TargetsIff | vec/api.go:342-368 | for a well-named table and any bar-free key path and table, a key is cleared if and only if table and dataset are the ones named (any dataset when none is), or its dataset name itself reads like the table's key |
| Names.TargetsExactlyIff | vec/api.go:342-368 | with no bar in the key's dataset, if and only if table and dataset are the ones named |
| Names.BarredDatasetIsCleared | vec/api.go:342-368 | a bar in the dataset does matter: invalidating dataset d of table t clears the entry of a dataset named "t\|d" of every other table |
| Names.KeysSeparate | vec/api.go:307-309 | without '\|' in paths and table names, equal cache keys mean the same path, table and dataset |
| Names.KeyIsUnambiguousIff | vec/api.go:307-309 | a key is shared with no other bar-free path and table if and only if its own path and table have no bar |
| Names.SearchedTablesAreReached | vec/search.go:23-31 | every table name Search accepts is invalidated under the shadow name it reads |
| Names.ShadowsSeparate | vec/api.go:890-897 | distinct tables have distinct shadow names |
| CacheEntry.SharedEntry.Set | vec/api.go:265-272 | replaces the index; clearing it starts a new generation |
| CacheEntry.SharedEntry.Start | vec/api.go:289-298 | starts exactly when there is no index and no builder, with a fresh open channel |
| CacheEntry.SharedEntry.Finish | vec/api.go:300-305 | ends the build and closes its channel, which was open |
| CacheEntry.SharedEntry.PublishIn | vec/api.go:1182-1186 | stores the index only in the generation the build started in |
| CacheEntry.SharedCache.GetCacheEntry | vec/api.go:311-325 | one entry per key, new on first use |
| CacheEntry.SharedCache.InvalidateCache | vec/api.go:342-368 | clears exactly the targeted entries (which those are is `Names.TargetsIff`), counts them, and leaves every other entry as it was |
| CacheProtocol.StepKeeps | vec/api.go:1052-1188 | every critical section of every call, commit and invalidation keeps the invariant |
| CacheProtocol.MoverKeeps | vec/api.go:1082-1187 | the thread that moves keeps its own and the shared part of it |
| CacheProtocol.OtherKeeps | vec/api.go:1082-1187 | so does every other thread |
| CacheProtocol.CacheMissesOnlyPendingWrites | vec/api.go:265-272 | in every reachable state a cached index misses only writes whose invalidation is pending |
| CacheProtocol.SearchSeesSettledWrites | vec/search.go:16-33 | whatever a Search returns has every write invalidated before it started, and nothing uncommitted; that it returns is `CacheProgress.SearchEnds` and `CacheProgress.BuilderReturns` |
| CacheProtocol.SearchAfterInvalidation | vec/search.go:16-18 | a Search started after an invalidation returned sees the writes it was for, in every interleaving |
| CacheProtocol.SingleFlight | vec/api.go:289-298 | at most one builder per entry in every reachable state |
| CacheProtocol.ClosedOnce | vec/api.go:300-305 | a builder's channel is open until it closes it: no channel is closed twice |
| CacheProtocol.WaiterIsServed | vec/api.go:274-287 | every blocked waiter holds a closed channel or the open channel of a live builder |
| CacheProtocol.BuilderWakesWaiters | vec/api.go:300-305 | whatever else happens, a bounded number of the builder's own steps closes the channel |
| CacheProgress.OnlyOwnFailures | vec/api.go:1082-1187 | in every run from any state, a call none of whose own steps failed has not failed and is not about to |
| CacheProgress.BuilderReturns | vec/api.go:1098-1187 | a builder whose steps do not fail returns an index after at most five of them, whatever else happens |
| CacheProgress.PublishCachesIff | vec/api.go:1182-1187 | publishing stores the version read if and only if the generation is still the one stamped; the builder answers with it either way |
| CacheProgress.ReachedFromStart | vec/api.go:289-298 | in every state of every run nothing is cached while a builder has not published |
| CacheProgress.BuildIsCached | vec/api.go:1120-1187 | a build that meets no invalidation and no failure returns at least everything committed when it stamped the generation, and leaves it cached |
| CacheProgress.CachedUntilInvalidated | vec/api.go:265-305 | a cached index stays cached, and is not replaced, until an invalidation |
| CacheProgress.SearchEnds | vec/api.go:1068-1187 | from every state of every run in which nobody builds, a call left alone ends within nine steps (two when a new call finds an index) with the cached version, or else with all that is committed, which is then cached |
| CacheProgress.WriteThenSearch | vec/search.go:16-18 | after any run, a Search started after a new write was invalidated and left alone answers with an index that has it |
| CacheProgress.CommitsCount | vec/search.go:16-18 | versions count the commits, and a write is pending until an invalidation that is for it |
| BlobPath.UnguardedRunGoesWrong | vec/api.go:1075-1080 | a run of the code: read a blob, commit, invalidate, set the blob; the cached index misses a settled write |
| BlobPath.SetBlobKeepsIff | vec/api.go:337-339 | in every state, setting a blob keeps the cache correct if and only if no settled write is newer than the blob |
| BlobPath.LoadsKept | vec/api.go:969-996 | every step keeps: a blob that was current when read still is while the generation is unchanged |
| BlobPath.GuardedRunsKeep | vec/api.go:1182-1186 | with the generation guard of the other path, any interleaving with blob loads and sets keeps the whole protocol invariant |
| BuildLease.LockTable.TryAcquire | vec/api.go:1010-1042 | an empty row becomes the caller's, dated with its clock; another's row is taken over if and only if it is at least 120 seconds old; its own row stays as it is |
| BuildLease.LockTable.Unlock | vec/api.go:1043-1045 | the row is gone if and only if it was the caller's, and otherwise as before |
| BuildLease.MutualExclusion | vec/api.go:1005-1049 | in no run do two processes hold the lease with recorded times that are both not stale (what is recorded is `BuildLease.LeaseKeepsOthersOut`) |
| BuildLease.NoTakeoverWhileFresh | vec/api.go:1028-1037 | while a holder's recorded time is not stale no other process acquires |
| BuildLease.LeaseKeepsOthersOut | vec/api.go:1010-1049 | in every run, a process that read the clock at c and then acquired a row that was not its own holds the lease dated c, and until c + 120 no other process acquires unless it unlocks |
| BuildLease.RenewedIff | vec/api.go:1015-1042 | an acquisition dates from the sampled time if and only if the row was not the process's own from before |
| BuildLease.LeftRowAdmitsTwo | vec/api.go:1040-1045 | a run in which an unlock failed and two minutes later the old owner and another process both hold the lease |
| BuildLease.UnlockFrees | vec/api.go:1043-1045 | after an unlock that succeeds, whoever tries next acquires at once, dated then |
| BuildLease.UnlockSparesOthers | vec/api.go:1043-1045 | a superseded holder's unlock never removes the new owner's row |
| BuildLease.TakeoverIff | vec/api.go:1005-1042 | from any reachable state, waiting and then trying acquires the lease if and only if there is no row, or it is the process's own, or it is stale by the end of the wait |
| BuildLease.LeaseExpires | vec/api.go:998-1042 | no crashed holder or failed unlock keeps others out for longer than the stale age |
| BuildLease.StepKeeps | vec/api.go:1005-1049 | every step keeps: a holder whose time is not stale owns the row with that time |
| ChangeLog.LogGapFree | vecsync/logging.go:82-86 | after any statements on any tables each dataset's numbers are exactly 1..n, each on one entry |
| ChangeLog.ChangeGapFree | vecsync/logging.go:91-132 | and the trigger never meets a taken log key |
| ChangeLog.LoggedAs | vecsync/logging.go:91-132 | each change is logged under the next number: as an insert if and only if there was no such row, as a delete (with the old row) if and only if there is none after, else as an update with the new row |
| ChangeLog.ReplayFollows | vecsync/logging.go:91-132 | replaying what was logged since any state turns that state's slice into the current one |
| ChangeLog.ReplayFromCheckpoint | docs/INGESTION.md:145-148 | from any checkpoint the replica ends with the current rows of its slice |
| ChangeLog.ChangeReplays | vecsync/logging.go:91-132 | one key-preserving change and its entry have the same effect on every slice |
| ChangeLog.MoveReplaysIff | vecsync/logging.go:105-118 | an update replays on its own dataset if and only if it keeps the key |
| ChangeLog.PayloadsNumberedIff | vecsync/logging.go:67-86 | over a whole run the logged payloads repeat the numbers they are logged under if and only if the writer put the number about to be allocated into every row |
| ChangeLog.DefaultScnIsNotTheNumber | vecsync/logging.go:26-26 | a first insert with the column's default of 0 is logged under 1 with payload scn 0 |
| ChangeLog.PayloadRoundTrip | vecsync/logging.go:67-79 | the payload has the row's columns under their own names and restores the row, exactly except that a NULL embedding comes back empty |
| ChangeLog.HexRoundTrip | vecsync/logging.go:74-74 | hex is read back |
| ChangeLog.HexAt | vecsync/logging.go:74-74 | two digits for each byte, the high one first |

## Left out

- SQLite, the virtual-table callbacks, SQL text, DDL, cursors, option and argument parsing, `SQLiteStore`, `vecutil` and `engine`: glue around the modelled parts.
- `viant/vec/search` is not part of this model: its magnitude and distances are parameters.
- IEEE rounding, NaN, infinities and underflow: exact reals; so the `baseLevel <= 0` and `math.IsNaN` guards, which only rounding can reach, have no counterpart.
- Widths of in-memory integers: indices, levels and versions are unbounded in memory and take their 32-bit width on the wire, where `TreeCodec.Fits` is the exact condition.
- Goroutines in `prepareParallelPoints`: they only copy the input that the sequential loop of `CoverIndex.Index.Build` copies.
- Locks inside the tree, its values and the index: the tree is used by one caller at a time; the cache protocol is where interleaving matters.
- Generic value type: tree values are byte strings, as both users of the tree have it.
- Points as shared pointers: a point is a value; the caller's `Point` object that `Insert` also stamps is not modelled.
- Children stored inline: a child is a heap node of its own, so the copying of nodes when a slice grows or a root is wrapped is not modelled.
- PriorityQueue.Push: the heap slices are local to one search, so they are passed as sequence values and not changed in place; the same holds for PriorityQueue.Pop, Sorting.Sort and the byte buffers of the codecs.
- CoverTree.Tree.Insert: inserting one and the same Point object twice restamps the index of the node inserted first; here each insertion has a point of its own, as both callers of the tree give it.
- TreeSearch.BestFirst: k = 0 is excluded, since the code indexes an empty heap there; its only caller passes k >= 1.
- TreeSearch.DepthFirst: exactness, as for TreeSearch.BestFirst, is claimed when the bounds are sound, which a metric with per-node bounds gives, and for k >= n, which a caller can check (Nearest.FullListing); the level bound gives them on trees whose insertions never made a new root (LevelBound.BuiltLevelIndexIsExact); with the cosine distance, or the level bound on other trees, and k < n there are runs that miss the nearest point (Exactness.CosineQueryMissesNearest, Exactness.LevelQueryMissesNearest).
- TreeStore.DecodeBinary: nothing is promised about a tree whose decoding failed; its callers discard it.
- TreeStore.DecodeNode: for a base that is not positive, which no tree has, baseLevel stands for whatever math.Pow gives; slices are not allocated ahead of the bytes that fill them.
- CoverIndex.CoverRefinesBruteForce: for k < n the cosine distance is not a metric and no top-k is claimed.
- CacheProtocol.SearchSeesSettledWrites: one cache key and read-only tables; concurrent freshness of the persisted-blob path is not guarded by the code (BlobPath.UnguardedRunGoesWrong), and other processes do not see this cache.
- EnsureIndex.Process.EnsureIndex: one caller at a time; waiting, cancellation and the lease are in CacheProtocol and BuildLease, and database errors other than a failed write of the blob are left out.
- Storage.IndexesAgreeWithRows: supposes triggers installed before a reindex or Search, named tables without '|' in paths and table names, distinct files, and blobs whose numbers fit and whose dimension does not spell "COV1".
- Names.TargetsIff: the key's path and table are bar-free; a same-named table of another database path is cleared too, as the code does.
- BuildLease.LeaseKeepsOthersOut: says nothing of a process that finds its own row from a failed unlock, whose date the code leaves as it is (BuildLease.LeftRowAdmitsTwo).
- BuildLease.MutualExclusion: one clock for all processes and one build per process and dataset; the retry loop is a sequence of attempts.
- ChangeLog.ReplayFollows: JSON text and timestamps, the MySQL variant, INSERT OR REPLACE and pruning of the log are left out.
- Names.ShadowLeadsBack: white space beyond U+00A0, which strings.TrimSpace also removes, is not in the model.
- FindPointByIndex, Values, workerCount, resolveDbPath and parseTarget: easy members.
