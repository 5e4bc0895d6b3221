# Mintpool, modelled and verified

Mintpool is a peer-to-peer network of nodes that share premints: signed offers of tokens that are not on a chain yet.
This project models its three stateful parts and proves what they promise.

1. **The hashed trie** (`src/sync.rs`) with which two nodes would reconcile their sets. `TrieNode.dfy` has the nodes as
   the program builds them: objects updated in place, a binary search, a two-cursor merge that shares one path stack.
   Each method is proved to compute a function of `Trie.dfy`, and the other `Trie*.dfy` files prove what those
   functions mean: the path set (`TrieLookup`), the cached hashes (`TrieHash`, `TrieNorm`), runs of operations and
   canonical form (`TrieRuns`), the contents and order of a diff (`TrieDiff`), when a diff is exactly the difference of
   two sets (`TrieExact`), traversals (`TrieVisit`), and the effect of a cut at a depth (`TrieCut`) or around a prefix
   (`TrieReach`).
2. **The premint table and its gate** (`src/storage.rs`, `src/rules.rs`, `src/controller.rs`). `Premints` has the
   documents and their identifiers, `PremintTable` the SQL statements over a map of rows, `PremintRules` the rules,
   `Gate` what sequential handling keeps, `SyncBatch` the concurrent handling of a sync response with every read,
   judgement and write a step of its own, `SyncOrder` what that does to the gate's promises, `Listing` what callers are
   told, `Pruning` deletion against marking. `Claims` has the proof of inclusion, and `Network` the controller and a
   machine of several nodes over a growing chain with any claims whatever in flight.
3. **The registry of trusted nodes** (`contracts/src/MintpoolTrustedNodeRegistry.sol`) and the boot nodes read back
   from its log (`Registry`).

The digest of the trie and the hash of the registry are parameters. Nothing is assumed of them; in particular they are
never taken to be injective. Where a result needs that nothing collides, it says so of the two tries it is about, and
of the low 32 bits only, because a parent is hashed from those.

## What the proofs found

- **An exact diff needs more than collision-freedom.** A parent is hashed from four bytes of each child followed by its
  own value, with no separator. For *every* digest two different sets have an empty diff although nothing collides
  (`TrieExact.EveryDigestMisses`): a leaf whose value spells out a child's hash is hashed like a node with that child.
  The diff is exact if and only if the pairs it prunes have equally named children (`DiffExactIff`); values of one
  length at each depth are enough (`DiffExact`).
- **Plain and updating inserts do not mix freely.** An updating insert refreshes a parent from whatever its other
  children store, and marks it clean; if one of those was inserted plainly the hash is stale and `rehash` skips it, for
  every digest that tells the two inputs apart (`TrieRuns.MixedRunIff`). A run equals its batch exactly if its cache is
  coherent (`TrieRuns.RunRefinesBatchIff`), and `TrieNorm.UpdatingInsertCoherentIff` says when an updating insert keeps
  it so.
- **Versions are compared twice, differently**: unsigned by the rule, signed by the SQL. They part exactly when an
  update crosses 2^63 (`Gate.AcceptedIsStoredIff`, `Gate.AcceptedButLost`). A Zora premint's version has 32 bits, a
  simple premint's has 64.
- **The URI rule reads a column that updates never change.** Documents of two ids can end up with one URI
  (`Gate.UriTakenTwice`); over a run they stay apart exactly as long as nothing is stored under a URI that another id's
  document has moved to (`Gate.RunKeepsUniqueIff`). The column itself stays unique per id when documents are handled
  one at a time (`Gate.RunKeepsTable`).
- **A failed rule accepts.** Any rule in error makes the result not a rejection, whatever the other rules say
  (`PremintRules.AcceptedMeans`, `Gate.FailedRuleOverwrites`), so what the rules enforce holds for documents handled
  one at a time without a failing rule; what the SQL enforces always holds.
- **A sync response judges a table that others change.** Its tasks read and judge before they write, so two documents
  of one response can each pass the gate and together break what it enforces: a second signer takes over a row
  (`SyncOrder.RowTakenOver`), or two ids share a URI column, and then even the keys stored depend on the schedule
  (`SyncOrder.ScheduleDecides`). `SyncOrder.BatchInOrderIff` says for which responses no interleaving does.
- **A log's index is used as its position in the receipt.** The index counts within the block, so a genuine mint's
  claim is confirmed exactly when the two numbers coincide (`Claims.GenuineMintConfirmedIff`,
  `Claims.MisplacedMintIgnored`). The check never confirms a claim that is not a mint (`Claims.CorrectClaimIsMint`,
  `Network.ClaimSafety`).
- **Pruning forgets.** A pruning node shows what a marking node shows exactly until it stores a document under a key
  the other has marked, or under a URI that only marked rows of another id show there (`Pruning.PruneSimulatesMark`,
  `Pruning.PrunedUriIsFree`): the gate reads the table, and a deleted row no longer speaks against anything.
- **The registry's counter follows calls, not nodes.** Removing an untrusted node lowers it for good: from then on no
  calls can leave the trusted set empty (`Registry.AllRemovableIff`, `Registry.StraysStay`).

Where the documentation and the code disagree the code is followed: `docs/OPERATION.md` calls the third inclusion mode
`ignore`, the code has `trust`.

## Model

| member | source | states |
|---|---|---|
| `ByteStrings.UpdateBuffer` | src/sync.rs:184-190 | the buffer holds the four big-endian bytes of the hash's low half, whatever it held before |
| `ByteStrings.Be32KeepsLow32` | src/sync.rs:184-190 | two hashes leave the same buffer if and only if they agree modulo 2^32: the high half never reaches a parent |
| `ByteStrings.CmpIsSliceOrder` | src/sync.rs:280 | values are ordered as byte slices: the first difference decides, and a proper prefix comes before its extensions |
| `TrieNode.Node.ChildBytes` | src/sync.rs:251-257 | the hasher is fed the low halves of the children's stored hashes, in order, with nothing in between |
| `TrieNode.Node.UpdateHash` | src/sync.rs:239-264 | the in-place refresh computes the specified node: pinned hash wins, a clean node is left alone, a dirty one is hashed from children then value |
| `TrieNode.Node.RehashChildren` | src/sync.rs:267-269 | every child is rehashed and nothing else changes |
| `TrieNode.Node.Rehash` | src/sync.rs:266-272 | rehashing in place computes the specified tree, children before parents |
| `TrieNode.Node.Search` | src/sync.rs:276-282 | binary search finds the child of a value, or the only place that keeps the list sorted |
| `TrieNode.Node.InsertChild` | src/sync.rs:292 | a node inserted at an index shifts the later children and changes nothing else |
| `TrieNode.Node.GetOrCreateChild` | src/sync.rs:275-296 | the returned index holds the child of that value; only a missing child is created, one level deeper, hashed at once only when updating |
| `TrieNode.Node.SetHash` | src/sync.rs:304-311 | a given hash is stored and pinned; without one an updating insert refreshes the node |
| `TrieNode.Node.Arrive` | src/sync.rs:301-318 | the child on the path either receives the value's hash or carries on with the rest of the path |
| `TrieNode.Node.InsertBelow` | src/sync.rs:298-318 | all of an insert but the last refresh: the node is dirtied, the child on its path found or made, and carried on in |
| `TrieNode.Node.Insert` | src/sync.rs:298-323 | the recursive in-place insert computes the specified tree and touches no node outside its own |
| `TrieNode.Node.DiffNode` | src/sync.rs:344-361 | two nodes of one name: silence on equal hashes, otherwise what is below or one mismatch, under the full path; the path stack is restored |
| `TrieNode.Node.DiffStep` | src/sync.rs:341-394 | each round of the merge reports exactly what leaves the pending part of the merge, advances a cursor, and restores the path stack |
| `TrieNode.Node.Diff` | src/sync.rs:325-398 | the two-cursor loop terminates and returns the recursive merge of the two child lists with the stack's path in front |
| `TrieNode.Node.Visit` | src/sync.rs:223-237 | the recursive visit, for any visitor and whatever state it captures, does what the pure visit does and restores the path |
| `TrieNode.Node.VisitChildren` | src/sync.rs:201-221 | the same for the loop over children, with its early return |
| `TrieNode.Node.VisitExtract` | src/sync.rs:223-237 | the recursive visit, run with the copying closure, builds in place the sparse trie the pure visit builds; the source is unchanged |
| `TrieNode.Node.VisitExtractBelow` | src/sync.rs:201-221 | the same for the loop over children |
| `TrieNode.TreeSet.Insert` | src/sync.rs:57-59 | a plain insert on the root, keeping the set sorted |
| `TrieNode.TreeSet.InsertUpdate` | src/sync.rs:61-63 | an updating insert on the root, keeping the set sorted |
| `TrieNode.TreeSet.InsertWithHash` | src/sync.rs:69-71 | a plain insert that pins a hash, keeping the set sorted |
| `TrieNode.TreeSet.InsertWithHashUpdate` | src/sync.rs:65-67 | an updating insert that pins a hash, keeping the set sorted |
| `TrieNode.TreeSet.Rehash` | src/sync.rs:53-55 | rehashes the whole set |
| `TrieNode.TreeSet.Leafs` | src/sync.rs:83-99 | returns the pure leaf listing of the current tree |
| `TrieNode.TreeSet.Extract` | src/sync.rs:105-121 | returns a new, separate set standing for the pure extract of the current tree |
| `TrieNode.TreeSet.ExtractRoot` | src/sync.rs:101-103 | an extract with the empty prefix |
| `TrieNode.TreeSet.Diff` | src/sync.rs:123-133 | returns the pure diff of the two current trees and changes neither |
| `TrieLookup.InsertSorted` | src/sync.rs:275-323 | every insert keeps the children of every node strictly sorted |
| `TrieLookup.InsertAdds` | src/sync.rs:298-323 | an insert adds exactly the prefixes of path + value to the path set, and pins the given hash exactly at its end |
| `TrieLookup.PlainInsertCache` | src/sync.rs:298-323 | a plain insert dirties every node it passes, gives the last one its hash and pins it without touching that node's dirty flag, and leaves every other node's hash, pinned hash and flag alone |
| `TrieLookup.SameKids` | src/sync.rs:275-296 | two sorted tries with one path set have the same children in the same order |
| `TrieHash.RehashCanonicalIff` | src/sync.rs:239-272 | a rehash leaves every node clean with its recursively defined hash if and only if every clean unpinned node had it before |
| `TrieHash.RehashTwice` | src/sync.rs:266-272 | a rehash of a coherent trie is coherent and idempotent |
| `TrieHash.CleanIsCanonical` | src/sync.rs:239-264 | in a coherent trie a clean node at any path stores its canonical hash |
| `TrieHash.PlainInsertCoherent` | src/sync.rs:298-323 | a plain insert, with or without a hash, keeps the cache coherent |
| `TrieHash.InsertPinned` | src/sync.rs:306-308 | every insert keeps pinned hashes equal to stored ones |
| `TrieNorm.InsertCommutesWithNorm` | src/sync.rs:239-323 | settling a trie and then inserting with updates equals inserting, updating or not, and then settling |
| `TrieNorm.UpdatingInsertCoherentIff` | src/sync.rs:246-248 | an updating insert leaves the cache coherent when every node it refreshes finds the children it does not visit settled, and only then unless the digest confuses stale and canonical input |
| `TrieRuns.RunStructure` | src/sync.rs:47-71 | every run of public operations leaves a sorted trie with right levels and an unnamed, unpinned root |
| `TrieRuns.RunHas` | src/sync.rs:53-71 | a run holds exactly the prefixes of what it inserted, each with the last hash pinned there |
| `TrieRuns.RunCoherent` | src/sync.rs:239-323 | the cache is coherent after every run in which updating inserts only meet settled siblings |
| `TrieRuns.SafeRunCleanIsCanonical` | src/sync.rs:239-272 | so every clean node met on such a run stores its canonical hash |
| `TrieRuns.RunNorm` | src/sync.rs:239-323 | however updates and rehashes are mixed in, the canonical tree of a run is that of its plain inserts |
| `TrieRuns.RunRefinesBatchIff` | src/sync.rs:53-71 | any run rehashes, field for field, to the batch of its plain inserts rehashed once if and only if its cache is coherent |
| `TrieRuns.SafeRunRefinesBatch` | src/sync.rs:53-71 | so every run does in which updating inserts only meet settled siblings |
| `TrieRuns.UpdatingRunIsBatchRehashed` | src/sync.rs:61-67 | any non-empty list of updating inserts on a fresh set already is the batch-hashed tree, with no rehash |
| `TrieRuns.RunsCanonical` | src/sync.rs:274-323 | two safe runs naming the same paths and pinning the same hashes rehash to identical trees, whatever the order and repetitions |
| `TrieRuns.MixedRunIff` | src/sync.rs:246-248 | for every digest and any two names, a plain insert followed by an updating one rehashes to its batch if and only if the digest does not tell the first child's unset hash from its real one |
| `TrieRuns.MixedRunGoesStale` | src/sync.rs:246-248 | there are digests that do, for which no later rehash repairs the root |
| `TrieDiff.DiffEmptyIff` | src/sync.rs:340-395 | a diff is empty if and only if the two child lists agree on values and stored hashes |
| `TrieDiff.DiffDual` | src/sync.rs:340-395 | diffing the other way round gives the same reports in the same order with the sides exchanged |
| `TrieDiff.DiffMeetsSpecification` | src/sync.rs:325-398 | for any hashes: a path is reported missing exactly when one side has it, the other has its parent and no ancestor is pruned; a mismatch exactly at an unpruned common node whose child lists agree |
| `TrieDiff.DiffAscending` | src/sync.rs:340-395 | reported paths strictly increase and none is a prefix of another |
| `TrieDiff.BeforeIsStrict` | src/sync.rs:342-377 | the order of reported paths is strict and excludes prefixes |
| `TrieDiff.DiffIsTheSpecifiedList` | src/sync.rs:325-398 | the diff is the one ascending list holding exactly the specified reports |
| `TrieExact.MismatchIsPinned` | src/sync.rs:349-358 | between two settled tries a hash mismatch is only reported where one side carries a pinned hash |
| `TrieExact.DiffExactIff` | src/sync.rs:239-398 | without pinned hashes and collisions of truncated digests, the diff is exactly the minimal difference of the path sets if and only if every pruned pair has equally named children |
| `TrieExact.DiffExact` | src/sync.rs:239-398 | it is so, and in order, when no two siblings of the two tries could end the same hash input |
| `TrieExact.RunsDiffExact` | src/sync.rs:53-133 | two sets built by any safe runs without hashes and rehashed are told apart exactly by what only one of them was given |
| `TrieExact.EveryDigestMisses` | src/sync.rs:253-260 | for every digest there are two rehashed sets with different paths, no pinned hash, no digest collision and an empty diff, because a child's hash and its parent's value are hashed without a separator |
| `TrieVisit.VisitReaches` | src/sync.rs:201-237 | whatever a visitor's answers depend on, path, node or captured state, a traversal asks exactly the nodes above which all answered Continue, in pre-order, up to the first Stop, handing the state on |
| `TrieVisit.AccountUnique` | src/sync.rs:201-237 | there is only one account of answers and states that does so |
| `TrieVisit.PreorderNested` | src/sync.rs:201-237 | in the listing of a sorted trie one node is above another exactly when the other's path passes through it |
| `TrieVisit.MatchIsNear` | src/sync.rs:28-41 | the prefix test accepts exactly the nodes whose full path is comparable with the prefix or has length one |
| `TrieVisit.LeafsExact` | src/sync.rs:83-99 | the leaf listing is, in pre-order, the values of the childless nodes comparable with the prefix or of length one |
| `TrieVisit.ExtractIsRun` | src/sync.rs:105-121 | an extract is the run of hash-pinning inserts of the nodes within reach, in pre-order |
| `TrieCut.PreorderLists` | src/sync.rs:201-237 | the pre-order listing names exactly the nodes that can be looked up |
| `TrieCut.ExtractExact` | src/sync.rs:105-121 | an extract holds exactly the source's paths within reach, each with the source's hash, and a later rehash leaves those hashes alone |
| `TrieCut.CutCoarsens` | src/sync.rs:344-361 | diffing two sibling lists cut at a depth coarsens their diff |
| `TrieCut.DepthCutCoarsensDiff` | src/sync.rs:101-121 | for every depth of at least one, the diff of two extracts is the diff of the sources with deeper entries turned into mismatches at that depth and merged; nothing is assumed of the hashes |
| `TrieReach.ExtractCoarsensDiff` | src/sync.rs:101-121 | for any prefix and depth, the diff of two extracts is the one ascending list of the sources' reports, each clipped to its longest beginning within reach, except those another clipped report leads beyond; nothing is assumed of the hashes |
| `TrieReach.MismatchGivesWay` | src/sync.rs:349-358 | around a prefix a mismatch where one report leaves the reach is not reported when another leads on within it |
| `Premints.GuidRoundTrip` | src/premints/zora_premint/types.rs:22-27 | the printed chain:address:number identifier parses back to its three parts |
| `Premints.GuidInjective` | src/premints/zora_premint/types.rs:46-49 | so different documents' parts never print alike |
| `Premints.GuidForm` | src/types.rs:137 | an identifier is the decimal numeral of the chain, then 0x and forty lower-case hexadecimal digits for the address, then the decimal numeral of the number, with colons between, where numerals and digits are read positionally |
| `Premints.KeyDetermines` | src/premints/zora_premint/types.rs:45-61 | documents with one key agree on kind, chain, collection and token; for simple premints also on the signer |
| `PremintTable.BuildQuery` | src/storage.rs:291-321 | the conditions pushed one by one together select exactly the unseen rows meeting every given option |
| `PremintTable.PremintStorage.constructor` | src/storage.rs:66-75 | a new storage has an empty table of its own |
| `PremintTable.PremintStorage.CloneOf` | src/storage.rs:37-46 | a clone shares the table and never prunes |
| `PremintTable.PremintStorage.Store` | src/storage.rs:92-131 | a new key is inserted; a conflict changes version and json only, for a higher signed version only; it fails exactly when no row was affected |
| `PremintTable.PremintStorage.MarkSeenOnChain` | src/storage.rs:133-164 | the row of that id, kind and chain is marked, or deleted when pruning; any other row and any other claim changes nothing |
| `PremintTable.PremintStorage.GetForIdAndKind` | src/storage.rs:173-207 | returns the json of the row with that key, if any |
| `PremintTable.PremintStorage.GetForTokenUri` | src/storage.rs:181-188 | returns the json of some row whose token_uri column matches, or none exactly when there is none |
| `PremintTable.PremintStorage.ListAll` | src/storage.rs:209-244 | returns one document for each unseen row, in some order |
| `PremintTable.PremintStorage.ListAllWithOptions` | src/storage.rs:246-274 | returns one document for each row wanted, in some order |
| `Listing.ListedIff` | src/storage.rs:246-321 | a document is listed exactly if it is the current one of an unseen row, its own kind, chain, collection and signer are those asked for, and its row was made in the span asked for |
| `Listing.ListedOnce` | src/storage.rs:246-274 | no document is listed twice |
| `Listing.AllListed` | src/storage.rs:209-244 | without options every unseen row's document is listed |
| `Listing.NewIsListedFrom` | src/storage.rs:312-319 | once stored, a new document is listed to exactly those whose span of time holds its store |
| `Listing.UpdateIsListed` | src/storage.rs:102-110 | a stored update is listed in place of the version before it |
| `PremintRules.AcceptedMeans` | src/rules.rs:110-464 | a document is accepted when some other rule failed, and otherwise exactly with a URI of allowed length that no other id's row shows, the stored signer, a higher version, and no rejection by another rule |
| `Gate.ZoraUpdateAcceptedIff` | src/premints/zora_premint/types.rs:45-61 | a version of a Zora document is let in over another exactly with the same contract admin, a higher version, a URI of allowed length and no rejection by another rule, or when one failed; V2 and ERC20 alike |
| `Gate.SimpleUpdateAcceptedIff` | src/types.rs:135-146 | a version of a simple premint is let in over another exactly with a higher version and a media URI of allowed length, the sender being part of the key |
| `Gate.NewAcceptedIff` | src/rules.rs:380-464 | a document without a stored version is let in exactly with a URI of allowed length that is not another id's |
| `Gate.ZoraColumns` | src/premints/zora_premint/types.rs:45-61 | a new Zora document is stored under its kind and printed identifier, with its own admin, chain, collection, uid, URI and version in the columns, unseen, at the time of its insert |
| `Gate.SimpleColumns` | src/types.rs:135-146 | the same of a simple premint: sender, chain, token and media, and no collection |
| `Network.Controller.ValidateAndInsert` | src/controller.rs:279-300 | reads the table, judges, and writes what is accepted, whichever row a URI lookup returned; a rejected document, or a failing lookup, leaves the table as it was |
| `Network.Controller.HandleBroadcast` | src/controller.rs:204-230 | a document is sent on exactly if it was stored here |
| `Network.Controller.HandleOnchainClaim` | src/controller.rs:302-347 | the three inclusion modes: a peer's claim is checked against the stored document and the chain, or taken only from a trusted peer; it panics exactly on a simple premint whose log was found |
| `Network.Controller.ResolveOnchainMint` | src/controller.rs:249-271 | the node's own watcher is believed, and its claim passed on in check mode only |
| `Gate.UpsertKeepsColumns` | src/storage.rs:92-131 | every row's version, chain, collection and token columns stay those of its document, rules or not |
| `Gate.AnswerIrrelevant` | src/rules.rs:402-428 | whichever row a URI lookup returns, the URI rule's verdict is the same |
| `Gate.GateKeepsTable` | src/controller.rs:279-300 | with no rule in error a validated insert keeps columns, signers and the one-id-per-URI-column property |
| `Gate.AcceptedIsStoredIff` | src/rules.rs:446-464 | with no rule in error an accepted document is stored except exactly when its version has reached 2^63 and the stored one has not |
| `Gate.AcceptedButLost` | src/storage.rs:96-128 | an update of a simple premint from version 1 to 2^63 passes the gate and is not stored |
| `Gate.FailedRuleOverwrites` | src/rules.rs:110-120 | with one failed rule another signer's higher version is accepted and replaces the stored document under the old signer's column |
| `Gate.RunKeepsTable` | src/controller.rs:279-300 | all three hold over every sequential error-free run, pruning or marking |
| `Gate.FirstColumnsStay` | src/storage.rs:102-110 | in mark mode a row keeps its first signer, token_uri and creation time, and its mark, through any later events |
| `Gate.UrisUniqueIff` | src/rules.rs:402-428 | documents' URIs are unique per id if and only if no document has moved to the URI of another id's document |
| `Gate.OfferKeepsUniqueIff` | src/rules.rs:402-428 | one more offer keeps them unique unless it is stored under a URI another id's document has moved to, and only then |
| `Gate.RunKeepsUniqueIff` | src/controller.rs:279-300 | over every sequential error-free run they stay unique exactly as long as no offer is stored under such a URI |
| `Gate.UriStaysCurrentIff` | src/storage.rs:104-107 | a successful store leaves the URI column matching exactly when it inserts or keeps the URI |
| `Gate.UriTakenTwice` | src/rules.rs:402-428 | once a document has moved to a new URI another id is let in with the same one, through three accepted error-free offers |
| `Gate.UriCanBeTaken` | src/rules.rs:402-428 | such offers exist for any two ids of one sender and any two URIs of allowed length |
| `SyncBatch.StepNoOlder` | src/controller.rs:175-183 | no step of any task takes a row back, and a task that reports success has strictly raised its row to its own document |
| `SyncBatch.AloneIsSequential` | src/controller.rs:279-300 | a task nobody interrupts, started in any state, leaves the table and the outcome of one sequential validate-and-insert |
| `SyncBatch.RunNoOlder` | src/controller.rs:175-183 | no interleaving of any tasks, with any failures and verdicts, ever takes a row back to an older version |
| `SyncBatch.RunHoldsTop` | src/controller.rs:175-183 | over every interleaving, with any verdicts and failures, each row ends at the maximum of its version and those written for its key, with a document that has it |
| `SyncBatch.WriteOrderIrrelevant` | src/storage.rs:102-128 | two runs that write the same documents in any order, however often, end with the same versions and, where a version determines its document, the same documents |
| `SyncBatch.RunKeepsInv` | src/controller.rs:175-183 | over every interleaving each task that has been turned down, or is done, has its row at its version or a later one |
| `SyncBatch.SyncReachesLatest` | src/controller.rs:175-183 | when all tasks are done the table has exactly the keys that were there or supplied, each at the latest version of either |
| `SyncBatch.SyncConverges` | src/controller.rs:175-183 | any two interleavings end with the same versions and, where a version determines its document, the same documents |
| `SyncOrder.UpsertInOrderIff` | src/storage.rs:92-131 | a write leaves columns, signers and URI owners in order if and only if it does not take over a row of another signer or put a second id under a URI |
| `SyncOrder.RunInOrderIff` | src/controller.rs:175-183 | over every interleaving, failures included, the table stays in order exactly as long as no accepted write does so |
| `SyncOrder.BatchInOrderIff` | src/controller.rs:175-183 | a sync response keeps the table in order under every interleaving without a failing rule if and only if no two of its documents that are new to the table are two signers' versions of one document or two ids under one URI |
| `SyncOrder.RowTakenOver` | src/controller.rs:175-183 | two signers' versions of a new document, read and judged before either is written, end with the second's document under the first's signer |
| `SyncOrder.StaleReadLetsIn` | src/controller.rs:175-183 | a task lets in by what it read earlier a document the gate would turn down by what is stored now |
| `SyncOrder.ScheduleDecides` | src/controller.rs:175-183 | for any two new ids under one URI two complete interleavings without failures end with different keys |
| `Pruning.ClaimSimulates` | src/storage.rs:133-164 | deleting on a claim shows what marking on it shows |
| `Pruning.PutSimulatesIff` | src/storage.rs:92-131 | a store keeps the two modes alike exactly when its key is not marked |
| `Pruning.WritesSimulateMark` | src/storage.rs:92-164 | given the same statements, none a store to a marked key, a pruning table is the marking table's visible rows |
| `Pruning.OfferSimulatesIff` | src/controller.rs:279-300 | through the gate one offer keeps the two nodes alike if and only if the pruning one does not store under a key the other has marked, or under a URI only marked rows of another id show there |
| `Pruning.PruneSimulatesMark` | src/controller.rs:279-300 | over every pair of error-free runs of the same events the pruning node holds the marking node's visible rows throughout exactly as long as it never does |
| `Pruning.AlikeListsAlike` | src/storage.rs:209-321 | as long as they are alike every list query has the same answers from both |
| `Pruning.PrunedUriIsFree` | src/controller.rs:279-300 | once a premint is claimed, another id under its URI is turned down where it was marked and stored where it was pruned, with no marked key stored again |
| `Pruning.ClaimedIsReached` | src/storage.rs:133-164 | the marked table of that case is what one accepted offer and one claim leave |
| `Pruning.MarkedNeverListed` | src/storage.rs:209-321 | in mark mode a marked key is never listed again, whatever is stored later |
| `Claims.VerifyMappedIff` | src/premints/zora_premint/types.rs:75-129 | verifying the claim a log maps to, with that log, holds exactly when the log is the factory's, of the receipt's transaction, and names the document's collection and uid |
| `Claims.VerifyIff` | src/premints/zora_premint/types.rs:97-129 | a claim is borne out exactly if it is, field for field, the claim a watcher makes of that log, and the log is the factory's, of the receipt's transaction, and names the document's collection and uid |
| `Claims.CorrectClaimIsMint` | src/chain.rs:128-147 | a claim the chain check confirms names a factory mint of the document, its id on that chain, and the V2 kind |
| `Claims.GenuineMintConfirmedIff` | src/chain.rs:128-147 | the claim made of a genuine mint on record is confirmed exactly when the log's index is also its position in its own receipt |
| `Claims.MisplacedMintIgnored` | src/chain.rs:136-140 | the claim of a transaction's only log is turned down unless that log is the first of its block |
| `Network.IncludeTakesIff` | src/storage.rs:133-164 | a claim marks or deletes an unseen row exactly if it names its kind and id and is of its chain, and leaves every other row alone |
| `Network.PeerClaimTakesIff` | src/controller.rs:302-347 | a peer's claim does so exactly if it is also believed: in trust mode when the peer is trusted, otherwise when the chain confirms it of the stored document |
| `Network.GenuineMintTaken` | src/controller.rs:302-324 | a genuine V2 mint whose log sits where its index says is marked or pruned by every checking or verifying node its claim reaches |
| `Network.IncludeSafe` | src/storage.rs:133-164 | a claim that names a mint marks or deletes only a document that was minted |
| `Network.PeerClaimSafe` | src/controller.rs:302-324 | so does any claim a checking or verifying node accepts from a peer, even on a lagging view of the chain |
| `Network.WatchSafe` | src/chain.rs:55-116 | and every claim of the factory-filtered watcher |
| `Network.NodeClaimSafety` | src/controller.rs:249-324 | over every run, each premint that a checking or verifying node has marked or pruned is a V2 premint the factory minted with its chain, collection and uid, with arbitrary claims and documents in flight, a growing chain, and whatever the other nodes trust |
| `Network.ClaimSafety` | src/controller.rs:249-324 | so it is for all the nodes of a world that trust nobody, at once |
| `Registry.Contract.AddNode` | contracts/src/MintpoolTrustedNodeRegistry.sol:81-90 | a new hash is trusted, counted and logged; a trusted one reverts |
| `Registry.Contract.RemoveNode` | contracts/src/MintpoolTrustedNodeRegistry.sol:66-71 | the hash is dropped, the counter lowered and the event logged, trusted or not; a zero counter reverts and undoes the drop |
| `Registry.Contract.AddNodes` | contracts/src/MintpoolTrustedNodeRegistry.sol:35-39 | the loop adds every node or leaves everything as it was |
| `Registry.Contract.RemoveNodes` | contracts/src/MintpoolTrustedNodeRegistry.sol:73-77 | the loop removes every node or leaves everything as it was |
| `Registry.Contract.Receive` | contracts/src/MintpoolTrustedNodeRegistry.sol:17-77 | each transaction does what the pure step says: owner check, initialisation guard, all or nothing |
| `Registry.Contract.AreTrusted` | contracts/src/MintpoolTrustedNodeRegistry.sol:55-61 | the result array answers for each name in turn |
| `Registry.AddAllIff` | contracts/src/MintpoolTrustedNodeRegistry.sol:35-39 | a batch is added exactly if its hashes are new and pairwise different, and then adds just those |
| `Registry.RemoveAllIff` | contracts/src/MintpoolTrustedNodeRegistry.sol:73-77 | a batch is removed exactly if the counter covers its length, and then removes just its hashes |
| `Registry.AcceptedIff` | contracts/src/MintpoolTrustedNodeRegistry.sol:17-90 | which calls are accepted: all but an initialisation need the owner, an initialisation a zero counter, adding new and different hashes, removing a counter that covers the batch |
| `Registry.AcceptedLeaves` | contracts/src/MintpoolTrustedNodeRegistry.sol:17-90 | what an accepted call leaves: the trusted hashes, the counter, the owner and the events |
| `Registry.StrangerRefused` | contracts/src/Owned.sol:19-23 | a stranger's call, but an initialisation, changes nothing |
| `Registry.StrangersChangeNothing` | contracts/src/Owned.sol:19-23 | over any stretch of a run nothing changes unless someone initialises or the owner of that moment calls |
| `Registry.OwnerIsLastMade` | contracts/src/Owned.sol:29-43 | after any run the owner is the one the last accepted initialisation or owner's own transfer made |
| `Registry.Conservation` | contracts/src/MintpoolTrustedNodeRegistry.sol:17-90 | over every run of calls the trusted set outgrows the counter by exactly the successful removals of untrusted nodes, and the events alone give the trusted set |
| `Registry.AllRemovableIff` | contracts/src/MintpoolTrustedNodeRegistry.sol:66-77 | after any run the owner can remove all trusted nodes exactly if no untrusted node was ever removed |
| `Registry.StraysStay` | contracts/src/MintpoolTrustedNodeRegistry.sol:66-77 | whatever calls follow, at least as many nodes stay trusted as untrusted ones were ever removed |
| `Registry.StrayRemovalStrands` | contracts/src/MintpoolTrustedNodeRegistry.sol:66-71 | once one node is trusted and another name has been removed, the trusted node cannot be |
| `Registry.InitializeIff` | contracts/src/MintpoolTrustedNodeRegistry.sol:17-23 | after any run initialisation is accepted, from any sender, exactly if the counter is zero, which is when every node still trusted is matched by a stray removal, and the new hashes are new and different |
| `Registry.ReplayIsLast` | contracts/src/MintpoolTrustedNodeRegistry.sol:66-90 | a hash is trusted exactly when the last event about it added it |
| `Registry.BootNodesTimes` | src/chain.rs:158-209 | a boot node is listed as often as it was ever added if still trusted when asked, and otherwise not at all |
| `Registry.BootNodesInLogOrder` | src/chain.rs:158-209 | the boot nodes are the names of the additions still trusted, one after the other in the order of the log |
| `Registry.BootNodesExact` | src/chain.rs:158-209 | after any run the boot nodes' hashes are exactly the trusted set, and a name is listed exactly if it was once added and the last event about its hash added it |

## Left out

- The digest's internals and the JSON and CBOR encodings: the digest is an arbitrary function of bytes, a document an abstract value.
- The trie's value type parameter: values are byte strings, ordered as Rust orders byte slices; the trie's `Display`, `Clone` and serialisation.
- The width of a node's `level`: it is a natural number, where the source has 64 bits.
- The visitor as a closure over a `RefCell`: a visitor is a function of the captured state, the path and the node, and `Visit` threads the state through.
- TrieNode.Node.VisitExtract: is the visit with the copying closure written into it, because that closure updates a second trie in place, which a function cannot; `TrieVisit.VisitReaches` covers it as a pure visitor.
- TrieNode.Node.VisitExtractBelow: the same.
- SQLite: the table is a map of rows by (kind, id), with a time of creation per row, and lists come in an arbitrary order, as the queries ask for none; the text comparison of `created_at` is not modelled; nor is a stored json that no longer decodes.
- Database errors: a failing first lookup ends a validation and a failing rule is a failed rule; failing writes, and failing lookups of a claimed premint, are not modelled.
- The rules of `src/premints/zora_premint/rules.rs`, which recover signatures or ask the chain: they are oracles that accept, ignore, reject or fail.
- Adding single rules to an engine: the engine always has the default rules.
- Multi-byte characters: the length of a URI counts characters, where the source counts bytes.
- The network (`src/p2p.rs`): messages are offered to any node in any order, any number of times, or never, so nothing is claimed about delivery.
- Sending on a closed channel, metrics, logging, the HTTP API, the command line, configuration parsing, and `src/chain_list.rs`.
- Reconnection of the mint watcher: a watcher is handed any factory log on its chain, any number of times.
- Rollback of the chain: a receipt an endpoint has answered with never changes.
- Network.ClaimSafety: says nothing of the nodes in trust mode themselves, which do not check their peers' claims against the chain.
- Network.Controller.HandleOnchainClaim: reports the panic of the unwritten claim check of simple premints (`src/types.rs:156-164`) and says nothing of the node after it; the claim check of ERC20 premints is followed as written, and never confirms one of their claims because it asks for the V2 kind.
- Pruning.PruneSimulatesMark: is about runs without failing rules, as a failed rule lets any document in and with it two ids under one URI column; `Pruning.OfferSimulatesIff` allows a failed rule.
- Claims.GenuineMintConfirmedIff: is about logs whose receipt records them with distinct indices, as an Ethereum node reports them.
- SyncBatch.SyncReachesLatest: is about batches in which nothing but a version speaks against a document, with versions below 2^63; of any batch `SyncBatch.RunHoldsTop` says where the documents that pass the gate lead.
- SyncBatch.SyncConverges: likewise; other batches need not converge (`SyncOrder.ScheduleDecides`).
- TrieNorm.UpdatingInsertCoherentIff: the converse direction assumes the digest tells the stale from the canonical input on that path, as a collision there would leave the cache coherent by chance.
- The registry's `OwnershipTransferred` events, gas, and ABI decoding of logs; the zero address as a sender.
