# A verified model of the node's header chain and what surrounds it

This project models, in Dafny, the parts of an Ergo node in Rust where state, arithmetic and
several components meet: the header chain over its bounded cache, difficulty adjustment,
reorganisation with rollback, the validation pipeline that feeds the chain and writes the store,
start-up from the BEST_CHAIN table, and a number of protocols and codecs around them.

`dafny verify dfyconfig.toml` checks everything.

## How it is put together

| files | what they model |
|---|---|
| Headers, Difficulty, Regression, LeastSquares, Adjustment | headers, the integer regression, the classic and EIP-37 recalculations |
| ChainSpec, ChainProofs | what append, one-deep and deep reorganisation mean, as functions of the accepted headers |
| Lru, Store, LazyStore | the caches, the modifier store with BEST_CHAIN, and reads through the caches |
| Linkage, HeaderChain | the linkage audit, and the chain itself: index over cache over store |
| Startup, Backfill | restore from BEST_CHAIN, wiring, audit; the one-time score backfill |
| Requests, Branches, Ledgers | parent requests, fork assembly, the store in the middle of a batch |
| Intake, Pipeline, Stranding | what a batch does as a function of the state before it; the pipeline that does it; a batch that leaves a slot behind |
| Sections | block sections bound to their ids, and the batch that carries headers and sections |
| CatchUp, SyncWire, Codec, PeerRecords, Nipopow | sync between two nodes, wire and storage formats |
| Family, Latch, Config | family weight in the mempool, the solved latch of the miner, layered configuration |
| Seals | how large invariants are kept folded during proofs |

Code that changes things step by step is imperative here too: the chain, the caches, the store, the
request budget, the pipeline, the section store, the pool and the readers are classes, and loops of
the source are loops. Hashes are ideal: the id of a header determines the header
(`Id = Raw(tag) | IdOf(header)`), so an ancestry is part of the header.

Contracts of the chain and the pipeline come in two tiers. What depends only on the id index holds
for every loader and every cache size: a header read back is the accepted one or none, a refused
reorganisation leaves the index as it was. What needs every read to succeed (exact verdicts, scores,
no panic) holds while the heights used since the store last agreed with the chain fit the caches,
`lazy.Fits()`. Each method says which heights it can use, `Used(lo, hi)`; between batches the store
has everything (`calm`) and reads of any heights in any number are harmless. For a batch it comes to
one inequality that can be checked before the call, `Snug`: from as far as a recalculation at the
deepest fork named by the batch can reach (ancestors are followed through the store and the batch and no
further) up to the tip, plus the buffered and delivered headers and one fork walk, must be fewer heights
than the caches hold. The length of the chain does not matter. Then a batch does exactly what the
functions `TakenAll` and `Final` of module Intake say: which headers are appended, stored, kept waiting or
dropped, which reorganisation is chosen, and what the chain is in the end.

## Model

| member | source | states |
|---|---|---|
| Regression.DenominatorSign | chain/src/difficulty.rs:249-281 | the regression divides by zero exactly when all points share one height, and its denominator is never negative |
| Regression.RegressionError | chain/src/difficulty.rs:249-281 | the truncating fixed-point result is within 2 + distance/10^9 of the exact prediction, for any points and target |
| Regression.RegressionWithinThree | chain/src/difficulty.rs:249-281 | with the target within 10^9 of the mean height the result is within 3 of the exact one |
| Regression.LineIsExact | chain/src/difficulty.rs:249-281 | points on a line with integer coefficients are extrapolated with no error |
| LeastSquares.PredictionIsOnLine | chain/src/difficulty.rs:243-281 | the exact prediction above is the value of one line, given by its slope and intercept |
| LeastSquares.NormalEquations | chain/src/difficulty.rs:243-281 | that line satisfies both normal equations |
| LeastSquares.NoLineIsCloser | chain/src/difficulty.rs:243-281 | no line has a smaller sum of squared residuals, and no other line an equal one |
| Adjustment.AscendingNeverDividesByZero | chain/src/difficulty.rs:127-226 | anchors rising in height and time never make either recalculation divide by zero |
| Adjustment.DividesByZeroIff | chain/src/difficulty.rs:127-226 | for anchors rising in height the recalculation divides by zero exactly if there are two of them and either time rose overall and stood still over some epoch, or EIP-37 is active and it stood still over the last |
| Adjustment.CalculateIs | chain/src/difficulty.rs:127-169 | the rule before EIP-37 encodes the regression over one point per epoch, the height of the header that ends it and that header's difficulty times desired over actual duration; the network's first difficulty if the prediction is below one |
| Adjustment.TwoAnchors | chain/src/difficulty.rs:127-169 | with two anchors the prediction is that quotient for the one epoch between them |
| Adjustment.StandingStill | chain/src/difficulty.rs:139-143 | with one anchor, or if time has not moved on, the difficulty of the first anchor stays |
| Adjustment.InterpolateIs | chain/src/difficulty.rs:249-281 | slope, intercept and extrapolation in fixed point with nine decimals, each division truncating, one epoch past the highest point |
| Adjustment.Eip37Is | chain/src/difficulty.rs:192-228 | EIP-37 encodes the clamped mean of the last epoch's quotient and the clamped prediction |
| Adjustment.NextNBitsIs | chain/src/difficulty.rs:17-68 | which rule gives the next nBits: the version 2 switch at its two heights, the parent inside an epoch, the first nBits without anchors, otherwise one of the two recalculations with the epoch length of that height |
| Adjustment.CapRange | chain/src/difficulty.rs:230-241 | for every estimate and every reference, negative ones too, the clamped value is within half of the reference, up to rounding; for a reference that is not negative it lies between half and one and a half of it |
| Adjustment.CapIs | chain/src/difficulty.rs:230-241 | what lies between half and one and a half of the reference stays as it is, anything else becomes the nearer bound |
| Adjustment.Eip37Step | chain/src/difficulty.rs:192-228 | one EIP-37 epoch moves the difficulty by at most half, up to rounding, whatever the anchors and the sign of the last difficulty |
| Adjustment.SteadyKeepsNBits | chain/src/difficulty.rs:127-228 | if every epoch was on target at one difficulty, both rules return the same canonical nBits |
| ChainProofs.AnchorHeightsUp | chain/src/difficulty.rs:70-94 | the anchor heights rise strictly |
| ChainProofs.AnchorsAre | chain/src/difficulty.rs:70-94 | the anchors are exactly the headers of the chain a whole number of epochs below the parent, up to the configured number, in rising order |
| ChainProofs.AppendAccepted | chain/src/chain.rs:340-368 | appending anything to a valid full chain leaves a valid full chain: linked from genesis, timestamps rising, every nBits the expected one, every header with its proof of work |
| ChainProofs.AppendIff | chain/src/chain.rs:340-368 | a header extends the chain exactly if it is the genesis of an empty one or its parent is the tip, its height the next, its timestamp later than the tip's and within the drift, its nBits the expected ones (full nodes) and its proof of work and votes are good; it forks exactly if its parent is below the tip and just below it; its parent is reported missing exactly if it is not on the chain |
| ChainProofs.ChildFaultReported | chain/src/chain.rs:1860-1918 | of several faults of a child of the tip the first in the order height, timestamp, drift, difficulty, proof of work, votes is reported |
| ChainProofs.DeepReorgAccepted | chain/src/chain.rs:1524-1660 | so does a deep reorganisation |
| ChainProofs.DeepReorgIff | chain/src/chain.rs:1524-1704 | a deep reorganisation is carried out exactly if it starts on the chain and every header of the branch may follow those before it: parent, height, timestamp, drift, nBits, proof of work and votes |
| ChainProofs.TipReorgIsDeep | chain/src/chain.rs:1456-1522 | the one-deep reorganisation succeeds exactly when the deep one accepts the same two headers from just below the tip, and leaves the same chain |
| ChainProofs.RunAccepted | chain/src/chain.rs:340-1660 | any sequence of appends and reorganisations with any arguments leaves an empty full chain valid in that sense |
| ChainProofs.ReachableDifficulty | chain/src/difficulty.rs:17-68 | in no reachable state does the next difficulty divide by zero, and it is defined in all of them but one kind: an EIP-37 epoch that starts with no earlier anchor on the chain |
| ChainProofs.ExpectedDividesByZeroIff | chain/src/difficulty.rs:17-68 | on any linked chain, a light one too, the next difficulty divides by zero exactly when the anchors on it say so |
| ChainProofs.TailFaultIff | chain/src/chain.rs:1083-1160 | a suffix installs exactly when it is linked and every header has its proof of work |
| ChainProofs.InstallIff | chain/src/chain.rs:1083-1160 | a light client installs exactly into an empty chain what is linked and has its proof of work, the first header included |
| ChainProofs.ScoreIsWork | chain/src/chain.rs:1367-1411 | the cumulative score at a height is the difficulty summed along that header's ancestry |
| LruCache.Lru.PutHolds | chain/src/cache.rs:193-199 | a resident key stays resident as long as the distinct keys used since fit the capacity |
| LazyStore.LazyHeaderStore.GetHeader | chain/src/cache.rs:168-177 | reads are those of an unbounded map: for every height once the loader has caught up, and otherwise while the heights in use fit |
| LazyStore.LazyHeaderStore.GetScore | chain/src/cache.rs:180-189 | the same for scores |
| LazyStore.LazyHeaderStore.Put | chain/src/cache.rs:193-199 | the next height reads as what was put there although the loader does not have it |
| LazyStore.LazyHeaderStore.Evict | chain/src/cache.rs:201-205 | everything below the height reads the same, and the height too if the loader has it |
| LazyStore.LazyHeaderStore.Clear | chain/src/cache.rs:208-211 | afterwards every read is the loader's, and a caught-up loader still serves everything |
| LazyStore.LazyHeaderStore.Resize | chain/src/cache.rs:143-146 | from any state to any size: a caught-up loader still serves everything, and so do the caches if the window fits before and after |
| LazyStore.LazyHeaderStore.CaughtUp | chain/src/cache.rs:168-189 | when the loader has learnt what fitting caches serve, nothing stale is left in them |
| LazyStore.LazyHeaderStore.ServesImproved | chain/src/cache.rs:168-189 | the loader may learn new heights or the truth about old ones behind the caches' back |
| HeaderChains.HeaderChain.HeaderAt | chain/src/chain.rs:422-432 | none, or exactly the header accepted at that height, whatever the loader says; exactly it while reads fit |
| HeaderChains.HeaderChain.Lookup | chain/src/chain.rs:435-442 | the index answers as a search through the accepted headers would |
| HeaderChains.HeaderChain.ScoreAt | chain/src/chain.rs:526-532 | the score as it was accumulated, for heights of the chain only |
| HeaderChains.HeaderChain.CumulativeScore | chain/src/chain.rs:512-517 | the score of the tip |
| HeaderChains.HeaderChain.ExpectedDifficulty | chain/src/difficulty.rs:17-68 | never a division by zero on a full chain even with anchors missing; the specified nBits while reads fit |
| HeaderChains.HeaderChain.ValidateChild | chain/src/chain.rs:1860-1918 | the specified verdict, light clients skipping the difficulty |
| HeaderChains.HeaderChain.ValidateReorgHeader | chain/src/chain.rs:1663-1704 | the specified verdict inside a reorganisation, difficulty always checked; it panics exactly where the specification says that a divisor is zero |
| HeaderChains.HeaderChain.TryAppend | chain/src/chain.rs:340-368 | extends, reports a fork, or rejects as specified; only the first changes anything; no height is used below what a recalculation needs |
| HeaderChains.HeaderChain.PopHeader | chain/src/chain.rs:1416-1441 | takes the tip off and returns it with its score, so that restoring it undoes the pop |
| HeaderChains.HeaderChain.TryReorg | chain/src/chain.rs:1456-1522 | replaces the tip by two headers or leaves index, base, headers and scores as they were; full or light, the outcome is the specified one, a panic included |
| HeaderChains.HeaderChain.TryReorgDeep | chain/src/chain.rs:1524-1660 | keeps the chain up to the fork point and puts the branch on top, reporting the demoted ids, or on any fault leaves index, base, headers and scores as they were; full or light, the outcome is the specified one, a panic included |
| HeaderChains.DeepPanicsIff | chain/src/chain.rs:1524-1660 | on any linked chain a deep reorganisation panics exactly if the branch fits on the fork point and at some header, all before it being valid, the anchors make a divisor zero |
| HeaderChains.FullNeverPanics | chain/src/chain.rs:1524-1660 | on a valid full chain it never does |
| HeaderChains.FullTipNeverPanics | chain/src/chain.rs:1456-1522 | nor does the one-deep reorganisation |
| HeaderChains.LightChainPanics | chain/src/chain.rs:1083-1160 | a suffix of three headers with one timestamp that a light client installs, and a header whose reorganisation on top of it panics |
| HeaderChains.HeaderChain.Install | chain/src/chain.rs:1083-1160 | takes over a suffix as a light chain with the scores it reports, or leaves the empty chain empty |
| HeaderChains.HeaderChain.Validity | chain/src/chain.rs:340-1660 | a full chain held by the class is valid header by header, proof of work included |
| HeaderChains.HeaderChain.WorkOf | chain/src/chain.rs:1367-1411 | the score at each position is the work along that header's ancestry |
| HeaderChains.HeaderChain.VerifyLinkage | chain/src/chain.rs:1244-1320 | passes every chain built by these operations, cached or stored; of any other index, where the caches hold nothing the loader does not, it passes exactly if the last links up to the given depth, or all of them down to the base, are coherent, and otherwise reports the highest fault and what it is |
| HeaderChains.HeaderChain.StoredChainPasses | chain/src/chain.rs:1244-1320 | once the store has caught up the audit passes at every depth |
| HeaderChains.PassedShelfIsChain | chain/src/chain.rs:1244-1320 | an index that passes a full audit describes one linked chain with consecutive heights |
| Linkage.AuditDecides | chain/src/chain.rs:1244-1320 | the audit passes exactly the coherent indexes and otherwise reports the highest fault |
| Linkage.DeeperAuditsAgree | chain/src/chain.rs:1244-1280 | a deeper audit finds the same fault |
| Store.ModifierStore.PutBatch | store/src/redb.rs:433-514 | main-chain headers own their BEST_CHAIN slot and their rows are keyed by their own id |
| Store.ModifierStore.PutHeader | store/src/redb.rs:563-607 | a fork header takes a slot only if it is empty |
| Startup.BuildIndex | chain/src/chain.rs:286-333 | an index exactly of contiguous, distinct slots; otherwise the first gap or duplicate, a gap before a duplicate |
| Startup.RestoreIsExact | store/src/redb.rs:873-886 | a table that agrees with a chain is read back as that chain exactly when it has no slot below the base or above the tip |
| Startup.Restore | chain/src/chain.rs:286-333 | succeeds exactly for contiguous, distinct slots; the chain counts as a light one exactly if it starts above height one |
| Startup.Start | src/main.rs:2407-2604 | on any store the index is that of the slots and the verdict is right about the last 4096 links of what the store resolves them to; a store that holds a chain yields that chain, sound, with caches that serve it, and the audit passes |
| Backfill.Run | src/main.rs:2351-2400 | whenever it is killed, exactly the first slots have been written, each once and in order, a whole number of chunks of them |
| Backfill.Migrate | src/main.rs:2351-2400 | once the sentinel is set nothing is touched again; unless the process is killed it is set exactly if every row can be read, and only after the last slot was written; then the stored score of every header of the chain is the chain's own |
| Backfill.KilledRunsDoNotMatter | src/main.rs:2351-2400 | however often it was killed before, one complete run ends with the same scores |
| Backfill.BackfillIsScore | src/main.rs:2351-2400 | on the slots of a chain it computes the scores the chain itself keeps |
| Backfill.CompleteRunHoldsScores | src/main.rs:2351-2400 | after a complete run over a chain's slots the stored score of each of its headers is the chain's own, whatever was stored before |
| Requests.ParentRequests.ShouldRequest | src/pipeline.rs:42-52 | grants as specified and never exceeds the budget |
| Requests.NeverOverBudget | src/pipeline.rs:29-57 | at most three requests in flight, however questions and arrivals interleave |
| Requests.InFlightIff | src/pipeline.rs:29-57 | in flight is exactly what was granted, has not arrived and has not been seen to age |
| Requests.GrantedIff | src/pipeline.rs:42-52 | a request is granted exactly when, by the history, its id is not being waited for and fewer than three are; refused questions cost nothing |
| Requests.AgedOutIsGranted | src/pipeline.rs:42-52 | once every granted request has aged the next is granted |
| Branches.FindForkSound | src/pipeline.rs:127-183 | what the walk returns is a linked branch of stored headers from just above a header of the chain |
| Branches.FindForkComplete | src/pipeline.rs:127-183 | every such branch that is short enough is found, and there is only one |
| Intake.AppendedWhole | src/pipeline.rs:349-404 | a batch whose headers each extend the chain and the ones before, and that no orphan waits for, is appended whole and changes nothing else |
| Intake.ValidBatchAppended | src/pipeline.rs:349-404 | that is so for every batch that makes a valid chain of what a full node has |
| Intake.ChosenIff | src/pipeline.rs:406-505 | a batch calls for a reorganisation onto a fork exactly if that is the first one that a header of the batch, when its turn came, made preferable |
| Intake.TakenPrefers | src/pipeline.rs:406-505 | with nothing chosen before, a header off the chain makes its fork the chosen one exactly if its ancestry carries more work than the tip and either its parent is on the chain, below the tip and just below it, or its parent has a score and a linked branch of at most 1000 stored headers leads from the chain to it |
| Intake.AppendsHeader | src/pipeline.rs:360-404 | a header that may come next is appended, then only headers that were waiting, and nothing that is stored changes |
| Intake.StoresFork | src/pipeline.rs:406-445 | a fork of the chain is stored with a score, takes a slot and is no longer asked for; nothing else changes |
| Intake.StoresOnFork | src/pipeline.rs:446-511 | so is a header on a stored fork |
| Intake.AwaitsParent | src/pipeline.rs:512-546 | a header with an unknown parent waits under the parent's id, and the parent is asked for within the budget |
| Intake.AwaitsFirst | src/pipeline.rs:548-554 | on an empty chain a header that does not claim to be the first waits, and nobody is asked |
| Intake.Drops | src/pipeline.rs:555-557 | a child of the tip that may not follow it, a fork at the wrong height and a false genesis leave no trace |
| Ledgers.LedgerReorg | src/pipeline.rs:565-628 | writing the branch of a reorganisation makes its slots the branch's and disturbs none below |
| Ledgers.LedgerFlush | src/pipeline.rs:659-685 | writing what is left brings BEST_CHAIN, headers and scores in step with the whole chain |
| Ledgers.ForkImproves | src/pipeline.rs:406-445 | storing a fork header hides nothing the loaders served |
| Pipelines.ValidationPipeline.AssembleFork | src/pipeline.rs:127-183 | the branch of the specification, none more, and exactly it while reads fit |
| Pipelines.ValidationPipeline.ForkFrom | src/pipeline.rs:406-445 | stores the fork with its work as score and chooses it exactly if it carries more work than the chain and nothing was chosen before |
| Pipelines.ValidationPipeline.ExtendFork | src/pipeline.rs:446-505 | the same for a header on top of a stored fork |
| Pipelines.ValidationPipeline.Drain | src/pipeline.rs:380-404 | offers the waiting children one after the other as specified; afterwards no buffered header's parent is on the chain if none was before |
| Pipelines.ValidationPipeline.Handle | src/pipeline.rs:349-559 | one header: does exactly what the specification says and keeps every invariant of the batch |
| Pipelines.ValidationPipeline.Partition | src/pipeline.rs:659-668 | splits what was appended at the fork point, keeping order |
| Pipelines.ValidationPipeline.ExecuteReorg | src/pipeline.rs:565-628 | the reorganisation happens exactly if the chain accepts it, and leaves no slot outside the chain exactly if none was there before and the branch ends no lower than the old tip |
| Pipelines.ValidationPipeline.Purge | src/pipeline.rs:633-644 | drops exactly what is at or below the tip |
| Pipelines.ValidationPipeline.ProcessHeaders | src/pipeline.rs:269-732 | one batch does what `TakenAll` and `Final` say, header by header, and the reorganisation that was chosen happens exactly if the chain accepts it; BEST_CHAIN, headers and scores end in step with the chain; the branch that took over had more work than the chain when it was chosen, and the tip's score is that work; scores are work and a full chain is valid; it panics exactly if the chosen reorganisation does, so never on a full chain; which slots exist, and exactly when none lies outside the chain. All of it whenever the batch is `Snug` |
| Pipelines.ValidationPipeline.IdleSlots | src/pipeline.rs:646-685 | between batches every slot from the base to the tip names the chain's header at that height, and its row and score are there |
| Pipelines.ValidationPipeline.IdleRows | src/pipeline.rs:646-685 | no header row is ever lost, and every header of the chain has one |
| Pipelines.ValidationPipeline.ReadBack | src/bridge.rs:104-106 | between batches any heights may be read, in any number, with exact answers and without any effect on the next batch |
| Pipelines.ValidationPipeline.ReadBackIff | store/src/redb.rs:873-886 | a restart reads BEST_CHAIN as this chain exactly when no slot lies outside it |
| Pipelines.ValidationPipeline.SurvivesRestart | src/main.rs:2407-2604 | then it finds the same chain with the same scores |
| Pipelines.NoneStranded | src/pipeline.rs:565-685 | a slot lies outside the chain after a batch exactly if one did before, or a fork header took one, or a reorganisation made the chain shorter |
| Pipelines.ShorterReorgStrandsSlots | src/pipeline.rs:565-685 | a reorganisation that ends below the old tip always leaves a slot outside the chain |
| Pipelines.ForkWithinIff | store/src/redb.rs:563-607 | storing a fork header leaves no slot outside the chain exactly if none was there before and its slot was taken or lies between base and tip |
| Pipelines.ReorgWithinIff | src/pipeline.rs:565-685 | the same for writing a reorganisation: exactly if the branch ends no lower than the old tip |
| Stranding.FreshNode | src/pipeline.rs:269-732 | a new node that receives one batch of six valid headers ends with a chain of three and a slot at height four |
| Stranding.Outcome | src/pipeline.rs:349-559 | why: the fork of two is chosen while the chain has two headers, and is carried out when it has four |
| Pipelines.RestartAndProcess | src/main.rs:2407-2604 | start-up, pipeline and first batch composed: from a store that holds a chain, with caches of the right size, the batch does what the specification says from that chain, and every promise of the batch holds |
| Sections.SectionIdFromBody | chain/src/section.rs:213-262 | the id its own bytes give, read field by field and transaction by transaction, and nothing if a byte is missing or left over |
| Sections.ExtensionBinds | chain/src/section.rs:55-74 | a body made of a header's extension fields gets the id the header's extension root gives |
| Sections.ProofsBind | chain/src/section.rs:55-74 | the same for proofs |
| Sections.TransactionsBind | chain/src/section.rs:213-262 | and for transactions, of every block version, whatever writes transactions that can be read back |
| Sections.NoTransactionsNoIdentity | chain/src/section.rs:232-234 | a block without transactions has no id |
| Sections.NothingBehindTransactions | chain/src/section.rs:258-262 | transactions with anything behind them have no id |
| Sections.NothingBehindProof | chain/src/section.rs:258-262 | nor has a proof |
| Sections.SectionStore.BindAndStore | src/pipeline.rs:744-807 | stores exactly what binds to its id for a header on the chain or in the store, and reports only what it stored |
| Sections.SectionStore.Bind | src/pipeline.rs:756-800 | a section binds exactly if its bytes give the id it was delivered under and its header is on the best chain or stored |
| Sections.SectionStore.ProcessBatch | src/pipeline.rs:213-261 | the headers that parse and have their proof of work go to the pipeline lowest first, which does with them what the specification says, and all of them are reported; then the sections: exactly those that bind are stored and reported, and every stored section still parses, has its own id and names a stored header, whatever the headers did to the chain |
| Sections.ByHeight | src/pipeline.rs:333-334 | the headers of a batch, lowest first, and at each height in the order they came |
| CatchUp.SelectAnchors | chain/src/sync_info.rs:39-80 | announces only headers of the chain, and the specified ones while reads fit |
| CatchUp.AnnouncedIff | chain/src/sync_info.rs:11-80 | those are the headers 0, 16, 128 and 512 below the tip, as far as the chain goes |
| CatchUp.PartedLately | src/bridge.rs:74-102 | a peer that parted from us at most 512 headers below its tip always gets an answer, from there or from higher up |
| CatchUp.KnownIffShared | src/bridge.rs:74-102 | of another chain a node knows exactly the headers from where the two overlap to where they part |
| CatchUp.ServedFromHighestShared | src/bridge.rs:74-102 | a peer is served what follows its highest announced header that is shared, nothing if none is, wherever the two chains start |
| CatchUp.CatchesUp | src/bridge.rs:74-102 | a peer that is behind, full or light, reaches the tip with the first round that covers the gap and no earlier, having exactly what it was served, for any number of ids per round (400 in sync/src/state.rs) |
| SyncWire.RoundTrip | chain/src/sync_info.rs:39-157 | up to 50 headers of up to 1000 bytes arrive as they were sent |
| SyncWire.TooManyAreRefused | chain/src/sync_info.rs:130-137 | more headers are refused |
| SyncWire.TooLargeIsRefused | chain/src/sync_info.rs:139-150 | so is a larger header, wherever in the message it is |
| SyncWire.OldForm | chain/src/sync_info.rs:102-118 | the old form is a count and as many ids of 32 bytes, up to 1001 of them |
| PeerRecords.EncodeRecord | src/peer_storage_adapter.rs:54-81 | writes what the specification writes, field by field |
| PeerRecords.DecodeRecord | src/peer_storage_adapter.rs:83-113 | the cursor reads what the specification reads |
| PeerRecords.RoundTrip | src/peer_storage_adapter.rs:54-113 | a record within its limits reads back as itself, and without the last field as hearsay |
| PeerRecords.AnyRoundTrip | src/peer_storage_adapter.rs:54-113 | any record reads back as what the format has room for: 65535 bytes of each name and each feature, and 255 features |
| PeerRecords.OnlyLegacyPrefixReads | src/peer_storage_adapter.rs:83-113 | of all truncations of a row only the one that stops where older rows did can be read |
| Nipopow.ParseProof | src/nipopow_serve.rs:140-175 | the parser does what the specification says, fault by fault |
| Nipopow.OpensIff | src/nipopow_serve.rs:140-187 | a proof comes out of its envelope exactly when it has 1 to 1,999,996 bytes |
| Nipopow.ProofIff | src/nipopow_serve.rs:140-175 | a body holds a proof exactly if it has at most 2,000,000 bytes and is a length from 1 to 1,999,999, as many bytes, a pad length and no fewer bytes than that |
| Codec.VlqRoundTrip | chain/src/section.rs:315-334 | a variable-length number reads back as itself |
| Codec.TooLargeIsRefused | chain/src/section.rs:315-334 | a number beyond its width is refused |
| Codec.OverlongIsRefused | chain/src/section.rs:315-334 | so is one that does not end within ten bytes |
| Codec.Cursor.TakeVlq | chain/src/section.rs:315-334 | the cursor reads a number exactly as the specification does and moves past it |
| Family.PropagateFamilyWeight | mempool/src/family.rs:13-58 | every ancestor is lent the weight at most once per path, with at most 500 visits, and exactly once per path if and only if there are at most 500 paths |
| Family.AddedAtMost | mempool/src/family.rs:13-58 | in all a child never lends more than 500 times its weight |
| Latch.OneWinner | mining/src/lib.rs:592-613 | without a block, of any number of handlers in any interleaving at most one is accepted |
| Latch.AtMostOneAccepted | mining/src/lib.rs:592-648 | between blocks too, unless a block interrupts a submission |
| Latch.OwnedIff | mining/src/lib.rs:592-648 | the latch is always with whoever holds a claim or was accepted exactly if no block interrupts a submission |
| Latch.InterruptedSubmission | mining/src/lib.rs:607-610 | wherever a block does, two handlers that have only arrived can both still be accepted before the next block |
| Latch.InterruptedRun | mining/src/lib.rs:607-610 | such a run, with three handlers and one block |
| Latch.HandOffIsOwn | api/src/handlers.rs:1387-1418 | a block is handed to the submitter only under the handler's own claim, unless a block interrupts |
| Latch.FreeUnlessAccepted | mining/src/lib.rs:592-648 | the latch is never left closed with nobody accepted and nobody submitting |
| Config.MergeConfigTable | src/main.rs:1855-1894 | merges as specified, table by table |
| Config.AdditiveIff | src/main.rs:1827-1860 | additive are `seed_peers_add`, `include_ips_add` and `exclude_ips_add`, and no other keys |
| Config.NothingAdditiveSurvives | src/main.rs:1855-1909 | no `_add` key of an additive field is left in any table of the document that is not inside an array |
| Config.OrdinaryKey | src/main.rs:1855-1894 | an ordinary key has the value of the last layer that sets it |
| Config.AdditiveKeyFrom | src/main.rs:1855-1909 | an additive list is the last bare array and all `_add` arrays from that layer on, in file order |
| Config.AdditiveKeyAlone | src/main.rs:1896-1909 | without a bare array it is all the `_add` arrays, and absent if there are none |
| Config.LayersMeet | src/main.rs:1855-1894 | at every table depth the document is the layering of what the layers say there |

## Findings

Properties one might expect and the code does not have, each with the exact condition.

- At most one accepted solution between two blocks (mining/src/lib.rs:592-648, api/src/handlers.rs:1387-1418).
  A failed submission releases the latch unconditionally (mining/src/lib.rs:607). If a block was applied
  during that submission, the latch may by then belong to another handler's accepted solution, and a third
  one is let in. `Latch.InterruptedRun` is the run, with three handlers and one block;
  `Latch.InterruptedSubmission` shows that every interruption can go this way; `Latch.OwnedIff` that
  interruptions are the only way.
- BEST_CHAIN holds exactly the slots of the chain (src/pipeline.rs:565-685, store/src/redb.rs:563-607).
  A fork is compared with the chain as it is when the fork's header arrives; what the same batch appends
  afterwards does not call the reorganisation off. `Stranding.FreshNode` is such a batch, six headers received by a
  new node: the chain ends at height three and the slot at height four stays behind, so that a restart reads back
  something else (`ReadBackIff`). Writing a reorganisation leaves no slot outside the chain exactly if the branch ends
  no lower than the old tip (`ExecuteReorg`, `ReorgWithinIff`), storing a fork header exactly if its slot was taken or
  lies between base and tip (`ForkWithinIff`), and nothing else can (`ProcessHeaders`, `NoneStranded`).
- A reorganisation returns (chain/src/chain.rs:1524-1660, chain/src/difficulty.rs:127-226). Light clients install
  headers with links and proof of work only, so that two anchors can have one timestamp, and a reorganisation that
  recalculates from them divides by zero. `HeaderChains.LightChainPanics` is such a chain,
  `HeaderChains.DeepPanicsIff` with `Adjustment.DividesByZeroIff` says exactly when it happens, and
  `HeaderChains.FullNeverPanics` that it does not on a full chain.
- The next difficulty of a valid chain is defined (chain/src/difficulty.rs:17-68). Not where an EIP-37 epoch starts
  with no earlier anchor on the chain, and everywhere else (`ChainProofs.ReachableDifficulty`).
- A light chain stays a light chain over a restart (chain/src/chain.rs:286-333). Only if it starts above height
  one (`Startup.Restore`).

Where code and documentation disagree the model follows the code: store/README.md says that scores written by
`put_batch` are empty, while store/src/redb.rs:433-514 stores the real ones; src/main.rs says of `restore` that it
fills a score table, while chain/src/chain.rs:286-333 fills the index only.

## Left out

- Machine integers: heights, timestamps, scores and difficulties are unbounded; the wrap at height zero in the fork walk, the byte and word widths of the codecs and the truncation of big-integer division are modelled.
- Proof of work, votes, compact nBits encoding, header serialization, Merkle roots and transaction parsing are arbitrary functions of the rules; what is proved holds for all of them.
- The clock and the vote gate are arbitrary readings, one per call; the time budget of the family walk and the moment a process is killed are arbitrary as well.
- Store writes succeed; a failing `put_batch` or `put_header` is only logged by the source.
- The HEADER_FORKS table and the numbering of forks in it, and the height index of sections.
- Channels and notifications: evicted ids, progress, penalties, and the request that a granted parent request sends.
- Voting parameters, epoch boundaries, UTXO and digest state, block execution, the HTTP interface and the peer manager.
- The request half of the NiPoPoW exchange, whose integers are written by another crate; the variable-length numbers are written out here.
- Pipelines.ValidationPipeline.ProcessHeaders: what a batch does is promised exactly when everything it looks at can be read back, which `Snug` ensures; otherwise only the invariants are.
- Pipelines.ValidationPipeline.SurvivesRestart: asks that a light chain starts above height one, because the restored chain is otherwise a full one.
- Sections.SectionIdFromBody: a single transaction is read by an arbitrary reader; round trips are proved for extensions and proofs.
- Simple accessors, configuration of limits, logging and memory estimates would only add easy members.
