# VeloDAG consensus: a verified model

This project models the consensus engine of a VeloDAG node and proves what every run of it keeps: GHOSTDAG
colouring and fork choice, the ledger and its money supply, block ingestion with orphan replay, the mining tick,
restart from storage, sync responses and difficulty adjustment.

## How it is built

The block graph is `map<Hash, seq<Hash>>` (`Dag`), and the past of a block is reachability along parents. Everything
GHOSTDAG computes for a block is one function, `Colouring.Step`, and a cache is `Consistent` with a store when every
entry is exactly what `Step` gives; `Colours` restates that by sets and hash order alone. The class `Ghostdag.GhostdagManager` runs the worklists and loops of the source
and each method is proved equal to its specification function; the lemmas speak about those functions. The same
pattern holds elsewhere:

- `LedgerRules` gives transactions and blocks their meaning on values; `LedgerObjects` updates maps in place and agrees.
- `Validation`, `NodeRules`, `Turns`, `Mining` and `Runs` give one node as a state machine (`Ingest`, `ReplayOrphans`,
  `MineTick`, `Restarted`, `Run`) with an invariant `Inv` in the contract of every step; `NodeObjects.Node` is the
  object that runs it. A run is any sequence of received blocks, mining ticks and restarts.
- `Arrival`, `Restart` and `Startup` cover orders of arrival and the startup replay.
- `Solvency` says exactly when a replay succeeds, as a condition on the sequence of payments that mentions no ledger:
  every transfer is positive, new, carries its sender's running number and is covered, fee included, by what came
  before it. `Convergence` uses it for what two nodes agree on.
- `Emission`, `SupplyBound`, `Replay`, `Chain` and `HeldSupply` carry the money results, `Merkle` the block commitment,
  `Difficulty`, `Window` and `Retargeting` the target, `Orphans` and `Sync` the pool and the sync answer.
- `Divergence` and `WideRun` exhibit runs of the node in which a documented promise fails. They use a block hash that
  is written out and proved to bind headers (`TableHash`), and the deployed difficulty parameters, for every k.

Hashes and addresses are natural numbers, ordered as their bytes are. Transaction digests are the terms that produced
them, which makes hashing collision-free; block hashing, signature checks and the clock are arbitrary functions in
`Config`. `HashBinds` (equal block hashes, equal headers) is assumed only of runs that mine. 64-bit and 128-bit
limits are written out wherever the source checks, saturates, wraps, shifts or divides. Every lemma carries
`{:induction false}`, so that each induction is the one written down, and `hide` keeps definitions a proof does not
need away from the solver.

## Where the code and its documentation part

- **Replay order.** `get_linear_sort` is said to read "from Genesis onwards" (vdag-consensus/src/ghostdag.rs:220).
  The walk appends a chain block after its own blues and reds and the result is reversed, so the tip precedes its
  own selected parent. The order is parents-first exactly for a tip without parents (`ParentsFirstIffNoParents`).
- **Recomputed ledger.** Failure to recompute is called a consistency bug (vdag-node/src/network.rs:544-547). Recomputing
  from a tip succeeds exactly when the payments of its order are payable (`RecomputesIff`), and since the tip comes
  first, valid chains are refused: on every node, mining a block and then one that spends its reward gives a tip
  that cannot be recomputed (`ValidChainFailsReplay`). The node then keeps its incrementally applied ledger.
- **Convergence.** Every node is said to converge to the identical ledger for the identical DAG, regardless of arrival
  order (vdag-consensus/src/ghostdag.rs:271-290). Colours, tip, order and the replay's result do converge
  (`ArrivalOrderIndependence`), and the ledger held does whenever the canonical order is payable (`RunsConverge`). It
  does not otherwise: `ArrivalOrderDecidesLedger` gives three blocks and two parent-first orders of arrival that leave
  one store and two ledgers. In every run the ledger is a function of the order in which blocks were stored, and its
  total is the canonical supply at the last moment that recomputed plus what was stored since (`HeldTotalSplits`).
- **k-cluster.** `can_be_blue` bounds the anticones of the blocks already blue but not the candidate's own
  (vdag-consensus/src/ghostdag.rs:143-174). Blue sets are k-clusters in every store exactly when k is 0
  (`ClustersIffZero`), and a given block's exactly when each candidate accepted on its selected chain was narrow
  (`BlueSetClusterIff`); what holds for every k and block is the bound on later entries (`ConsistentColours`).
- **Supply cap.** VeloDAG_Tokenomics.md calls the cap of 21,000,000 VDAG enforced by the halving schedule. The schedule
  pays per height, and every block at a height is paid. What a tip and its past mint equals the schedule if and only
  if no two of these blocks share a paying height (`MintedIffOnePerHeight`); a run that receives two blocks at each of
  126,145,001 heights ends above the cap (`WideDagExceedsLimit`).
- **Commitment.** The root is said to commit to exactly the transactions (vdag-consensus/src/lib.rs:165). For different
  identifiers it binds the list if and only if the list is empty or its length is a power of two
  (`RootBindsIffFullTree`). Together with the ledger's duplicate check it always binds (`CommitmentBindsTransactions`).
- **Difficulty.** The window is meant to be the most recent blocks (vdag-consensus/src/daa.rs:29). It holds the tip
  exactly when it is larger than the number of blocks the tip colours (`TipInWindowIff`); otherwise it is the lowest
  hashes among those (`MeasuredTime`), on a tip with no red below it the lowest of its whole past (`RedFreeWindow`).
  One window is said never to swing the target by more than 4x (vdag-consensus/src/daa.rs:44-45). Upwards that holds;
  downwards it holds exactly for expected times of at most three seconds or a multiple of four (`QuarterKeptIff`), so
  for the deployed three seconds but not for seven, where a seventh can be left (`SeventhAndQuarter`). A high half
  that reaches zero stays there until a restart (`SpentIsFinal`), and fast blocks bring it there under the deployed
  parameters from any target (`DeployedTargetsReachZero`), in a run after 130 blocks (`WideRunSpends`).
- **Mining tick.** It neither compares the clock with the tip's timestamp nor wakes orphans that wait for the block it
  mines; `MinedBlockAndGossip` says exactly when the two receiving-side invariants survive a tick.
- **Restart.** The target after a restart is the one the last loaded block declares. That can differ from the one the
  node last computed (`RestartLosesTarget`); right after storing the block that is last by height it is the same
  exactly when storing that block did not retarget (`RestartKeepsTargetIff`).

## Model

| member | source | states |
|---|---|---|
| `Ghostdag.GhostdagManager.GetPastSet` | vdag-consensus/src/ghostdag.rs:177-193 | The breadth-first search terminates on any store, even one with missing parents, and returns exactly the blocks reachable along parents, the start itself left out unless reachable from itself. |
| `Ghostdag.GhostdagManager.FindAnticone` | vdag-consensus/src/ghostdag.rs:103-140 | The pruned search lists, without repetition, exactly the past of the new block minus the selected parent and its past, although it never walks into that past. |
| `Ghostdag.GhostdagManager.CanBeBlue` | vdag-consensus/src/ghostdag.rs:143-174 | True exactly when no blue block in the candidate's anticone already has k blue blocks in its own; `ColoursExactly` says what that makes of a block. |
| `Ghostdag.GhostdagManager.InheritBlues` | vdag-consensus/src/ghostdag.rs:60-70 | The blues a block starts from: its selected parent, then that parent's blues in order, without repetition. |
| `Ghostdag.GhostdagManager.ColourCandidates` | vdag-consensus/src/ghostdag.rs:75-85 | The loop computes the greedy colouring of the sorted candidates, each judged against the blues accepted so far. |
| `Ghostdag.GhostdagManager.CalculateGhostdagData` | vdag-consensus/src/ghostdag.rs:33-100 | On any store the method computes `Step`: genesis data for no parents, otherwise selected parent, inherited blues, coloured sorted anticone and score. |
| `Ghostdag.GhostdagManager.Insert` | vdag-node/src/network.rs:589-596 | Changes just these two entries; a new block with stored parents and its own data keeps the whole cache consistent. |
| `Ghostdag.GhostdagManager.GetLinearSort` | vdag-consensus/src/ghostdag.rs:196-222 | The walk down the selected chain ends and yields the linear order. |
| `Ghostdag.GhostdagManager.RecomputeLedger` | vdag-consensus/src/ghostdag.rs:291-301 | Replays the order on an empty ledger and gives the ledger or the first error of the replay; `RecomputeComesTo` says what that ledger holds. |
| `Ghostdag.GhostdagManager.CanonicalBlockOrder` | vdag-consensus/src/ghostdag.rs:307-312 | The stored blocks of the order, in that order. |
| `Ghostdag.GhostdagManager.ComputeTips` | vdag-consensus/src/ghostdag.rs:230-242 | For any iteration order of the map: exactly the stored blocks nobody names as a parent, each once. |
| `Ghostdag.GhostdagManager.SelectCanonicalTip` | vdag-consensus/src/ghostdag.rs:267-269 | Choosing among the tips yields the best block of the whole store. |
| `Dag.InsertKeepsDag` | vdag-consensus/src/ghostdag.rs:177-193 | Inserting a fresh block whose parents are known keeps the graph acyclic and closed and changes the past of no existing block. |
| `Colouring.SelectedParent` | vdag-consensus/src/ghostdag.rs:49-55 | A cached parent that no cached parent outscores; none exactly when no parent is cached. |
| `Colouring.SelectedParentIsLast` | vdag-consensus/src/ghostdag.rs:49-55 | Among cached parents of equal, highest score the one listed last wins. |
| `Colouring.AcceptKeepsBlueAnticones` | vdag-consensus/src/ghostdag.rs:143-174 | An accepted candidate leaves every blue block in its anticone with at most k blue blocks in its own, and changes the count of no other blue block. |
| `Colouring.ConsistentColours` | vdag-consensus/src/ghostdag.rs:60-86 | For every cached block: blues and reds are duplicate-free, disjoint and in its past; every entry of `blues` has at most k later entries in its anticone; the selected parent and its blues are a prefix; blues and reds are exactly these and the merged blocks. |
| `Colours.ColoursExactly` | vdag-consensus/src/ghostdag.rs:60-86 | The colours of every cached block, by sets and hash order alone: inherited blues first; of what it merges, ascending, a block is red if and only if some blue held at that point lies in its anticone and has k blues held at that point in its own. |
| `Colours.RedHasReason` | vdag-consensus/src/ghostdag.rs:143-174 | Every red block has in its anticone a blue block with at least k blue blocks in its own. |
| `Colouring.MergedIsAnticone` | vdag-consensus/src/ghostdag.rs:103-140 | What a block merges is exactly the part of its past in the anticone of its selected parent: no ancestor and no descendant of it. |
| `Colouring.ColourPartition` | vdag-consensus/src/ghostdag.rs:60-86 | The past of a block is the disjoint union of its blues and the reds of the block and of all its selected chain. |
| `Colouring.ColourStability` | vdag-consensus/src/ghostdag.rs:60-86 | A block on the selected chain is blue to everything built on it, and every block of its past keeps its colour. |
| `Colouring.AcceptKeepsCluster` | vdag-consensus/src/ghostdag.rs:143-174 | An accepted candidate keeps a k-cluster if and only if it has itself at most k blue blocks in its anticone, which the check does not ask. |
| `Cluster.ColourClusterIff` | vdag-consensus/src/ghostdag.rs:75-85 | The greedy pass ends in a k-cluster if and only if it starts with one and every candidate it accepts has at most k blue blocks in its anticone at that moment. |
| `Cluster.BlueSetClusterIff` | vdag-consensus/src/ghostdag.rs:60-86 | The blue set of any cached block is a k-cluster if and only if that is so at the block and at every block of its selected chain. |
| `Colouring.PastDeterminesData` | vdag-consensus/src/ghostdag.rs:33-100 | Two nodes that agree on what lies below a block cache identical data for it, whatever else they hold. |
| `Colouring.ConsistentUnique` | vdag-consensus/src/ghostdag.rs:33-100 | A store has only one consistent cache. |
| `Colouring.ConsistentExists` | vdag-consensus/src/ghostdag.rs:33-100 | Every acyclic, parent-closed store has one. |
| `Colouring.InsertKeepsConsistent` | vdag-consensus/src/ghostdag.rs:33-100 | Colouring a fresh block never invalidates what is cached for older ones. |
| `Colouring.ScoreGrows` | vdag-consensus/src/ghostdag.rs:88-99 | The blue score grows strictly along every parent edge, not only along selected ones. |
| `Colouring.ScoreGrowsDeep` | vdag-consensus/src/ghostdag.rs:88-99 | It grows strictly from every ancestor to every descendant. |
| `Colouring.ScoreBound` | vdag-consensus/src/ghostdag.rs:88-99 | A block with n blocks in its past scores at most n(n+1)/2. |
| `Colouring.ScoreFitsU64` | vdag-consensus/src/ghostdag.rs:88-99 | The 64-bit score cannot overflow with up to 6 x 10^9 blocks in the past. |
| `Cluster.ClusterFails` | vdag-consensus/src/ghostdag.rs:143-174 | For every k >= 1, a line of k+1 blocks with a side block merged late: the result is not a k-cluster. |
| `Cluster.ClustersIffZero` | vdag-consensus/src/ghostdag.rs:143-174 | Every blue set of every store is a k-cluster if and only if k is 0. |
| `ForkChoice.SelectBestTip` | vdag-consensus/src/ghostdag.rs:250-262 | The cached candidate with the highest score, lowest hash on ties; none exactly when no candidate is cached. |
| `ForkChoice.TipsDecide` | vdag-consensus/src/ghostdag.rs:230-269 | Choosing among the tips, listed in any order, is choosing the best block of the store. |
| `ForkChoice.CanonicalTipIff` | vdag-consensus/src/ghostdag.rs:250-269 | A block is the canonical tip if and only if no stored block has a higher blue score and none of the same score a lower hash. |
| `ForkChoice.InsertMovesTip` | vdag-consensus/src/ghostdag.rs:250-269 | A new block becomes the canonical tip exactly when it beats the old one; otherwise the tip stays. |
| `LinearOrder.ExactlyOnce` | vdag-consensus/src/ghostdag.rs:196-222 | The linear order lists the tip and every block of its past exactly once, and nothing else. |
| `LinearOrder.TipBeforeColoured` | vdag-consensus/src/ghostdag.rs:202-220 | The tip is listed before every block it colours. |
| `LinearOrder.ParentsFirstIffNoParents` | vdag-consensus/src/ghostdag.rs:202-220 | The order lists parents before children if and only if the tip has no parents. |
| `LinearOrder.OrderInClosedForm` | vdag-consensus/src/ghostdag.rs:202-220 | The order of every tip in closed form: read from the end, its own blues and reds ascending, the tip, then the reds of each lower chain block ascending. |
| `LinearOrder.OrderWithoutReds` | vdag-consensus/src/ghostdag.rs:202-220 | Without a red block below it the order is the tip followed by its past by descending hash. |
| `Arrival.ArrivalOrderIndependence` | vdag-consensus/src/ghostdag.rs:33-301 | Two parent-first insertion orders of the same blocks give the same store, cache entries (list orders included), canonical tip, linear order and recompute result for every tip. |
| `Arrival.SameTipSameLedger` | vdag-consensus/src/ghostdag.rs:271-301 | Two nodes that share a tip and its past order it alike and get the same recompute result, whatever else they hold. |
| `Emission.ApplyDevTaxSplit` | vdag-consensus/src/lib.rs:234-238 | The two shares add up to the amount, and the treasury's is 5 percent rounded down. |
| `Emission.CalculateSubsidySplit` | vdag-consensus/src/lib.rs:201-228 | The shares at any height add up to the halved subsidy, including the cutoff at 64 eras, with 5 percent rounded down for the treasury. |
| `Emission.SubsidyIsQuotient` | vdag-consensus/src/lib.rs:201-228 | The subsidy at every height is the initial reward divided by two to the power of the era, rounded down, for 64 eras, and nothing afterwards. |
| `Emission.FeeDistribution` | vdag-consensus/src/lib.rs:245-250 | Of the flat fee 48 units go to the miner, 2 to the treasury and 50 are burned. |
| `Emission.RewardEnds` | vdag-consensus/src/lib.rs:201-228 | The subsidy is zero exactly from era 17 on. |
| `Emission.IssuanceClosedForm` | vdag-consensus/src/lib.rs:201-228 | What heights 1 to n pay, in closed form over full eras and the running one. |
| `Emission.SupplyCap` | vdag-consensus/src/lib.rs:201-228 | One block per height pays at most 20,999,065,452,762 units at any height, below 21,000,000 x 10^6; that limit is met exactly from the last rewarded height on. |
| `LedgerRules.TransactionMoves` | vdag-consensus/src/lib.rs:372-414 | What an applied transaction does to every address's balance and nonce, with the contributions added up when sender, recipient, miner and treasury coincide. |
| `LedgerRules.AppliesIff` | vdag-consensus/src/lib.rs:351-415 | While the supply fits 64 bits a transaction applies if and only if it is new, positive, carries the next nonce and is covered with its fee: overflow branches are unreachable. |
| `LedgerRules.RefusalReasons` | vdag-consensus/src/lib.rs:360-388 | While the supply fits 64 bits, exactly when a transaction is refused for each of the five reasons that can occur. |
| `LedgerRules.TransactionConserves` | vdag-consensus/src/lib.rs:351-415 | An applied transaction lowers the supply by exactly the burned 50 units for every aliasing; while the supply fits 64 bits no credit overflows and a refused one leaves balances and nonces alone. |
| `LedgerRules.BlockConserves` | vdag-consensus/src/lib.rs:279-342 | An applied block changes the supply by its subsidy less 50 units per transaction, and genesis by nothing. |
| `LedgerRules.BlockRefusals` | vdag-consensus/src/lib.rs:284-339 | For which reason a block is refused: its shape at height 0, its reward, its treasury address, its transactions, and only then an overflow of the reward. |
| `LedgerRules.FirstRefusal` | vdag-consensus/src/lib.rs:303-314 | A list of transactions fails at its first one that does not apply, with that one's reason. |
| `LedgerRules.AppliedIdsFresh` | vdag-consensus/src/lib.rs:360-363 | The transactions of an applied block are pairwise different and new, and exactly they become confirmed. |
| `LedgerRules.SelectedBlockApplies` | vdag-consensus/src/lib.rs:417-467 | A correctly rewarded block made of exactly the accepted candidates is accepted by the ledger from the same state, although the dry run keeps identifiers of refused candidates. |
| `LedgerRules.SelectExactly` | vdag-consensus/src/lib.rs:438-467 | One candidate at a time: it is accepted if and only if it is unlike every earlier candidate, refused ones included, and every confirmed transaction, moves something, and has the next nonce and the balance in the ledger the accepted ones leave. |
| `LedgerRules.SelectLosesNothing` | vdag-consensus/src/lib.rs:417-467 | Accepted and refused candidates together are the candidates, as multisets. |
| `LedgerObjects.WorkingCopy.TryApplyTransaction` | vdag-consensus/src/lib.rs:351-415 | Updating the four collections in place gives the same state and error as the rules, partial changes on an error included. |
| `LedgerObjects.LedgerState.ApplyBlock` | vdag-consensus/src/lib.rs:279-342 | All or nothing: the ledger after the block by the rules, or the error and an unchanged ledger. |
| `LedgerObjects.LedgerState.SelectAffordable` | vdag-consensus/src/lib.rs:438-467 | The loop over scratch copies returns the accepted list and the refused list with reasons, and changes nothing. |
| `Merkle.TransactionMerkleRoot` | vdag-consensus/src/lib.rs:141-163 | The layer loop computes the recursive root of the identifiers, the zero root for none. |
| `Merkle.RootListsIds` | vdag-consensus/src/lib.rs:148-161 | Read left to right, the leaves of a block's root begin with its identifiers and hold no other. |
| `Merkle.IdBinds` | vdag-consensus/src/lib.rs:131-136 | Identifiers agree if and only if sender, recipient, amount, nonce and proof do. |
| `Merkle.MerkleBinding` | vdag-consensus/src/lib.rs:141-163 | Duplicate-free identifier lists with the same root are the same list, even if their lengths could differ. |
| `Merkle.OddTailCollides` | vdag-consensus/src/lib.rs:150-151 | Repeating the last of an odd number (three or more) of identifiers never changes the root. |
| `Merkle.PartialTreeCollides` | vdag-consensus/src/lib.rs:148-161 | For every length that is not a power of two, a longer list of the same identifiers has the same root. |
| `Merkle.RootBindsIffFullTree` | vdag-consensus/src/lib.rs:141-168 | The root of different identifiers belongs to no other list of identifiers if and only if there are none or their number is a power of two. |
| `Merkle.CommitmentBindsTransactions` | vdag-consensus/src/lib.rs:166-168 | Two blocks with one root that pass the root check and that some ledger accepts carry the same identifiers in the same order. |
| `Replay.SupplyEquation` | vdag-consensus/src/ghostdag.rs:291-301 | After a successful recompute the balances sum to the subsidies of all non-genesis blocks in the past of the tip and the tip, less 50 units for each of their transactions. |
| `Replay.ReplayFirstError` | vdag-consensus/src/ghostdag.rs:291-301 | A failing replay stops at its first block that is missing or does not apply, with that block's error. |
| `Solvency.EntryStep` | vdag-consensus/src/lib.rs:351-415 | From the state that a sequence of payments leaves, the next one applies if and only if it is covered and no balance leaves 64 bits, and the state afterwards is that of the longer sequence. |
| `Solvency.BlockStep` | vdag-consensus/src/lib.rs:279-342 | A block applies if and only if it is well rewarded and its payments, reward last, pay one after the other. |
| `Solvency.ReplaysIff` | vdag-consensus/src/ghostdag.rs:291-301 | A replay on the empty ledger succeeds if and only if all blocks are stored and well rewarded and their payments in that order are payable, for any order and with no bound on the amounts. |
| `Solvency.SolventIffPayable` | vdag-consensus/src/lib.rs:351-415 | While the rewards together fit 64 bits nothing can overflow: payable means that each transfer is covered by what came before it. |
| `Solvency.RecomputesIff` | vdag-consensus/src/ghostdag.rs:291-301 | Recomputing from a tip succeeds if and only if its linear order is well rewarded and payable. |
| `Solvency.RecomputesIffSolvent` | vdag-consensus/src/ghostdag.rs:291-301 | The same with coverage alone while the subsidies of the tip and its past fit 64 bits. |
| `Solvency.RecomputeComesTo` | vdag-consensus/src/ghostdag.rs:291-301 | The recomputed ledger itself: for every address the balance its payments in the order come to and the number of transfers it sent as next nonce, and exactly their identifiers as confirmed. |
| `Solvency.BlockMoves` | vdag-consensus/src/lib.rs:279-342 | An applied block changes every balance, of any ledger, by what its own payments and reward move. |
| `Solvency.RedFreeRecomputesIff` | vdag-consensus/src/ghostdag.rs:291-301 | With nothing spent and nothing red below it, a tip can be recomputed if and only if it carries no transaction itself. |
| `Replay.TransactionInTipFails` | vdag-consensus/src/ghostdag.rs:291-301 | The case of the tip itself: with nothing red below it, a tip that carries a transaction can never be recomputed, whatever its past holds. |
| `Chain.ChainColours` | vdag-consensus/src/ghostdag.rs:57-99 | With one parent per block and heights in steps of one, a block at height n has n blues, no reds anywhere on its chain, and score n(n+1)/2. |
| `Chain.LongestChainRule` | vdag-consensus/src/ghostdag.rs:250-269 | On such stores fork choice is greatest height, lowest hash on ties, in both directions. |
| `Chain.ChainMints` | vdag-consensus/src/lib.rs:201-228 | On such stores a block and its ancestors mint what heights 1 to its own pay. |
| `Chain.ChainSupplyCap` | vdag-consensus/src/ghostdag.rs:291-301 | A successful recompute of any single-parent chain, with any transactions, leaves no more in circulation than the schedule pays, hence at most 20,999,065,452,762 units. |
| `HeldSupply.HeldWithinMinted` | vdag-node/src/network.rs:517-548 | After every run, replayed or not, the node holds at most what its stored blocks mint. |
| `HeldSupply.StoreMintsIffOnePerHeight` | vdag-consensus/src/lib.rs:201-228 | A whole store mints at least the schedule up to its highest block, and exactly that if and only if no two of its blocks share a paying height. |
| `HeldSupply.HeldCap` | VeloDAG_Tokenomics.md:64 | A run whose store has one block per paying height never holds more than 20,999,065,452,762 units, replayed or not. |
| `HeldSupply.SoloCap` | vdag-node/src/main.rs:356-459 | That bounds every run of a node that only mines and restarts. |
| `Chain.ChainTipWithTransactionFails` | vdag-consensus/src/ghostdag.rs:291-301 | On a single-parent chain a tip that carries a transaction can never be recomputed. |
| `Divergence.ValidChainFailsReplay` | vdag-consensus/src/ghostdag.rs:271-301 | On every node, the run that mines a block and then a block spending one unit of its reward ends with a canonical tip that cannot be recomputed, although replaying in the order of storing succeeds and gives the ledger held. |
| `Divergence.ArrivalOrderDecidesLedger` | vdag-consensus/src/ghostdag.rs:271-290 | For every k, two runs that receive the same three blocks in two parent-first orders end with the same store and with ledgers of different total. |
| `SupplyBound.MintedIffOnePerHeight` | vdag-consensus/src/lib.rs:201-228 | In every reachable state a tip and its past mint at least the schedule up to the tip's height, and exactly that if and only if no two of these blocks share a paying height. |
| `WideRun.WideDagExceedsLimit` | VeloDAG_Tokenomics.md:64 | For every k a run of received blocks from genesis, under the deployed difficulty parameters, ends with a recomputed ledger of more than 21,000,000 x 10^6 units. |
| `Solvency.CoinbaseReplays` | vdag-consensus/src/ghostdag.rs:291-301 | Well-rewarded blocks without transactions replay successfully in every order while the total fits 64 bits. |
| `Orphans.OrphanPool.Insert` | vdag-node/src/sync.rs:78-93 | Buffers the block under its missing parent unless the pool is full, and the counter stays the number of buffered blocks and within capacity. |
| `Orphans.OrphanPool.TakeReady` | vdag-node/src/sync.rs:98-106 | Removes and returns just the blocks that wait for the hash: returned and remaining blocks are what was buffered, and the counter stays exact. |
| `Orphans.InsertKeepsPool` | vdag-node/src/sync.rs:78-93 | Insertion keeps the counter exact and loses the block only when the pool is full. |
| `Orphans.InsertQueues` | vdag-node/src/sync.rs:78-93 | A block that finds room waits last in line for its parent, and no other line changes. |
| `Orphans.TakeKeepsPool` | vdag-node/src/sync.rs:98-106 | Taking returns the line that waited, in its order, keeps the counter exact, so its saturating subtraction never saturates, and touches no other line. |
| `Checks.CheckContent` | vdag-node/src/network.rs:350-424 | Size, coinbase, commitment, signatures, declared target and work, in this order, give the first fault. |
| `Checks.LookUpParents` | vdag-node/src/network.rs:437-462 | One pass returns the first unknown parent, or the tallest height and the latest timestamp of all parents. |
| `Checks.CheckPlacement` | vdag-node/src/network.rs:437-515 | The first unknown parent comes before every fault; then height, timestamp and clock drift give the first fault. |
| `Validation.FirstMissing` | vdag-node/src/network.rs:439-462 | An unknown parent, and none exactly when all parents are known. |
| `Validation.NoSecondGenesis` | vdag-consensus/src/lib.rs:253-294 | The coinbase check and the ledger's rule for height 0 exclude each other: what passes both is above height 0. |
| `Validation.AdmittedIff` | vdag-node/src/network.rs:342-521 | The checks admit exactly the acceptable blocks: new, within size, signed, committed to, of the node's target and work, on known parents, one above the tallest, timely, and accepted by the ledger. |
| `Validation.VerdictIff` | vdag-node/src/network.rs:342-521 | All four verdicts exactly: known when stored, waiting for a parent when sound in itself and that parent is the first unknown one, admitted when acceptable, refused otherwise. |
| `Validation.RefusedForFirst` | vdag-node/src/network.rs:350-521 | A refusal names something that is wrong with the block, and nothing that is checked earlier is. |
| `Validation.WorkIsByteOrder` | vdag-consensus/src/pow.rs:29-32 | The work check on 32-byte hashes is the byte-by-byte comparison with the target. |
| `Validation.LatestParent` | vdag-node/src/network.rs:447-451 | The timestamp a block must not precede is that of one of its parents. |
| `Validation.TallestParent` | vdag-node/src/network.rs:442-446 | The height a block must exceed by one is that of one of its parents. |
| `Validation.AdmittedIsPlaced` | vdag-node/src/network.rs:464-521 | An admitted block has parents, all known, is exactly one above the tallest (the height sum did not wrap), is not older than any of them, and is new. |
| `NodeRules.ExtendKeepsInv` | vdag-node/src/network.rs:527-552 | Storing a placed and well-rewarded block, recomputing the ledger and retargeting keep the node invariant: closed acyclic store, exact cache, heights, rewards, history order, canonical ledger. |
| `NodeRules.RecomputesIffPayable` | vdag-node/src/network.rs:536-548 | In every reachable state a tip can be recomputed if and only if the payments of its order are payable, rewards being right anyway; while the subsidies fit 64 bits coverage alone decides. |
| `NodeRules.Ingest` | vdag-node/src/network.rs:328-578 | The whole recursion through the orphan pool terminates (pool size as measure, a call adds at most one block) and keeps the invariant. |
| `NodeRules.ReplayOrphans` | vdag-node/src/network.rs:559-575 | Replaying any list of taken orphans keeps the invariant and the pool within what was taken out; `OrphanTurn` says what becomes of each. |
| `Turns.ArrivalEffect` | vdag-node/src/network.rs:342-575 | What one call does: a stored block is noted as known, a sound one waits for its first unknown parent unless the pool is full, an acceptable one is stored, and any other is noted as refused with the verdict of the checks. |
| `Turns.OrphanTurn` | vdag-node/src/network.rs:559-575 | Every orphan taken out is treated, in order, as if it had just arrived in the state those before it left, never meets a full pool, and if acceptable at its turn is stored on return. |
| `Turns.WaitingOrphanIsStored` | vdag-node/src/network.rs:559-575 | A stored block wakes exactly the orphans waiting for it, and each that is acceptable at its turn is in the store when the call returns. |
| `Turns.RunIsHonest` | vdag-node/src/network.rs:342-575 | After every run, what was noted as known is stored, and what was noted as accepted or mined is stored as it came. |
| `NodeRuns.IngestAccounts` | vdag-node/src/network.rs:439-575 | A received block and everything buffered end up buffered or finished, exactly once each; nothing is dropped for capacity unless the pool was full at the call. |
| `NodeRuns.ReplayAccounts` | vdag-node/src/network.rs:559-575 | No orphan taken out for replay is ever dropped for capacity when it is buffered again. |
| `NodeRuns.IngestKeepsGossip` | vdag-node/src/network.rs:328-578 | Afterwards nobody waits for a stored block, everybody waits for one of its own parents, timestamps are ordered along edges, and store and history have only grown. |
| `NodeRuns.HeightIsLongestPath` | vdag-node/src/network.rs:480-490 | In every reachable state a block's height is the length of its longest parent path, and a path of that length reaches genesis. |
| `NodeRuns.OnlyGenesis` | vdag-node/src/network.rs:464-479 | In every reachable state genesis is the only block without parents and the only one at height 0. |
| `NodeRuns.TimesOrderedDeep` | vdag-node/src/network.rs:492-500 | Timestamps never decrease from an ancestor to a descendant when they do not along single edges. |
| `Mining.MinedIsFresh` | vdag-node/src/main.rs:356-362 | A block built on the canonical tip has a hash that is not stored. |
| `Mining.MinedBlockApplies` | vdag-node/src/main.rs:365-404 | While next height and new supply fit 64 bits the ledger accepts the mined block, for any mempool batch. |
| `Mining.MinedTransactions` | vdag-node/src/main.rs:378-390 | The mined transactions, one candidate at a time: whatever is left out would have been refused at its place. |
| `Mining.MinedPayments` | vdag-node/src/main.rs:366-375 | Its payments are those of its transactions and the subsidy of the next height, to the miner and the treasury. |
| `Mining.MinedBlockAdmitted` | vdag-node/src/main.rs:356-412 | A peer in the miner's state admits the mined block, given only work, valid candidate signatures and a clock between tip and drift limit. |
| `Mining.MineTick` | vdag-node/src/main.rs:356-459 | A tick keeps the node invariant, whether the block is adopted or abandoned. |
| `Mining.MinedBlockAndGossip` | vdag-node/src/main.rs:365-376 | After a tick timestamps are ordered exactly if the clock was not behind the tip, and nobody waits in vain exactly if no orphan waited for the mined hash. |
| `Runs.Apply` | vdag-node/src/main.rs:346-465 | Receiving a block, a mining tick and a restart each keep the node invariant; only the tick needs hashes that bind headers. |
| `Runs.Run` | vdag-node/src/main.rs:233-465 | The invariant holds after every sequence of received and mined blocks and restarts from genesis. |
| `Runs.ReceivingRunKeepsGossip` | vdag-node/src/network.rs:328-578 | Every run of received blocks and restarts, whatever the hash, keeps timestamps ordered and no orphan waiting for a stored block. |
| `Convergence.LedgerFollowsStoring` | vdag-node/src/network.rs:517-548 | After every run, whether its canonical order replays or not and restarts included, ledger and total are fixed functions of the order in which the blocks were stored. |
| `Convergence.HeldTotalSplits` | vdag-node/src/network.rs:517-548 | That total is the canonical supply at the last prefix of the storing order that recomputes plus the net issue of every block stored after it. |
| `Convergence.RunsConverge` | vdag-consensus/src/ghostdag.rs:271-290 | Two nodes whose runs end with the same blocks have the same cache and canonical tip; they hold the same ledger if the tip's order is payable, and also if they stored the blocks in the same order; in any case their totals differ by what the two storing orders come to. |
| `Convergence.StateSupply` | vdag-node/src/network.rs:536-543 | In every state whose canonical order is payable the node's balances sum to the subsidies below and at the tip less the burned fees. |
| `Convergence.StateAccounts` | vdag-node/src/network.rs:536-543 | Then the node's ledger as a whole, balances, nonces and confirmed identifiers, is what the canonical payments come to. |
| `NodeObjects.Node.constructor` | vdag-node/src/main.rs:234-255 | On empty storage a node starts with genesis stored, coloured and in the history, an empty ledger and pool, and the invariant. |
| `NodeObjects.Node.Judge` | vdag-node/src/network.rs:342-521 | The checks in source order give the specified verdict; the ledger changes only for an admitted block, and then as the rules say. |
| `NodeObjects.Node.Adopt` | vdag-node/src/network.rs:527-552 | Storing, colouring, tip choice, recompute with fallback and retarget give the specified next state. |
| `NodeObjects.Node.ValidateAndIngest` | vdag-node/src/network.rs:328-578 | The recursive method on the mutable node terminates, ends in the state `Ingest` specifies and keeps the invariant. |
| `NodeObjects.Node.ReplayReady` | vdag-node/src/network.rs:560-575 | The replay loop ends in the state `ReplayOrphans` specifies, with every orphan's turn as in `OrphanTurn`. |
| `NodeObjects.Node.Mine` | vdag-node/src/main.rs:356-459 | The tick on the mutable node ends in the state `MineTick` specifies. |
| `Restart.HeightOrderIsParentOrder` | vdag-consensus/src/lib.rs:576-585 | Stored blocks sorted by height, ties in any order, list every parent before its child. |
| `Restart.RestartRebuilds` | vdag-node/src/main.rs:256-281 | Replaying them, genesis first, is a parent-first load and rebuilds exactly the store and cache of the live run. |
| `Restart.RestartKeepsLedger` | vdag-node/src/main.rs:294-317 | With the last held ledger persisted, the restarted node holds the ledger it had, whether or not the canonical order replays. |
| `Restart.RestoredLedger` | vdag-node/src/main.rs:283-317 | Whatever snapshot a restart finds, stale, foreign or none: if the canonical payments are payable it holds the ledger they come to, the same for every snapshot; if not, the snapshot or an empty ledger. |
| `Restart.RestartKeepsInv` | vdag-node/src/main.rs:256-317 | A restarted node, with the height-sorted blocks as history and any snapshot, satisfies the node invariant, so the run continues under it. |
| `Restart.Restarted` | vdag-node/src/main.rs:256-337 | The restarted node has the store and cache it had, the loaded blocks as history, an empty pool, the restored ledger (the one it held, if that was the snapshot) and the last loaded block's target, and satisfies the invariant. |
| `Retargeting.RestartKeepsTargetIff` | vdag-node/src/main.rs:335-337 | Right after storing a block that is last by height, a restart keeps the target if and only if storing it did not change it. |
| `WideRun.RestartLosesTarget` | vdag-node/src/main.rs:335-337 | For every k a run after which a restart, in whatever order by height the storage yields its blocks, falls back to the genesis target while the node had computed another. |
| `Startup.LoadBlocks` | vdag-node/src/main.rs:256-281 | For any stored list the startup loop performs the load in its order, skipping height 0, and its history is genesis and the others in order. |
| `Startup.RestoreLedger` | vdag-node/src/main.rs:294-317 | The recomputed ledger, or the persisted one if the canonical order does not replay, as `RestoredLedger` spells out. |
| `Startup.Resume` | vdag-node/src/main.rs:256-337 | The whole startup from a state's stored blocks and any persisted ledger ends in the restarted state, with that state's store and cache, and its ledger if that was persisted. |
| `Sync.SyncParentsFirst` | vdag-node/src/network.rs:621-626 | In every reachable state each parent of a block in a response is not above the requested height or comes earlier in the same response, filter and cut at 500 included. |
| `Sync.SyncIsComplete` | vdag-node/src/network.rs:606-634 | Refused exactly on a foreign network or genesis; only stored blocks above the height, at most 500, and all of them unless the cut was reached. |
| `Sync.SyncIsPrefix` | vdag-node/src/network.rs:621-626 | A response is, in history order and without gap or repetition, the first 500 stored blocks above the height, or all there are. |
| `Difficulty.AdjustmentBounds` | vdag-consensus/src/daa.rs:40-74 | One step leaves between a seventh (a quarter for expected times of at most three or divisible by four) and four times the high half, never larger when blocks came too fast and never smaller when too slow, overflow fallback included. |
| `Difficulty.QuarterKeptIff` | vdag-consensus/src/daa.rs:43-56 | Every window of every target keeps the promised quarter if and only if the expected time is at most three seconds or a multiple of four. |
| `Difficulty.SeventhAndQuarter` | vdag-consensus/src/daa.rs:43-56 | At seven seconds a high half of 28 falls to 4, a seventh; under the deployed parameters the quarter is kept. |
| `Difficulty.StepExactly` | vdag-consensus/src/daa.rs:47-74 | The step for every high half and elapsed time: the rounded-down quotient by the elapsed time, by a rounded-down quarter of the expected time below that, exactly four times the high half from four times the expected time on, and unchanged where the product overflows. |
| `Difficulty.SlowerIsEasier` | vdag-consensus/src/daa.rs:64-66 | Where nothing can overflow, more elapsed time never leaves a smaller high half. |
| `Difficulty.NextTargetExactly` | vdag-consensus/src/daa.rs:19-87 | Too few blocks leave the target alone; otherwise its high half makes that step and its tail is maximal. |
| `Difficulty.ScaledExactly` | vdag-consensus/src/daa.rs:58-74 | Between the clamps and without overflow the new high half is the old one times elapsed over expected, rounded down. |
| `Difficulty.LexOrderIsNumeric` | vdag-consensus/src/daa.rs:80-86 | Comparing byte arrays is comparing the big-endian numbers they spell. |
| `Difficulty.BytesRoundTrip` | vdag-consensus/src/daa.rs:60-78 | Writing a number as big-endian bytes and reading it back gives the number. |
| `Difficulty.ValueRoundTrip` | vdag-consensus/src/daa.rs:60-78 | Reading bytes and writing the number gives the bytes back. |
| `Difficulty.RebuildKeepsHigh` | vdag-consensus/src/daa.rs:76-86 | The rebuilt target carries the scaled high half and the final maximum test never fires. |
| `Difficulty.NextTargetBounds` | vdag-consensus/src/daa.rs:19-87 | The same bounds on whole 32-byte targets for any timestamps, and in byte order, an expected time that wrapped at 64 bits included. |
| `Difficulty.ZeroHighHalfIsFinal` | vdag-consensus/src/daa.rs:58-74 | A high half of zero stays zero, whatever the timestamps. |
| `Difficulty.ReachesZeroIff` | vdag-consensus/src/daa.rs:53-74 | One step reaches zero if and only if the high half times the clamped time is below the expected time, which an overflowing product never is. |
| `Difficulty.FastWindowsReachZero` | vdag-consensus/src/daa.rs:53-74 | A high half below 2^n is zero after n windows of fast blocks, if the expected time is above one second and the clamped product does not overflow. |
| `Difficulty.FastWindowsReachZeroIff` | vdag-consensus/src/daa.rs:53-74 | Fast blocks ever bring the high half to zero if and only if it is zero already or just these two conditions hold. |
| `Difficulty.DeployedTargetsReachZero` | vdag-node/src/main.rs:204 | With one second and a window of four, every target loses its high half within 128 windows of fast blocks. |
| `WideRun.WideRunSpends` | vdag-consensus/src/daa.rs:19-87 | For every k a run of 130 received blocks, under the deployed parameters, after which the node's target has high half zero. |
| `Retargeting.SpentIsFinal` | vdag-node/src/network.rs:550-552 | A target with high half zero keeps it through every received block with its orphan replay and every mining tick, and through a restart if and only if the last loaded block declares such a target. |
| `Retargeting.SpentRun` | vdag-node/src/network.rs:550-552 | Hence through every continuation of a run without a restart. |
| `Window.OrderEnd` | vdag-consensus/src/ghostdag.rs:202-220 | For every tip the order ends, read backwards, with the blocks the tip colours by ascending hash and then the tip. |
| `Window.TipInWindowIff` | vdag-consensus/src/daa.rs:29-34 | The last m blocks of the order hold the tip if and only if m exceeds the number of blocks the tip colours. |
| `Window.MeasuredTime` | vdag-consensus/src/daa.rs:29-41 | The time measured is that between the lowest hash the tip colours and the highest in the window; the tip's timestamp enters only in a window one larger than what it colours. |
| `Window.RedFreeWindow` | vdag-consensus/src/daa.rs:29-34 | With nothing red below the tip the blocks it colours are its whole past. |

## Left out

- Networking and storage (libp2p, gossip, mDNS, the select loop, sled, bincode, JSON): saves are taken to succeed and the stored blocks to be those of the block store.
- Signature and hash internals: arbitrary functions; transaction digests are free terms.
- RPC, rate limits, peer bans and the sender recorded with an orphan: they do not influence consensus state.
- `DifficultyLog`: written on ingest and mining but read by neither.
- The nonce search: the nonce found is an input of the tick, and nothing is claimed about the search ending.
- The mempool: a tick takes an arbitrary batch of candidates, so the limit of ten is not needed.
- The clock: an arbitrary function of the number of block checks made so far.
- Debug-build overflow panics: the height and nonce successors wrap at 64 bits as in a release build, and so does the expected time of the difficulty window.
- Difficulty.NextTargetBounds: a window of size 0, on which the source panics, is excluded by `Usable`.
- Mining.MineTick: assumes that equal block hashes mean equal headers.
- Agreement of difficulty targets between nodes: each target depends on the node's previous one, so it is no function of the DAG.
- Colouring.ScoreBound: the blue score is unbounded here; `ScoreFitsU64` says when 64 bits suffice.
