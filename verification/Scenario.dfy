/** What single steps of a run leave behind, for exhibiting runs. */
module Scenario {
  import opened Types
  import opened Sequences
  import opened Sums
  import opened Dag
  import opened Colouring
  import opened ForkChoice
  import opened LinearOrder
  import opened Emission
  import opened LedgerRules
  import opened Merkle
  import opened Difficulty
  import opened Replay
  import opened Solvency
  import opened Validation
  import opened NodeRules
  import opened Mining
  import opened Chain

  /** `s'` is `s` after storing `b` and turning to the new canonical order. */
  ghost predicate Adopted(cfg: Config, s: NodeState, s': NodeState, b: VeloBlock) {
    && Inv(cfg, s')
    && s'.store == s.store[cfg.hashOf(b) := b] && s'.history == s.history + [b] && s'.pool == s.pool
    && CanonicalTip(s'.cache).Some? && CanonicalTip(s'.cache).value in s'.store
    && (var tip := CanonicalTip(s'.cache).value;
        var replayed := RecomputeLedger(s'.store, s'.cache, tip);
        var applied := ApplyBlock(s.ledger, b);
        && (replayed.Ok? ==> s'.ledger == replayed.value)
        && (replayed.Err? && applied.Ok? ==> s'.ledger == applied.value)
        && s'.target == cfg.daa.CalculateNextTarget(BlocksOf(s'.store, LinearSort(s'.cache, tip)), s.target))
  }

  lemma {:induction false} ExtendAdopts(cfg: Config, s: NodeState, b: VeloBlock, applied: Ledger)
    requires Inv(cfg, s) && Insertable(GraphOf(s.store), cfg.hashOf(b), b.header.parents)
    requires ApplyBlock(s.ledger, b) == Ok(applied) && Inv(cfg, Extend(cfg, s, b, applied))
    ensures Adopted(cfg, s, Extend(cfg, s, b, applied), b)
  {
    hide ApplyBlock, RecomputeLedger, LinearSort, Inv, Step, Consistent, BlocksOf;
    var s' := Extend(cfg, s, b, applied);
    TipExists(cfg, s');
  }

  /** A received block that is acceptable, with no orphan waiting, is adopted. */
  lemma {:induction false} ReceiveAdopts(cfg: Config, s: NodeState, b: VeloBlock)
    requires Inv(cfg, s) && s.pool.waitingOn == map[]
    requires Acceptable(cfg, s, b, cfg.clock(s.calls))
    ensures Adopted(cfg, s, Ingest(cfg, s, b), b)
  {
    hide Check, ApplyBlock, Inv, Extend, RecomputeLedger, LinearSort, BlocksOf;
    var s1, now := Tick(s), cfg.clock(s.calls);
    TickKeepsInv(cfg, s);
    AdmittedIff(cfg, s1, b, now);
    AdmittedIsPlaced(cfg, s1, b, now);
    AppliedIsWellRewarded(s1.ledger, b);
    var applied := ApplyBlock(s1.ledger, b).value;
    ExtendKeepsInv(cfg, s1, b, applied);
    ExtendKeepsPool(cfg, s1, b, applied);
    ExtendAdopts(cfg, s1, b, applied);
  }

  /** A mined block that the ledger takes is adopted. */
  lemma {:induction false} MineAdopts(
      cfg: Config, s: NodeState, tip: Hash, candidates: seq<Transaction>, miner: Address, timestamp: u64,
      nonce: u64)
    requires Inv(cfg, s) && HashBinds(cfg) && CanonicalTip(s.cache) == Some(tip) && tip in s.store
    requires ApplyBlock(s.ledger, MinedBlock(s, tip, candidates, miner, timestamp, nonce)).Ok?
    ensures Adopted(cfg, s, MineTick(cfg, s, candidates, miner, timestamp, nonce),
                    MinedBlock(s, tip, candidates, miner, timestamp, nonce))
  {
    hide ApplyBlock, Inv, Extend, MinedBlock, RecomputeLedger, LinearSort, BlocksOf;
    MineKeepsInv(cfg, s, tip, candidates, miner, timestamp, nonce);
    var b := MinedBlock(s, tip, candidates, miner, timestamp, nonce);
    ExtendAdopts(cfg, s, b, ApplyBlock(s.ledger, b).value);
  }

  lemma {:induction false} LevelParents(parents: seq<Hash>, store: Store, height: u64, timestamp: u64)
    requires parents != []
    requires forall p :: p in parents ==>
      p in store && store[p].header.height == height && store[p].header.timestamp == timestamp
    ensures MaxParentHeight(parents, store) == height && MaxParentTimestamp(parents, store) == timestamp
    decreases |parents|
  {
    if |parents| > 1 {
      LevelParents(parents[..|parents| - 1], store, height, timestamp);
    }
  }

  /** A block on parents of one height and of its own timestamp. */
  lemma {:induction false} LevelBlockAcceptable(cfg: Config, s: NodeState, b: VeloBlock, now: u64)
    requires cfg.hashOf(b) !in s.store && VerifyPow(cfg.hashOf(b), s.target) && b.header.difficultyTarget == s.target
    requires |b.transactions| <= MAX_TRANSACTIONS_PER_BLOCK
    requires (forall tx :: tx in b.transactions ==> cfg.signatureOk(tx)) && VerifyTransactionMerkleRoot(b)
    requires b.header.height > 0 && b.header.parents != [] && b.header.timestamp <= now
    requires forall p :: p in b.header.parents ==>
      p in s.store && s.store[p].header.height == b.header.height - 1
      && s.store[p].header.timestamp == b.header.timestamp
    requires ApplyBlock(s.ledger, b).Ok?
    ensures Acceptable(cfg, s, b, now)
  {
    hide ApplyBlock, VerifyTransactionMerkleRoot, VerifyPow;
    LevelParents(b.header.parents, s.store, b.header.height - 1, b.header.timestamp);
  }

  // Single-parent stores

  ghost predicate AtMostOneParent(store: Store) {
    forall h :: h in store ==> |store[h].header.parents| <= 1
  }

  lemma {:induction false} IsSingleParent(cfg: Config, s: NodeState)
    requires Inv(cfg, s) && AtMostOneParent(s.store)
    ensures SingleParent(s.store) && Consistent(GraphOf(s.store), cfg.k, s.cache) && ScoreFalls(s.cache)
  {
    forall h | h in s.store ensures ChainLink(s.store, h) {
      assert PlacedOk(cfg, s.store, h);
    }
  }

  ghost predicate Highest(store: Store, tip: Hash) {
    tip in store && forall h :: h in store && h != tip ==>
      HeightOf(store, h) < HeightOf(store, tip) || (HeightOf(store, h) == HeightOf(store, tip) && tip < h)
  }

  /** The highest block, lowest hash on ties, is the canonical tip. */
  lemma {:induction false} HighestIsCanonical(store: Store, k: nat, c: Cache, tip: Hash)
    requires Consistent(GraphOf(store), k, c) && SingleParent(store) && Highest(store, tip)
    ensures CanonicalTip(c) == Some(tip)
  {
    forall h | h in c && h != tip ensures Better(c, tip, h) {
      LongestChainRule(store, k, c, tip, h);
    }
    BestUnique(c, tip, CanonicalTip(c).value);
  }

  /** Adopting a block with one parent: the highest block is the new tip. */
  lemma {:induction false} AdoptHighest(cfg: Config, s: NodeState, s': NodeState, b: VeloBlock, tip: Hash)
    requires Adopted(cfg, s, s', b) && AtMostOneParent(s.store) && |b.header.parents| == 1
    requires Highest(s.store[cfg.hashOf(b) := b], tip)
    ensures AtMostOneParent(s'.store) && SingleParent(s'.store) && ScoreFalls(s'.cache)
    ensures Consistent(GraphOf(s'.store), cfg.k, s'.cache)
    ensures CanonicalTip(s'.cache) == Some(tip) && tip in s'.store
  {
    hide Inv, Consistent, SingleParent, ScoreFalls, RecomputeLedger, BlocksOf, LinearSort, ApplyBlock;
    IsSingleParent(cfg, s');
    HighestIsCanonical(s'.store, cfg.k, s'.cache, tip);
  }

  lemma {:induction false} OrderSize(store: Store, k: nat, c: Cache, tip: Hash)
    requires Consistent(GraphOf(store), k, c) && ScoreFalls(c) && tip in store
    ensures |BlocksOf(store, LinearSort(c, tip))| == |Past(GraphOf(store), tip)| + 1
  {
    hide LinearSort, ScoreFalls, BlocksOf;
    var g, order := GraphOf(store), LinearSort(c, tip);
    PastKnown(g, g[tip]);
    ExactlyOnce(g, k, c, tip);
    NoDupSize(order);
    assert tip !in Past(g, tip);
    BlocksOfAt(store, order);
  }

  lemma {:induction false} ChainPastSize(store: Store, k: nat, c: Cache, tip: Hash)
    requires Consistent(GraphOf(store), k, c) && ScoreFalls(c) && SingleParent(store) && tip in store
    ensures |Past(GraphOf(store), tip)| == HeightOf(store, tip)
  {
    hide ScoreFalls, Consistent, SingleParent;
    ChainColours(store, k, c, tip);
    ColourPartition(GraphOf(store), k, c, tip);
    ConsistentColours(GraphOf(store), k, c, tip);
    NoDupSize(c[tip].blues);
    assert Elems(c[tip].blues) + {} == Elems(c[tip].blues);
  }

  /** Below the window size a chain is never retargeted. */
  lemma {:induction false} ShortChainKeepsTarget(
      store: Store, k: nat, c: Cache, tip: Hash, m: DifficultyManager, target: Target)
    requires Consistent(GraphOf(store), k, c) && ScoreFalls(c) && SingleParent(store) && tip in store
    requires m.Usable() && HeightOf(store, tip) + 1 < m.windowSize
    ensures m.CalculateNextTarget(BlocksOf(store, LinearSort(c, tip)), target) == target
  {
    hide ScoreFalls, Consistent, SingleParent, BlocksOf, LinearSort;
    OrderSize(store, k, c, tip);
    ChainPastSize(store, k, c, tip);
  }

  /** The order of a block that names genesis only. */
  lemma {:induction false} OrderOfTwo(store: Store, k: nat, c: Cache, tip: Hash, root: Hash)
    requires Consistent(GraphOf(store), k, c) && ScoreFalls(c) && SingleParent(store) && tip in store
    requires store[tip].header.parents == [root] && root in store && store[root].header.parents == []
    ensures LinearSort(c, tip) == [tip, root]
  {
    var g := GraphOf(store);
    ChainColours(store, k, c, tip);
    OrderWithoutReds(g, k, c, tip);
    OneParentPast(g, root);
    BelowLeast(g, [], {});
    assert Past(g, tip) == {root};
    AscendingSpec({root});
    var one := Ascending({root});
    assert one[0] in Elems(one);
    NoDupSize(one);
    assert one == [root];
  }

  /** With a first block canonical the ledger holds its reward and nothing else. */
  lemma {:induction false} FirstBlockLedger(cfg: Config, s: NodeState, tip: Hash)
    requires Inv(cfg, s) && AtMostOneParent(s.store) && CanonicalTip(s.cache) == Some(tip) && tip in s.store
    requires s.store[tip].header.parents == [GenesisHash(cfg)] && ApplyBlock(EMPTY_LEDGER, s.store[tip]).Ok?
    ensures Ok(s.ledger) == ApplyBlock(EMPTY_LEDGER, s.store[tip])
  {
    hide ApplyBlock, Consistent, SingleParent, Placed, HistoryOk;
    var root := GenesisHash(cfg);
    InvParts(cfg, s);
    IsSingleParent(cfg, s);
    OrderOfTwo(s.store, cfg.k, s.cache, tip, root);
    var l := ApplyBlock(EMPTY_LEDGER, s.store[tip]).value;
    GenesisApplies(cfg.genesis, l);
    assert [tip, root][1..] == [root] && [root][1..] == [];
    assert ReplayFrom(s.store, [root], l) == Ok(l);
    assert ReplayFrom(s.store, [tip, root], EMPTY_LEDGER) == Ok(l);
    assert HoldsRecomputed(s.store, s.cache, s.ledger, tip);
  }

  lemma {:induction false} GenesisApplies(genesis: VeloBlock, l: Ledger)
    requires genesis == FixedGenesisBlock(genesis.header.timestamp)
    ensures ApplyBlock(l, genesis) == Ok(l)
  {
  }

  // A reward and a transaction that spends one unit of it

  const SPEND := Transaction(1, 2, 1, 0, [], [])

  ghost predicate FirstReward(b: VeloBlock) {
    b.header.height == 1 && WellRewarded(b) && b.transactions == [] && b.coinbaseMinerAddress == 1
  }

  lemma {:induction false} RewardAtOne()
    ensures CalculateSubsidySplit(1) == (79_077, 4_161) && Subsidy(1) == 83_238 && Subsidy(2) == 83_238
  {
    assert EraReward(0) == 83_238 && ShiftRight(INITIAL_BLOCK_REWARD, 0) == 83_238;
  }

  lemma {:induction false} FirstRewardApplies(b: VeloBlock)
    requires FirstReward(b)
    ensures ApplyBlock(EMPTY_LEDGER, b) ==
            Ok(Ledger(map[1 := 79_077, DEV_TREASURY_ADDRESS := 4_161], map[], {}))
  {
    RewardAtOne();
    var s := ScratchOf(EMPTY_LEDGER);
    assert ApplyTransactions(s, [], 1, DEV_TREASURY_ADDRESS) == Ok(s);
  }

  /** The first reward covers the spending transaction, whoever mines it. */
  lemma {:induction false} SpendApplies(l: Ledger, miner: Address)
    requires l == Ledger(map[1 := 79_077, DEV_TREASURY_ADDRESS := 4_161], map[], {})
    ensures MapSum(l.balances) == 83_238
    ensures TryApplyTransaction(ScratchOf(l), SPEND, miner, DEV_TREASURY_ADDRESS).1.None?
  {
    MapSumUpdate(map[], 1, 79_077);
    MapSumUpdate(map[1 := 79_077], DEV_TREASURY_ADDRESS, 4_161);
    assert map[][1 := 79_077] == map[1 := 79_077];
    AppliesIff(ScratchOf(l), SPEND, miner, DEV_TREASURY_ADDRESS);
  }
}
