/** Runs whose canonical order does not replay: the ledger held then depends on the order of arrival. */
module Divergence {
  import opened Types
  import opened Sums
  import opened Colouring
  import opened ForkChoice
  import opened LinearOrder
  import opened Emission
  import opened LedgerRules
  import opened Difficulty
  import opened Replay
  import opened Solvency
  import opened Validation
  import opened NodeRules
  import opened Mining
  import opened Runs
  import opened Chain
  import opened TableHash
  import opened Scenario

  // A mined reward and a mined transaction

  ghost function MineOne(timestamp: u64, nonce: u64): Event {
    Mine([], 1, timestamp, nonce)
  }

  ghost function MineSpend(timestamp: u64, nonce: u64): Event {
    Mine([SPEND], 1, timestamp, nonce)
  }

  /** After one block on genesis the ledger holds its reward. */
  ghost predicate AfterFirst(cfg: Config, s: NodeState, first: Hash) {
    && Inv(cfg, s) && first != GenesisHash(cfg)
    && s.store.Keys == {GenesisHash(cfg), first} && s.store[GenesisHash(cfg)] == cfg.genesis
    && FirstReward(s.store[first]) && s.store[first].header.parents == [GenesisHash(cfg)]
    && CanonicalTip(s.cache) == Some(first)
    && s.history == [cfg.genesis, s.store[first]] && cfg.hashOf(s.store[first]) == first
    && Ok(s.ledger) == ApplyBlock(EMPTY_LEDGER, s.store[first])
  }

  lemma {:induction false} FirstTick(cfg: Config, maxPool: nat, timestamp: u64, nonce: u64) returns (first: Hash)
    requires Usable(cfg) && HashBinds(cfg)
    ensures AfterFirst(cfg, Run(cfg, maxPool, [MineOne(timestamp, nonce)]), first)
  {
    hide ApplyBlock, Inv, MineTick, HashBinds;
    var s, root := Run(cfg, maxPool, []), GenesisHash(cfg);
    assert [MineOne(timestamp, nonce)][..0] == [];
    var s' := Run(cfg, maxPool, [MineOne(timestamp, nonce)]);
    assert s' == MineTick(cfg, s, [], 1, timestamp, nonce);
    TipExists(cfg, s);
    var b := MinedBlock(s, root, [], 1, timestamp, nonce);
    first := cfg.hashOf(b);
    RewardAtOne();
    FirstRewardApplies(b);
    MinedIsFresh(cfg, s, root, b);
    MineAdopts(cfg, s, root, [], 1, timestamp, nonce);
    AdoptHighest(cfg, s, s', b, first);
    FirstBlockLedger(cfg, s', first);
  }

  lemma {:induction false} SpendSelected(l: Ledger)
    requires l == Ledger(map[1 := 79_077, DEV_TREASURY_ADDRESS := 4_161], map[], {})
    ensures SelectAffordable(ScratchOf(l), [SPEND], 1, DEV_TREASURY_ADDRESS).0 == [SPEND]
  {
    hide TryApplyTransaction;
    SpendApplies(l, 1);
    assert [SPEND][1..] == [];
  }

  lemma {:induction false} SpendBlock(cfg: Config, s: NodeState, first: Hash, timestamp: u64, nonce: u64)
    requires HashBinds(cfg) && AfterFirst(cfg, s, first)
    ensures var b := MinedBlock(s, first, [SPEND], 1, timestamp, nonce);
            && b.header.height == 2 && b.header.parents == [first] && b.transactions == [SPEND]
            && ApplyBlock(s.ledger, b).Ok? && cfg.hashOf(b) !in s.store
    ensures AtMostOneParent(s.store)
  {
    hide ApplyBlock, Inv, HashBinds, Consistent, Placed, HistoryOk, ScoreFalls, WellRewarded, CalculateSubsidySplit;
    InvParts(cfg, s);
    FirstRewardApplies(s.store[first]);
    SpendApplies(s.ledger, 1);
    SpendSelected(s.ledger);
    RewardAtOne();
    MinedBlockApplies(s, first, [SPEND], 1, timestamp, nonce);
    MinedIsFresh(cfg, s, first, MinedBlock(s, first, [SPEND], 1, timestamp, nonce));
  }

  lemma {:induction false} SecondTick(
      cfg: Config, s: NodeState, first: Hash, timestamp: u64, nonce: u64) returns (second: Hash)
    requires HashBinds(cfg) && AfterFirst(cfg, s, first)
    ensures var s' := MineTick(cfg, s, [SPEND], 1, timestamp, nonce);
            && Inv(cfg, s') && ScoreFalls(s'.cache)
            && CanonicalTip(s'.cache) == Some(second) && second in s'.store
            && s'.store[second].transactions == [SPEND]
            && RecomputeLedger(s'.store, s'.cache, second).Err?
            && s'.history == s.history + [s'.store[second]]
            && s'.store == s.store[second := s'.store[second]] && second == cfg.hashOf(s'.store[second])
            && Ok(s'.ledger) == ApplyBlock(s.ledger, s'.store[second])
            && second !in s.store
  {
    hide ApplyBlock, Inv, MineTick, HashBinds, MinedBlock, RecomputeLedger, LinearSort, BlocksOf;
    InvParts(cfg, s);
    SpendBlock(cfg, s, first, timestamp, nonce);
    var b := MinedBlock(s, first, [SPEND], 1, timestamp, nonce);
    second := cfg.hashOf(b);
    MineAdopts(cfg, s, first, [SPEND], 1, timestamp, nonce);
    var s' := MineTick(cfg, s, [SPEND], 1, timestamp, nonce);
    AdoptHighest(cfg, s, s', b, second);
    ChainTipWithTransactionFails(s'.store, cfg.k, s'.cache, second);
  }

  /** On every node that starts from genesis, mining a block and then a block that spends one unit of its reward
      reaches a canonical tip whose ledger cannot be recomputed, although both blocks apply in the order they
      were mined in, and the ledger held is the result. */
  lemma {:induction false} ValidChainFailsReplay(
      cfg: Config, maxPool: nat, timestamp: u64, nonce: u64, timestamp': u64, nonce': u64)
    requires Usable(cfg) && HashBinds(cfg)
    ensures var s := Run(cfg, maxPool, [MineOne(timestamp, nonce), MineSpend(timestamp', nonce')]);
            && ScoreFalls(s.cache) && CanonicalTip(s.cache).Some?
            && RecomputeLedger(s.store, s.cache, CanonicalTip(s.cache).value).Err?
            && ReplayFrom(s.store, HashesOf(cfg, s.history), EMPTY_LEDGER) == Ok(s.ledger)
  {
    hide ApplyBlock, Inv, MineTick, RecomputeLedger;
    var events := [MineOne(timestamp, nonce), MineSpend(timestamp', nonce')];
    assert events[..1] == [MineOne(timestamp, nonce)];
    var first := FirstTick(cfg, maxPool, timestamp, nonce);
    var s := Run(cfg, maxPool, events[..1]);
    var second := SecondTick(cfg, s, first, timestamp', nonce');
    var s' := Run(cfg, maxPool, events);
    assert s' == MineTick(cfg, s, [SPEND], 1, timestamp', nonce');
    var ids := [GenesisHash(cfg), first, second];
    assert HashesOf(cfg, s'.history) == ids;
    GenesisApplies(cfg.genesis, EMPTY_LEDGER) by {
      assert Usable(cfg);
    }
    assert ids[1..] == [first, second] && ids[1..][1..] == [second] && ids[1..][1..][1..] == [];
    assert ReplayFrom(s'.store, [second], s.ledger) == Ok(s'.ledger);
    assert ReplayFrom(s'.store, [first, second], EMPTY_LEDGER) == Ok(s'.ledger);
  }

  // Two orders of arrival, one store, two ledgers

  const STAMP: u64 := 1_700_000_000

  function SiblingBlock(nonce: u64): VeloBlock {
    VeloBlock(BlockHeader(STAMP, [0], Zero, nonce, 1, GENESIS_TARGET), [], 1, 79_077, DEV_TREASURY_ADDRESS, 4_161)
  }

  function SpendingBlock(): VeloBlock {
    VeloBlock(
      BlockHeader(STAMP, [1], TransactionId(SPEND), 0, 2, GENESIS_TARGET), [SPEND],
      1, 79_077, DEV_TREASURY_ADDRESS, 4_161)
  }

  /** Genesis, two siblings on it, and a block on the first of them that spends its reward. */
  function ForkBlocks(): seq<VeloBlock> {
    [FixedGenesisBlock(STAMP), SiblingBlock(1), SiblingBlock(2), SpendingBlock()]
  }

  ghost function ForkConfig(k: nat): Config {
    TableConfig(k, ForkBlocks())
  }

  lemma {:induction false} ForkConfigFits(k: nat)
    ensures var cfg := ForkConfig(k);
            && Usable(cfg) && HashBinds(cfg) && cfg.k == k && cfg.genesis == FixedGenesisBlock(STAMP)
            && cfg.hashOf(FixedGenesisBlock(STAMP)) == 0
            && cfg.hashOf(SiblingBlock(1)) == 1 && cfg.hashOf(SiblingBlock(2)) == 2
            && cfg.hashOf(SpendingBlock()) == 3
            && cfg.daa == DifficultyManager(1, 4)
            && (forall tx :: cfg.signatureOk(tx)) && (forall n :: cfg.clock(n) == STAMP)
  {
    hide TableConfig, HashBinds, Usable, SameIdentity;
    ForkBlocksDiffer();
    TableConfigFits(k, ForkBlocks());
    assert ForkBlocks()[0] == FixedGenesisBlock(STAMP) && ForkBlocks()[1] == SiblingBlock(1);
    assert ForkBlocks()[2] == SiblingBlock(2) && ForkBlocks()[3] == SpendingBlock();
  }

  lemma {:induction false} ForkBlocksDiffer()
    ensures AllDifferent(ForkBlocks())
  {
    var known := ForkBlocks();
    assert known[1].header.nonce != known[2].header.nonce;
    assert known[0].header.height == 0 && known[3].header.height == 2;
    assert known[1].header.height == 1 && known[2].header.height == 1;
  }

  lemma {:induction false} SmallHashesMeet(hash: Hash)
    requires hash <= 15
    ensures VerifyPow(hash, GENESIS_TARGET)
  {
    assert FromBytes(GENESIS_TARGET) == FromBytes(GENESIS_TARGET[..31]) * 256 + 15;
  }

  /** A state of the fork's node that holds just `store`. */
  ghost predicate Shows(k: nat, s: NodeState, store: Store) {
    Inv(ForkConfig(k), s) && s.store == store && s.target == GENESIS_TARGET && s.pool.waitingOn == map[]
  }

  lemma {:induction false} SiblingAcceptable(k: nat, s: NodeState, store: Store, nonce: u64)
    requires Shows(k, s, store) && 1 <= nonce <= 2 && nonce !in store
    requires 0 in store && store[0] == FixedGenesisBlock(STAMP) && MapSum(s.ledger.balances) <= 1_000_000
    ensures Acceptable(ForkConfig(k), s, SiblingBlock(nonce), ForkConfig(k).clock(s.calls))
    ensures MapSum(ApplyBlock(s.ledger, SiblingBlock(nonce)).value.balances) == MapSum(s.ledger.balances) + 83_238
  {
    hide Inv, ApplyBlock, HashBinds, ForkConfig, MapSum, Acceptable, VerifyPow;
    var b := SiblingBlock(nonce);
    ForkConfigFits(k);
    SmallHashesMeet(nonce);
    RewardAtOne();
    CoinbaseApplies(s.ledger, b);
    assert Ids([]) == [];
    LevelBlockAcceptable(ForkConfig(k), s, b, STAMP);
  }

  lemma {:induction false} SpendingBlockApplies(l: Ledger)
    requires HoldsReward(l)
    ensures ApplyBlock(l, SpendingBlock()).Ok?
    ensures MapSum(ApplyBlock(l, SpendingBlock()).value.balances) == 166_426
  {
    hide ApplyBlock, MapSum;
    RewardAtOne();
    SpendApplies(l, 1);
    SpendSelected(l);
    SelectedBlockApplies(l, [SPEND], SpendingBlock());
    BlockConserves(l, SpendingBlock());
  }

  lemma {:induction false} SpendAcceptable(k: nat, s: NodeState, store: Store)
    requires Shows(k, s, store) && 3 !in store && 1 in store && store[1] == SiblingBlock(1)
    requires HoldsReward(s.ledger)
    ensures Acceptable(ForkConfig(k), s, SpendingBlock(), ForkConfig(k).clock(s.calls))
    ensures MapSum(ApplyBlock(s.ledger, SpendingBlock()).value.balances) == 166_426
  {
    hide Inv, ApplyBlock, HashBinds, ForkConfig, MapSum, Acceptable, VerifyPow;
    var b := SpendingBlock();
    ForkConfigFits(k);
    SmallHashesMeet(3);
    SpendingBlockApplies(s.ledger);
    assert Ids([SPEND]) == [TransactionId(SPEND)];
    LevelBlockAcceptable(ForkConfig(k), s, b, STAMP);
  }

  /** One step of either order of arrival. */
  lemma {:induction false} ForkStep(k: nat, s: NodeState, store: Store, b: VeloBlock, store': Store, tip: Hash)
    requires Shows(k, s, store) && AtMostOneParent(store) && |b.header.parents| == 1
    requires Acceptable(ForkConfig(k), s, b, ForkConfig(k).clock(s.calls))
    requires store' == store[ForkConfig(k).hashOf(b) := b] && Highest(store', tip) && HeightOf(store', tip) <= 2
    ensures var s' := Ingest(ForkConfig(k), s, b);
            && Shows(k, s', store') && AtMostOneParent(store')
            && (store'[tip].transactions != [] ==> Ok(s'.ledger) == ApplyBlock(s.ledger, b))
            && (tip == 1 && store'[tip] == SiblingBlock(1) ==> HoldsReward(s'.ledger))
            && (tip == 2 && store'[tip] == SiblingBlock(2) ==> HoldsReward(s'.ledger))
  {
    hide Inv, ApplyBlock, HashBinds, Acceptable, RecomputeLedger, LinearSort, BlocksOf, Consistent, SingleParent;
    hide ForkConfig;
    var cfg := ForkConfig(k);
    var s' := Ingest(cfg, s, b);
    ForkConfigFits(k);
    ReceiveAdopts(cfg, s, b);
    AdoptHighest(cfg, s, s', b, tip);
    ShortChainKeepsTarget(store', k, s'.cache, tip, cfg.daa, GENESIS_TARGET);
    if store'[tip].transactions != [] {
      ChainTipWithTransactionFails(store', k, s'.cache, tip);
      AcceptableApplies(cfg, s, b);
    }
    if (tip == 1 && store'[tip] == SiblingBlock(1)) || (tip == 2 && store'[tip] == SiblingBlock(2)) {
      RewardAtOne();
      FirstRewardApplies(store'[tip]);
      FirstBlockLedger(cfg, s', tip);
    }
  }

  ghost predicate HoldsReward(l: Ledger) {
    l == Ledger(map[1 := 79_077, DEV_TREASURY_ADDRESS := 4_161], map[], {})
  }

  lemma {:induction false} AcceptableApplies(cfg: Config, s: NodeState, b: VeloBlock)
    requires Acceptable(cfg, s, b, cfg.clock(s.calls))
    ensures ApplyBlock(s.ledger, b).Ok?
  {
  }

  ghost function Arrivals(blocks: seq<VeloBlock>): seq<Event> {
    if blocks == [] then [] else Arrivals(blocks[..|blocks| - 1]) + [Receive(blocks[|blocks| - 1])]
  }

  lemma {:induction false} ArrivalsStep(k: nat, maxPool: nat, blocks: seq<VeloBlock>, b: VeloBlock)
    ensures Usable(ForkConfig(k)) && HashBinds(ForkConfig(k))
    ensures Run(ForkConfig(k), maxPool, Arrivals(blocks + [b])) ==
            Ingest(ForkConfig(k), Run(ForkConfig(k), maxPool, Arrivals(blocks)), b)
  {
    hide Inv, HashBinds;
    ForkConfigFits(k);
    assert (blocks + [b])[..|blocks|] == blocks;
    var events := Arrivals(blocks + [b]);
    assert events[..|events| - 1] == Arrivals(blocks);
  }

  ghost function AfterArrivals(k: nat, blocks: seq<VeloBlock>): NodeState
    requires Usable(ForkConfig(k)) && HashBinds(ForkConfig(k))
  {
    Run(ForkConfig(k), 0, Arrivals(blocks))
  }

  lemma {:induction false} NothingArrived(k: nat)
    ensures Usable(ForkConfig(k)) && HashBinds(ForkConfig(k))
    ensures Shows(k, AfterArrivals(k, []), map[0 := FixedGenesisBlock(STAMP)])
    ensures AfterArrivals(k, []).ledger == EMPTY_LEDGER && MapSum(EMPTY_LEDGER.balances) == 0
  {
    hide Inv, HashBinds, ForkConfig;
    ForkConfigFits(k);
  }

  /** First sibling, its spending child, second sibling: the ledger keeps the rewards of all three. */
  lemma {:induction false} SpendThenSibling(k: nat)
    ensures Usable(ForkConfig(k)) && HashBinds(ForkConfig(k))
    ensures var s := AfterArrivals(k, [SiblingBlock(1), SpendingBlock(), SiblingBlock(2)]);
            && s.store == map[0 := FixedGenesisBlock(STAMP), 1 := SiblingBlock(1), 2 := SiblingBlock(2),
                              3 := SpendingBlock()]
            && MapSum(s.ledger.balances) == 249_664
  {
    hide Inv, HashBinds, ForkConfig, Run, Ingest, Arrivals, Acceptable, ApplyBlock, MapSum;
    var g, a, b, c := FixedGenesisBlock(STAMP), SiblingBlock(1), SiblingBlock(2), SpendingBlock();
    ForkConfigFits(k);
    NothingArrived(k);
    var s0, s1 := AfterArrivals(k, []), AfterArrivals(k, [a]);
    ArrivalsStep(k, 0, [], a);
    assert [] + [a] == [a];
    SiblingAcceptable(k, s0, map[0 := g], 1);
    ForkStep(k, s0, map[0 := g], a, map[0 := g, 1 := a], 1);
    var s2 := AfterArrivals(k, [a, c]);
    ArrivalsStep(k, 0, [a], c);
    assert [a] + [c] == [a, c];
    SpendAcceptable(k, s1, map[0 := g, 1 := a]);
    ForkStep(k, s1, map[0 := g, 1 := a], c, map[0 := g, 1 := a, 3 := c], 3);
    ArrivalsStep(k, 0, [a, c], b);
    assert [a, c] + [b] == [a, c, b];
    SiblingAcceptable(k, s2, map[0 := g, 1 := a, 3 := c], 2);
    ForkStep(k, s2, map[0 := g, 1 := a, 3 := c], b, map[0 := g, 1 := a, 2 := b, 3 := c], 3);
  }

  /** Second sibling, first sibling, its spending child: the second sibling's reward is lost in between. */
  lemma {:induction false} SiblingThenSpend(k: nat)
    ensures Usable(ForkConfig(k)) && HashBinds(ForkConfig(k))
    ensures var s := AfterArrivals(k, [SiblingBlock(2), SiblingBlock(1), SpendingBlock()]);
            && s.store == map[0 := FixedGenesisBlock(STAMP), 1 := SiblingBlock(1), 2 := SiblingBlock(2),
                              3 := SpendingBlock()]
            && MapSum(s.ledger.balances) == 166_426
  {
    hide Inv, HashBinds, ForkConfig, Run, Ingest, Arrivals, Acceptable, ApplyBlock, MapSum;
    var g, a, b, c := FixedGenesisBlock(STAMP), SiblingBlock(1), SiblingBlock(2), SpendingBlock();
    ForkConfigFits(k);
    NothingArrived(k);
    var s0, s1 := AfterArrivals(k, []), AfterArrivals(k, [b]);
    ArrivalsStep(k, 0, [], b);
    assert [] + [b] == [b];
    SiblingAcceptable(k, s0, map[0 := g], 2);
    ForkStep(k, s0, map[0 := g], b, map[0 := g, 2 := b], 2);
    RewardSum(s1.ledger);
    var s2 := AfterArrivals(k, [b, a]);
    ArrivalsStep(k, 0, [b], a);
    assert [b] + [a] == [b, a];
    SiblingAcceptable(k, s1, map[0 := g, 2 := b], 1);
    ForkStep(k, s1, map[0 := g, 2 := b], a, map[0 := g, 1 := a, 2 := b], 1);
    ArrivalsStep(k, 0, [b, a], c);
    assert [b, a] + [c] == [b, a, c];
    SpendAcceptable(k, s2, map[0 := g, 1 := a, 2 := b]);
    ForkStep(k, s2, map[0 := g, 1 := a, 2 := b], c, map[0 := g, 1 := a, 2 := b, 3 := c], 3);
  }

  lemma {:induction false} RewardSum(l: Ledger)
    requires HoldsReward(l)
    ensures MapSum(l.balances) == 83_238
  {
    SpendApplies(l, 1);
  }

  /** For every k there is a node that, receiving the same three blocks in two parent-first orders, ends with the
      same store but with ledgers of different total, because no order of its canonical tip can be recomputed. */
  lemma {:induction false} ArrivalOrderDecidesLedger(k: nat)
    ensures exists cfg: Config, xs: seq<VeloBlock>, ys: seq<VeloBlock> ::
      && cfg.k == k && Usable(cfg) && HashBinds(cfg) && multiset(xs) == multiset(ys)
      && (var s, s' := Run(cfg, 0, Arrivals(xs)), Run(cfg, 0, Arrivals(ys));
          s.store == s'.store && MapSum(s.ledger.balances) != MapSum(s'.ledger.balances))
  {
    hide Inv, HashBinds, ForkConfig, Run, Arrivals, MapSum;
    ForkConfigFits(k);
    SpendThenSibling(k);
    SiblingThenSpend(k);
    var xs := [SiblingBlock(1), SpendingBlock(), SiblingBlock(2)];
    var ys := [SiblingBlock(2), SiblingBlock(1), SpendingBlock()];
    assert multiset(xs) == multiset(ys);
    assert AfterArrivals(k, xs) == Run(ForkConfig(k), 0, Arrivals(xs));
    assert AfterArrivals(k, ys) == Run(ForkConfig(k), 0, Arrivals(ys));
  }
}
