/** The mining tick, and the state a node starts in. */
module Mining {
  import opened Types
  import opened Sequences
  import opened Sums
  import opened Dag
  import opened Colouring
  import opened ForkChoice
  import opened LinearOrder
  import opened Emission
  import opened LedgerRules
  import opened Merkle
  import opened Replay
  import opened Solvency
  import opened Orphans
  import opened Validation
  import opened NodeRules
  import opened NodeRuns

  /** The block hash covers the header and both coinbase addresses, so equal hashes mean equal headers. */
  ghost predicate HashBinds(cfg: Config) {
    forall a: VeloBlock, b: VeloBlock :: cfg.hashOf(a) == cfg.hashOf(b) ==>
      a.header == b.header
      && a.coinbaseMinerAddress == b.coinbaseMinerAddress && a.coinbaseDevAddress == b.coinbaseDevAddress
  }

  /** The block built on the canonical tip: rewards for the next height and every candidate that applies.
      `timestamp` is the clock and `nonce` what the search found. */
  function MinedBlock(s: NodeState, tip: Hash, candidates: seq<Transaction>, miner: Address,
                      timestamp: u64, nonce: u64): VeloBlock
    requires tip in s.store
  {
    var height: u64 := (s.store[tip].header.height + 1) % TWO_TO_THE_64;
    var (minerReward, devReward) := CalculateSubsidySplit(height);
    var txs := SelectAffordable(ScratchOf(s.ledger), candidates, miner, DEV_TREASURY_ADDRESS).0;
    VeloBlock(
      BlockHeader(timestamp, [tip], MerkleRoot(Ids(txs)), nonce, height, s.target), txs,
      miner, minerReward, DEV_TREASURY_ADDRESS, devReward)
  }

  /** What the mined block carries, one candidate at a time: a candidate left out would have been refused at its
      place. */
  lemma {:induction false} MinedTransactions(
      s: NodeState, tip: Hash, candidates: seq<Transaction>, tx: Transaction, miner: Address,
      timestamp: u64, nonce: u64)
    requires tip in s.store && MapSum(s.ledger.balances) < TWO_TO_THE_64
    ensures MinedBlock(s, tip, [], miner, timestamp, nonce).transactions == []
    ensures var before := MinedBlock(s, tip, candidates, miner, timestamp, nonce).transactions;
            var after := MinedBlock(s, tip, candidates + [tx], miner, timestamp, nonce).transactions;
            var applied := ApplyTransactions(ScratchOf(s.ledger), before, miner, DEV_TREASURY_ADDRESS);
            && applied.Ok?
            && after == before +
                 if && TransactionId(tx) !in s.ledger.confirmedTransactions && TransactionId(tx) !in Ids(candidates)
                    && tx.amount > 0 && tx.nonce == BalanceOf(applied.value.nextNonces, tx.sender)
                    && tx.amount + TRANSACTION_FEE <= BalanceOf(applied.value.balances, tx.sender)
                 then [tx] else []
  {
    hide ApplyTransactions, SelectAffordable;
    SelectExactly(s.ledger, candidates, tx, miner, DEV_TREASURY_ADDRESS);
  }

  /** Whom the mined block pays: the fees of its transactions and the subsidy of the next height go to the given miner
      and to the treasury. */
  lemma {:induction false} MinedPayments(
      s: NodeState, tip: Hash, candidates: seq<Transaction>, miner: Address, timestamp: u64, nonce: u64)
    requires tip in s.store && s.store[tip].header.height + 1 < TWO_TO_THE_64
    ensures var b := MinedBlock(s, tip, candidates, miner, timestamp, nonce);
            var (minerReward, devReward) := CalculateSubsidySplit(s.store[tip].header.height + 1);
            && minerReward + devReward == Subsidy(s.store[tip].header.height + 1)
            && BlockEntries(b) == Transfers(b.transactions, miner, DEV_TREASURY_ADDRESS)
                                  + [Reward(miner, minerReward, DEV_TREASURY_ADDRESS, devReward)]
  {
  }

  lemma {:induction false} MinedHeight(
      s: NodeState, tip: Hash, candidates: seq<Transaction>, miner: Address, timestamp: u64, nonce: u64)
    requires tip in s.store
    ensures var b := MinedBlock(s, tip, candidates, miner, timestamp, nonce);
            && VerifyCoinbaseRewards(b)
            && (ApplyBlock(s.ledger, b).Ok? ==> b.header.height == s.store[tip].header.height + 1)
            && (s.store[tip].header.height + 1 < TWO_TO_THE_64 ==>
                  b.header.height == s.store[tip].header.height + 1)
  {
    var b := MinedBlock(s, tip, candidates, miner, timestamp, nonce);
    if ApplyBlock(s.ledger, b).Ok? {
      NoSecondGenesis(s.ledger, b);
    }
  }

  /** A mined block is new: its only parent is a tip, which no stored block names. */
  lemma {:induction false} MinedIsFresh(cfg: Config, s: NodeState, tip: Hash, b: VeloBlock)
    requires Inv(cfg, s) && HashBinds(cfg) && CanonicalTip(s.cache) == Some(tip) && b.header.parents == [tip]
    ensures tip in s.store && cfg.hashOf(b) !in s.store
  {
    var g := GraphOf(s.store);
    BestIsTip(g, cfg.k, s.cache, tip);
    forall h | h in s.store ensures h != cfg.hashOf(b) {
      assert PlacedOk(cfg, s.store, h);
      assert tip !in g[h] && tip in b.header.parents;
    }
  }

  lemma {:induction false} TipExists(cfg: Config, s: NodeState)
    requires Inv(cfg, s)
    ensures CanonicalTip(s.cache).Some? && CanonicalTip(s.cache).value in s.store
  {
    assert GenesisHash(cfg) in s.cache;
  }

  /** One tick. A block the ledger refuses is abandoned together with its candidates. */
  ghost function MineTick(cfg: Config, s: NodeState, candidates: seq<Transaction>, miner: Address,
                          timestamp: u64, nonce: u64): (r: NodeState)
    requires Inv(cfg, s) && HashBinds(cfg)
    ensures Inv(cfg, r)
  {
    TipExists(cfg, s);
    var tip := CanonicalTip(s.cache).value;
    var b := MinedBlock(s, tip, candidates, miner, timestamp, nonce);
    var applied := ApplyBlock(s.ledger, b);
    if applied.Err? then s
    else
      MineKeepsInv(cfg, s, tip, candidates, miner, timestamp, nonce);
      Note(Extend(cfg, s, b, applied.value), b, Mined)
  }

  lemma {:induction false} MineKeepsInv(
      cfg: Config, s: NodeState, tip: Hash, candidates: seq<Transaction>, miner: Address, timestamp: u64,
      nonce: u64)
    requires Inv(cfg, s) && HashBinds(cfg) && CanonicalTip(s.cache) == Some(tip) && tip in s.store
    requires ApplyBlock(s.ledger, MinedBlock(s, tip, candidates, miner, timestamp, nonce)).Ok?
    ensures var b := MinedBlock(s, tip, candidates, miner, timestamp, nonce);
            && Insertable(GraphOf(s.store), cfg.hashOf(b), b.header.parents)
            && Inv(cfg, Extend(cfg, s, b, ApplyBlock(s.ledger, b).value))
  {
    hide ApplyBlock, Extend;
    var b := MinedBlock(s, tip, candidates, miner, timestamp, nonce);
    MinedHeight(s, tip, candidates, miner, timestamp, nonce);
    MinedIsFresh(cfg, s, tip, b);
    assert b.header.parents == [tip];
    assert Insertable(GraphOf(s.store), cfg.hashOf(b), b.header.parents);
    assert MaxParentHeight([tip], s.store) == s.store[tip].header.height;
    AppliedIsWellRewarded(s.ledger, b);
    ExtendKeepsInv(cfg, s, b, ApplyBlock(s.ledger, b).value);
  }

  // What the miner builds, the ledger and every peer in the same state accept

  /** As long as the new supply and the next height fit 64 bits the mined block applies. */
  lemma {:induction false} MinedBlockApplies(
      s: NodeState, tip: Hash, candidates: seq<Transaction>, miner: Address, timestamp: u64, nonce: u64)
    requires tip in s.store && s.store[tip].header.height + 1 < TWO_TO_THE_64
    requires MapSum(s.ledger.balances) + Subsidy(s.store[tip].header.height + 1) < TWO_TO_THE_64
    ensures ApplyBlock(s.ledger, MinedBlock(s, tip, candidates, miner, timestamp, nonce)).Ok?
  {
    hide ApplyBlock;
    MinedHeight(s, tip, candidates, miner, timestamp, nonce);
    SelectedBlockApplies(s.ledger, candidates, MinedBlock(s, tip, candidates, miner, timestamp, nonce));
  }

  lemma {:induction false} SelectedAreCandidates(
      s: Scratch, candidates: seq<Transaction>, miner: Address, dev: Address)
    ensures var accepted := SelectAffordable(s, candidates, miner, dev).0;
            |accepted| <= |candidates| && forall tx :: tx in accepted ==> tx in candidates
  {
    SelectLosesNothing(s, candidates, miner, dev);
    var (accepted, rejected) := SelectAffordable(s, candidates, miner, dev);
    assert |multiset(accepted)| + |multiset(Refused(rejected))| == |multiset(candidates)|;
    forall tx | tx in accepted ensures tx in candidates {
      assert tx in multiset(accepted);
      assert tx in multiset(candidates);
    }
  }

  /** A peer in the miner's state admits the block: only the work, the signatures of the candidates and the
      clock are left to chance. */
  lemma {:induction false} MinedBlockAdmitted(
      cfg: Config, s: NodeState, tip: Hash, candidates: seq<Transaction>, miner: Address, timestamp: u64,
      nonce: u64, now: u64)
    requires Inv(cfg, s) && HashBinds(cfg) && CanonicalTip(s.cache) == Some(tip) && tip in s.store
    requires s.store[tip].header.height + 1 < TWO_TO_THE_64
    requires MapSum(s.ledger.balances) + Subsidy(s.store[tip].header.height + 1) < TWO_TO_THE_64
    requires |candidates| <= MAX_TRANSACTIONS_PER_BLOCK && forall tx :: tx in candidates ==> cfg.signatureOk(tx)
    requires s.store[tip].header.timestamp <= timestamp <= now + MAX_FUTURE_DRIFT_SECS
    requires VerifyPow(cfg.hashOf(MinedBlock(s, tip, candidates, miner, timestamp, nonce)), s.target)
    ensures Check(cfg, s, MinedBlock(s, tip, candidates, miner, timestamp, nonce), now) == Admit
  {
    hide ApplyBlock, Inv, VerifyCoinbaseRewards;
    var b := MinedBlock(s, tip, candidates, miner, timestamp, nonce);
    assert b.header.parents == [tip];
    MinedHeight(s, tip, candidates, miner, timestamp, nonce);
    MinedIsFresh(cfg, s, tip, b);
    MinedBlockApplies(s, tip, candidates, miner, timestamp, nonce);
    SelectedAreCandidates(ScratchOf(s.ledger), candidates, miner, DEV_TREASURY_ADDRESS);
    assert MaxParentHeight([tip], s.store) == s.store[tip].header.height;
    assert MaxParentTimestamp([tip], s.store) == s.store[tip].header.timestamp;
    assert PlacementFault(b, s.store, now) == None;
    assert ContentFault(cfg, s.target, b) == None;
  }

  // The first state

  /** A node that has just minted the genesis block. */
  function Start(cfg: Config, maxPool: nat): NodeState {
    NodeState(
      map[GenesisHash(cfg) := cfg.genesis],
      map[GenesisHash(cfg) := GhostdagData(0, None, [], [])],
      [cfg.genesis], EMPTY_LEDGER, GENESIS_TARGET, Pool(map[], maxPool, 0), 0, [])
  }

  lemma {:induction false} StartConsistent(cfg: Config, maxPool: nat)
    requires Usable(cfg)
    ensures var s := Start(cfg, maxPool); Consistent(GraphOf(s.store), cfg.k, s.cache)
  {
    var h := GenesisHash(cfg);
    InsertKeepsConsistent(map[], cfg.k, map[], h, []);
    var s := Start(cfg, maxPool);
    assert GraphOf(s.store) == map[h := []];
    assert s.cache == map[][h := Step(map[], cfg.k, [], map[])];
  }

  lemma {:induction false} StartLedger(cfg: Config, maxPool: nat)
    requires Usable(cfg)
    ensures var s := Start(cfg, maxPool); ScoreFalls(s.cache) && LedgerIsCanonical(s.store, s.cache, s.ledger)
  {
    var s := Start(cfg, maxPool);
    var g, h := GraphOf(s.store), GenesisHash(cfg);
    StartConsistent(cfg, maxPool);
    ExactlyOnce(g, cfg.k, s.cache, h);
    BelowLeast(g, [], {});
    var order := LinearSort(s.cache, h);
    assert Elems(order) == {h};
    NoDupSize(order);
    assert order[0] in Elems(order);
    assert order == [h] && order[1..] == [];
    assert ApplyBlock(EMPTY_LEDGER, cfg.genesis) == Ok(EMPTY_LEDGER);
    assert ReplayFrom(s.store, [h], EMPTY_LEDGER) == Ok(EMPTY_LEDGER);
    forall tip | CanonicalTip(s.cache) == Some(tip) ensures HoldsRecomputed(s.store, s.cache, s.ledger, tip) {
      assert tip == h;
    }
  }

  lemma {:induction false} GenesisIsWellRewarded(genesis: VeloBlock)
    requires genesis == FixedGenesisBlock(genesis.header.timestamp)
    ensures WellRewarded(genesis)
  {
  }

  lemma {:induction false} StartHistory(cfg: Config, maxPool: nat)
    requires Usable(cfg)
    ensures var s := Start(cfg, maxPool); HistoryOk(cfg, s.store, s.history) && Placed(cfg, s.store)
  {
    hide WellRewarded;
    var s := Start(cfg, maxPool);
    GenesisIsWellRewarded(cfg.genesis);
    assert PlacedOk(cfg, s.store, GenesisHash(cfg));
    assert HashesOf(cfg, [cfg.genesis]) == [GenesisHash(cfg)];
  }

  lemma {:induction false} StartKeepsInv(cfg: Config, maxPool: nat)
    requires Usable(cfg)
    ensures Inv(cfg, Start(cfg, maxPool)) && GossipInv(Start(cfg, maxPool))
  {
    hide LedgerIsCanonical, Consistent, HistoryOk, Placed;
    StartConsistent(cfg, maxPool);
    StartLedger(cfg, maxPool);
    StartHistory(cfg, maxPool);
  }

  // What mining does not keep

  lemma {:induction false} MineTickAdopts(
      cfg: Config, s: NodeState, tip: Hash, candidates: seq<Transaction>, miner: Address, timestamp: u64,
      nonce: u64)
    requires Inv(cfg, s) && HashBinds(cfg) && CanonicalTip(s.cache) == Some(tip) && tip in s.store
    requires ApplyBlock(s.ledger, MinedBlock(s, tip, candidates, miner, timestamp, nonce)).Ok?
    ensures var s' := MineTick(cfg, s, candidates, miner, timestamp, nonce);
            var b := MinedBlock(s, tip, candidates, miner, timestamp, nonce);
            s'.store == s.store[cfg.hashOf(b) := b] && s'.pool == s.pool
  {
    hide ApplyBlock, Inv, MinedBlock;
  }

  lemma {:induction false} MinedTimes(store: Store, hash: Hash, b: VeloBlock, tip: Hash)
    requires TimesOrdered(store) && Closed(GraphOf(store)) && hash !in store && tip in store
    requires b.header.parents == [tip]
    ensures TimesOrdered(store[hash := b]) <==> store[tip].header.timestamp <= b.header.timestamp
  {
    var store' := store[hash := b];
    if store[tip].header.timestamp <= b.header.timestamp {
      TimesExtend(store, hash, b);
    } else {
      assert hash in store' && tip in store'[hash].header.parents && tip in store';
    }
  }

  /** The tick neither compares the clock with the tip nor wakes the orphans of the block it mines: timestamps
      stay ordered exactly when the clock is not behind the tip, and nobody waits in vain exactly when no orphan
      waited for the mined hash. */
  lemma {:induction false} MinedBlockAndGossip(
      cfg: Config, s: NodeState, tip: Hash, candidates: seq<Transaction>, miner: Address, timestamp: u64,
      nonce: u64)
    requires Inv(cfg, s) && HashBinds(cfg) && GossipInv(s)
    requires CanonicalTip(s.cache) == Some(tip) && tip in s.store
    requires ApplyBlock(s.ledger, MinedBlock(s, tip, candidates, miner, timestamp, nonce)).Ok?
    ensures var s' := MineTick(cfg, s, candidates, miner, timestamp, nonce);
            var hash := cfg.hashOf(MinedBlock(s, tip, candidates, miner, timestamp, nonce));
            && (TimesOrdered(s'.store) <==> s.store[tip].header.timestamp <= timestamp)
            && (WaitersWait(s'.store, s'.pool) <==> hash !in s.pool.waitingOn)
  {
    hide ApplyBlock, Inv, MineTick, TimesOrdered;
    var b := MinedBlock(s, tip, candidates, miner, timestamp, nonce);
    assert b.header.parents == [tip] && b.header.timestamp == timestamp;
    InvParts(cfg, s);
    MinedIsFresh(cfg, s, tip, b);
    MineTickAdopts(cfg, s, tip, candidates, miner, timestamp, nonce);
    MinedTimes(s.store, cfg.hashOf(b), b, tip);
  }
}
