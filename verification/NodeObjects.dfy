/** The node as the object its event loop updates in place. */
module NodeObjects {
  import opened Types
  import opened Dag
  import opened Colouring
  import opened ForkChoice
  import opened LinearOrder
  import opened Emission
  import opened LedgerObjects
  import opened Merkle
  import opened Replay
  import opened Ghostdag
  import opened Orphans
  import opened Validation
  import opened NodeRules
  import opened Mining
  import opened Checks

  class Node {
    const cfg: Config
    const ghostdag: GhostdagManager
    const orphans: OrphanPool
    const ledger: LedgerState
    var history: seq<VeloBlock>
    var target: Target
    var calls: nat
    var journal: seq<(VeloBlock, Outcome)>

    ghost function State(): NodeState
      reads this, ghostdag, orphans, ledger
    {
      NodeState(ghostdag.blockStore, ghostdag.ghostdagCache, history, ledger.Value(), target, orphans.Value(),
                calls, journal)
    }

    ghost predicate Valid()
      reads this, ghostdag, orphans, ledger
    {
      ghostdag.k == cfg.k && Inv(cfg, State())
    }

    /** Mints the genesis block on empty storage. */
    constructor (cfg: Config, maxPool: nat)
      requires Usable(cfg)
      ensures this.cfg == cfg && fresh(ghostdag) && fresh(orphans) && fresh(ledger)
      ensures Valid() && State() == Start(cfg, maxPool)
    {
      var manager := new GhostdagManager(cfg.k);
      var pool := new OrphanPool(maxPool);
      var accounts := new LedgerState();
      var error := accounts.ApplyBlock(cfg.genesis);
      var data := manager.CalculateGhostdagData(cfg.genesis);
      manager.Insert(cfg.hashOf(cfg.genesis), cfg.genesis, data);
      this.cfg := cfg;
      ghostdag, orphans, ledger := manager, pool, accounts;
      history := [cfg.genesis];
      target := GENESIS_TARGET;
      calls := 0;
      journal := [];
      new;
      StartKeepsInv(cfg, maxPool);
    }

    method Log(block: VeloBlock, outcome: Outcome)
      requires Valid()
      modifies this`journal
      ensures Valid() && State() == Note(old(State()), block, outcome)
    {
      journal := journal + [(block, outcome)];
    }

    /** All checks in order; the last one applies an admitted block to the ledger. */
    method Judge(block: VeloBlock, now: u64) returns (verdict: Verdict)
      modifies ledger
      ensures verdict == Check(cfg, old(State()), block, now)
      ensures verdict == Admit ==> Ok(ledger.Value()) == LedgerRules.ApplyBlock(old(ledger.Value()), block)
      ensures verdict != Admit ==> ledger.Value() == old(ledger.Value())
    {
      hide LedgerRules.ApplyBlock, ContentFault, PlacementFault, FirstMissing;
      if cfg.hashOf(block) in ghostdag.blockStore {
        return AlreadyKnown;
      }
      var fault := CheckContent(cfg, target, block);
      if fault.Some? {
        return Refuse(fault.value);
      }
      var missing, misplaced := CheckPlacement(ghostdag.blockStore, block, now);
      if missing.Some? {
        return MissingParent(missing.value);
      }
      if misplaced.Some? {
        return Refuse(misplaced.value);
      }
      var error := ledger.ApplyBlock(block);
      verdict := match error case None => Admit case Some(e) => Refuse(InvalidLedgerState(e));
    }

    /** Colours and stores a block the ledger has already taken, then makes the canonical order authoritative
        for ledger and target. `s` is the state before the ledger took the block. */
    method Adopt(block: VeloBlock, ghost s: NodeState)
      requires ghostdag.k == cfg.k && Inv(cfg, s) && State() == s.(ledger := ledger.Value())
      requires Insertable(GraphOf(s.store), cfg.hashOf(block), block.header.parents)
      modifies `history, `target, ghostdag, ledger
      ensures State() == Extend(cfg, s, block, old(ledger.Value()))
    {
      hide Inv, Consistent, Replay.RecomputeLedger, Step, LinearSort, BlocksOf, CanonicalTip, GraphOf;
      InvParts(cfg, s);
      var hash := cfg.hashOf(block);
      var data := ghostdag.CalculateGhostdagData(block);
      assert ghostdag.Valid() && ghostdag.Fits(hash, block, data);
      ghostdag.Insert(hash, block, data);
      history := history + [block];
      ExtendKeepsConsistent(s.store, cfg.k, s.cache, hash, block);
      var selected := ghostdag.SelectCanonicalTip();
      var tip := if selected.Some? then selected.value else hash;
      var recomputed, error := ghostdag.RecomputeLedger(tip);
      if error.None? {
        ledger.Assign(recomputed);
      }
      var canonical := ghostdag.CanonicalBlockOrder(tip);
      target := cfg.daa.CalculateNextTarget(canonical, target);
    }

    /** Stores an admitted block and takes the orphans that waited for it. */
    method AcceptBlock(block: VeloBlock, now: u64, ghost s: NodeState) returns (ready: seq<VeloBlock>)
      requires ghostdag.k == cfg.k && Inv(cfg, s) && Check(cfg, s, block, now) == Admit
      requires State() == s.(ledger := ledger.Value())
      requires Ok(ledger.Value()) == LedgerRules.ApplyBlock(s.ledger, block)
      modifies this, ghostdag, orphans, ledger
      ensures (State(), ready) == Accept(cfg, s, block, now)
      ensures Valid()
    {
      hide Inv, Check, Extend, LedgerRules.ApplyBlock;
      AdmittedIsPlaced(cfg, s, block, now);
      InvParts(cfg, s);
      Adopt(block, s);
      ExtendKeepsPool(cfg, s, block, old(ledger.Value()));
      journal := journal + [(block, Accepted)];
      ready := orphans.TakeReady(cfg.hashOf(block));
    }

    /** Checks a block and stores, refuses or buffers it; a stored block replays the orphans that waited for
        it, each through this same method. */
    method ValidateAndIngest(block: VeloBlock)
      requires Valid()
      modifies this, ghostdag, orphans, ledger
      ensures Valid() && State() == Ingest(cfg, old(State()), block)
      decreases orphans.currentSize, 1
    {
      hide Inv, Check, Accept;
      ghost var start := State();
      TickKeepsInv(cfg, start);
      var now := cfg.clock(calls);
      calls := calls + 1;
      ghost var s := State();
      assert s == Tick(start);
      var verdict := Judge(block, now);
      match verdict
      case AlreadyKnown => Log(block, Known);
      case Refuse(reason) => Log(block, Rejected(reason));
      case MissingParent(parent) => Buffer(parent, block);
      case Admit =>
        var ready := AcceptBlock(block, now, s);
        ReplayReady(ready, start.pool.currentSize);
    }

    /** Sends the orphans of a stored block through the checks one by one. `bound` is the pool size before
        they were taken out. */
    method ReplayReady(ready: seq<VeloBlock>, ghost bound: nat)
      requires Valid() && orphans.currentSize + |ready| <= bound && orphans.currentSize + |ready| <= orphans.maxSize
      modifies this, ghostdag, orphans, ledger
      ensures Valid() && State() == ReplayOrphans(cfg, old(State()), ready)
      decreases bound, 0
    {
      hide Inv, Ingest;
      ghost var s := State();
      for i := 0 to |ready|
        invariant Valid()
        invariant orphans.currentSize + |ready| - i <= bound
        invariant orphans.currentSize + |ready| - i <= orphans.maxSize
        invariant ReplayOrphans(cfg, State(), ready[i..]) == ReplayOrphans(cfg, s, ready)
      {
        assert ready[i..][1..] == ready[i + 1..];
        ValidateAndIngest(ready[i]);
      }
    }

    method Buffer(parent: Hash, block: VeloBlock)
      requires Valid()
      modifies this`journal, orphans
      ensures Valid() && State() == NodeRules.Buffer(old(State()), parent, block)
    {
      InsertKeepsPool(orphans.Value(), parent, block);
      if orphans.currentSize >= orphans.maxSize {
        journal := journal + [(block, PoolFull)];
      }
      orphans.Insert(parent, block);
    }

    /** The block for the next height with every candidate that applies. */
    method BuildBlock(tip: Hash, candidates: seq<Transaction>, miner: Address, timestamp: u64, nonce: u64)
      returns (block: VeloBlock)
      requires tip in ghostdag.blockStore
      ensures block == MinedBlock(State(), tip, candidates, miner, timestamp, nonce)
    {
      var height: u64 := (ghostdag.blockStore[tip].header.height + 1) % TWO_TO_THE_64;
      var (minerReward, devReward) := CalculateSubsidySplit(height);
      var affordable, refused := ledger.SelectAffordable(candidates, miner, DEV_TREASURY_ADDRESS);
      var root := TransactionMerkleRoot(affordable);
      block := VeloBlock(
        BlockHeader(timestamp, [tip], root, nonce, height, target), affordable,
        miner, minerReward, DEV_TREASURY_ADDRESS, devReward);
    }

    /** Builds on the canonical tip, applies the block, and adopts it once the search has found `nonce`. */
    method Mine(candidates: seq<Transaction>, miner: Address, timestamp: u64, nonce: u64)
      requires Valid() && HashBinds(cfg)
      modifies this, ghostdag, ledger
      ensures Valid() && State() == MineTick(cfg, old(State()), candidates, miner, timestamp, nonce)
    {
      hide Inv, Extend, MinedBlock, HashBinds, LedgerRules.ApplyBlock;
      ghost var s := State();
      InvParts(cfg, s);
      TipExists(cfg, s);
      var selected := ghostdag.SelectCanonicalTip();
      var tip := selected.value;
      var block := BuildBlock(tip, candidates, miner, timestamp, nonce);
      var error := ledger.ApplyBlock(block);
      if error.None? {
        MineKeepsInv(cfg, s, tip, candidates, miner, timestamp, nonce);
        Adopt(block, s);
        Log(block, Mined);
      }
    }
  }
}
