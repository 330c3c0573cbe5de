/** The startup loop over stored blocks. */
module Startup {
  import opened Types
  import opened Colouring
  import opened LedgerRules
  import opened LedgerObjects
  import opened Replay
  import opened Orphans
  import opened Ghostdag
  import opened Arrival
  import opened Validation
  import opened NodeRules
  import opened Restart

  lemma {:induction false} LoadsFirst(cfg: Config, block: VeloBlock, rest: seq<VeloBlock>, store: Store, c: Cache)
    ensures var h := cfg.hashOf(block);
            InsertAll(cfg.k, ItemsOf(cfg, [block] + rest), store, c) ==
            InsertAll(cfg.k, ItemsOf(cfg, rest), store[h := block],
                      c[h := Step(GraphOf(store), cfg.k, block.header.parents, c)])
  {
    hide ItemsOf;
    ItemsOfCons(cfg, block, rest);
  }

  /** Colours and stores the first of the blocks still to load. */
  method LoadBlock(manager: GhostdagManager, cfg: Config, block: VeloBlock, ghost rest: seq<VeloBlock>)
    requires manager.k == cfg.k
    modifies manager
    ensures InsertAll(cfg.k, ItemsOf(cfg, rest), manager.blockStore, manager.ghostdagCache) ==
            old(InsertAll(cfg.k, ItemsOf(cfg, [block] + rest), manager.blockStore, manager.ghostdagCache))
  {
    hide InsertAll;
    LoadsFirst(cfg, block, rest, manager.blockStore, manager.ghostdagCache);
    var data := manager.CalculateGhostdagData(block);
    manager.Insert(cfg.hashOf(block), block, data);
  }

  /** Loads genesis and then every stored block above height 0, in the order given, whatever that is: store,
      colouring and history are those of a load in this order. */
  method LoadBlocks(cfg: Config, stored: seq<VeloBlock>) returns (manager: GhostdagManager, history: seq<VeloBlock>)
    ensures fresh(manager) && manager.k == cfg.k
    ensures (manager.blockStore, manager.ghostdagCache) ==
            InsertAll(cfg.k, ItemsOf(cfg, ReplayedBlocks(cfg, stored)), map[], map[])
    ensures history == ReplayedBlocks(cfg, stored)
  {
    hide InsertAll, ItemsOf, AboveGenesis;
    ghost var all := InsertAll(cfg.k, ItemsOf(cfg, ReplayedBlocks(cfg, stored)), map[], map[]);
    manager := new GhostdagManager(cfg.k);
    LoadBlock(manager, cfg, cfg.genesis, AboveGenesis(stored));
    history := [cfg.genesis];
    assert stored[0..] == stored;
    for i := 0 to |stored|
      invariant fresh(manager) && manager.k == cfg.k
      invariant InsertAll(cfg.k, ItemsOf(cfg, AboveGenesis(stored[i..])), manager.blockStore, manager.ghostdagCache)
                == all
      invariant history + AboveGenesis(stored[i..]) == ReplayedBlocks(cfg, stored)
    {
      AboveGenesisFrom(stored, i);
      ghost var rest := AboveGenesis(stored[i + 1..]);
      if stored[i].header.height != 0 {
        LoadBlock(manager, cfg, stored[i], rest);
        assert history + ([stored[i]] + rest) == history + [stored[i]] + rest;
        history := history + [stored[i]];
      }
    }
    assert stored[|stored|..] == [];
    LoadsNothingMore(cfg, manager.blockStore, manager.ghostdagCache);
  }

  lemma {:induction false} AboveGenesisFrom(stored: seq<VeloBlock>, i: nat)
    requires i < |stored|
    ensures AboveGenesis(stored[i..]) ==
            if stored[i].header.height == 0 then AboveGenesis(stored[i + 1..])
            else [stored[i]] + AboveGenesis(stored[i + 1..])
  {
    assert stored[i..][0] == stored[i] && stored[i..][1..] == stored[i + 1..];
  }

  /** The recomputed ledger where the canonical order replays, the persisted one where it does not. */
  method RestoreLedger(manager: GhostdagManager, persisted: Option<Ledger>) returns (ledger: LedgerState)
    requires manager.Valid()
    ensures fresh(ledger) && ScoreFalls(manager.ghostdagCache)
    ensures ledger.Value() == StartupLedger(manager.blockStore, manager.ghostdagCache, persisted)
  {
    hide Replay.RecomputeLedger;
    ConsistentFalls(manager.Graph(), manager.k, manager.ghostdagCache);
    ledger := new LedgerState();
    var tip := manager.SelectCanonicalTip();
    if tip.Some? {
      var recomputed, error := manager.RecomputeLedger(tip.value);
      if error.None? {
        return recomputed;
      }
    }
    if persisted.Some? {
      ledger.Load(persisted.value);
    }
  }

  /** A restart from the blocks a state `s` stored and any persisted ledger, or none: the node is the restarted one,
      with the store and the colouring it had. With the ledger last held as snapshot it holds that ledger. */
  method Resume(cfg: Config, stored: seq<VeloBlock>, persisted: Option<Ledger>, ghost s: NodeState)
    returns (manager: GhostdagManager, ledger: LedgerState, history: seq<VeloBlock>, target: Target)
    requires Inv(cfg, s) && StoredByHeight(cfg, s.store, stored)
    ensures fresh(manager) && fresh(ledger) && manager.k == cfg.k && manager.Valid()
    ensures manager.blockStore == s.store && manager.ghostdagCache == s.cache && history == stored
    ensures forall size: nat ::
      NodeState(manager.blockStore, manager.ghostdagCache, history, ledger.Value(), target,
                Pool(map[], size, 0), s.calls, s.journal) == Restarted(cfg, s, stored, persisted, size)
    ensures persisted == Some(s.ledger) ==> ledger.Value() == s.ledger
    ensures stored != [] && target == stored[|stored| - 1].header.difficultyTarget
  {
    hide Inv, StoredByHeight, ParentFirst, InsertAll, StartupLedger;
    RestartRebuilds(cfg, s, stored);
    ReplaysAll(cfg, s, stored);
    manager, history := LoadBlocks(cfg, stored);
    InvParts(cfg, s);
    assert manager.Valid();
    RestartKeepsLedger(cfg, s);
    ledger := RestoreLedger(manager, persisted);
    target := history[|history| - 1].header.difficultyTarget;
  }
}
