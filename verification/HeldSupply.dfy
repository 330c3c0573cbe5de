/** Bounds on the money a node holds, whether or not its canonical order replays. */
module HeldSupply {
  import opened Types
  import opened Sequences
  import opened Sums
  import opened Dag
  import opened ForkChoice
  import opened Emission
  import opened LedgerRules
  import opened Replay
  import opened Validation
  import opened NodeRules
  import opened Chain
  import opened SupplyBound
  import opened Mining
  import opened Restart
  import opened Runs
  import opened Convergence
  import opened Scenario

  /** Everything the stored blocks mint. */
  ghost function MintedByStore(store: Store): int {
    SetSum(store.Keys, Mints(store))
  }

  lemma {:induction false} StoreMintsMore(store: Store, h: Hash, b: VeloBlock)
    requires h !in store
    ensures MintedByStore(store[h := b]) == MintedByStore(store) + Minted(b)
  {
    var store' := store[h := b];
    assert store'.Keys == store.Keys + {h};
    SumAgree(store.Keys, Mints(store), Mints(store'));
    SumInsert(store.Keys, Mints(store'), h);
  }

  lemma {:induction false} PartMintsLess(store: Store, blocks: set<Hash>)
    requires blocks <= store.Keys
    ensures SetSum(blocks, Mints(store)) <= MintedByStore(store)
  {
    var rest := store.Keys - blocks;
    SumSplit(blocks, rest, Mints(store));
    assert blocks + rest == store.Keys;
    SumNonNegative(rest, Mints(store));
  }

  lemma {:induction false} CanonicalWithinMinted(store: Store, k: nat)
    ensures CanonicalSupply(store, k) <= MintedByStore(store)
  {
    hide SetSum, IsCanonical;
    SumNonNegative(store.Keys, Mints(store));
    if HasCanonical(store, k) {
      SupplyOfSome(store, k);
    }
  }

  lemma {:induction false} SupplyOfSome(store: Store, k: nat)
    requires HasCanonical(store, k)
    ensures CanonicalSupply(store, k) <= MintedByStore(store)
  {
    hide SetSum;
    var c, tip :| IsCanonical(store, k, c, tip);
    CanonicalSupplyIs(store, k, c, tip);
    var blocks := Past(GraphOf(store), tip) + {tip};
    PartMintsLess(store, blocks);
    SumNonNegative(blocks, TransactionCounts(store));
  }

  lemma {:induction false} TotalWithinMinted(cfg: Config, order: seq<VeloBlock>)
    requires order != [] && NoDup(HashesOf(cfg, order)) && order[0] == cfg.genesis
    requires cfg.genesis == FixedGenesisBlock(cfg.genesis.header.timestamp)
    ensures Elems(HashesOf(cfg, order)) == StoreOf(cfg.hashOf, order).Keys
    ensures HeldTotal(cfg.hashOf, cfg.k, order) <= MintedByStore(StoreOf(cfg.hashOf, order))
    decreases |order|
  {
    hide SetSum, Recomputes, CanonicalSupply, Minted;
    var n := |order| - 1;
    var store, b := StoreOf(cfg.hashOf, order), order[n];
    var before := StoreOf(cfg.hashOf, order[..n]);
    HashesSnoc(cfg, order[..n], b);
    assert order == order[..n] + [b];
    ElemsConcat(HashesOf(cfg, order[..n]), [cfg.hashOf(b)]);
    assert Elems([cfg.hashOf(b)]) == {cfg.hashOf(b)};
    if n == 0 {
      assert order[..0] == [];
      SumNonNegative(store.Keys, Mints(store));
    } else {
      assert forall i :: 0 <= i < n ==> HashesOf(cfg, order)[i] == HashesOf(cfg, order[..n])[i];
      TotalWithinMinted(cfg, order[..n]);
      assert HashesOf(cfg, order)[n] !in HashesOf(cfg, order[..n]);
      StoreMintsMore(before, cfg.hashOf(b), b);
      CanonicalWithinMinted(store, cfg.k);
    }
  }

  /** After every run the node holds at most what its stored blocks mint, replayed or not. */
  lemma {:induction false} HeldWithinMinted(cfg: Config, maxPool: nat, events: seq<Event>)
    requires Runnable(cfg, events)
    ensures var s := Run(cfg, maxPool, events); MapSum(s.ledger.balances) <= MintedByStore(s.store)
  {
    hide Run, Inv, MapSum, HeldTotal, HeldAfter, StoreOf, MintedByStore, HashesOf, StoredBlocks;
    LedgerFollowsStoring(cfg, maxPool, events);
    var s := Run(cfg, maxPool, events);
    InvParts(cfg, s);
    TotalWithinMinted(cfg, StoringOrder(cfg, s));
  }

  // When the schedule bounds a whole store

  lemma {:induction false} HighestExists(store: Store, hs: set<Hash>) returns (top: Hash)
    requires hs != {} && hs <= store.Keys
    ensures top in hs && forall h :: h in hs ==> HeightOf(store, h) <= HeightOf(store, top)
    decreases |hs|
  {
    var h :| h in hs;
    if hs == {h} {
      top := h;
    } else {
      var rest := hs - {h};
      assert rest != {};
      var other := HighestExists(store, rest);
      top := if HeightOf(store, other) < HeightOf(store, h) then h else other;
      forall x | x in hs ensures HeightOf(store, x) <= HeightOf(store, top) {
        assert x == h || x in rest;
      }
    }
  }

  /** A whole store mints never less than the schedule up to its highest block, and exactly that if and only if no two
      of its blocks share a paying height. */
  lemma {:induction false} StoreMintsIffOnePerHeight(cfg: Config, s: NodeState) returns (top: Hash)
    requires Inv(cfg, s)
    ensures top in s.store && forall h :: h in s.store ==> HeightOf(s.store, h) <= HeightOf(s.store, top)
    ensures MintedByStore(s.store) >= Issuance(HeightOf(s.store, top))
    ensures MintedByStore(s.store) == Issuance(HeightOf(s.store, top)) <==>
            OnePerPayingHeight(s.store, s.store.Keys)
  {
    hide Inv, Placed, HistoryOk, Issuance, SetSum;
    InvParts(cfg, s);
    var store := s.store;
    assert store.Keys != {};
    top := HighestExists(store, store.Keys);
    var path := LongestPath(cfg, store, top);
    var rest := store.Keys - path;
    SumSplit(path, rest, Mints(store));
    assert path + rest == store.Keys;
    SumZeroIff(rest, Mints(store));
    RestPaysNothing(store, store.Keys, path, HeightOf(store, top));
  }

  /** A run that stores at most one block per paying height never holds more than 20,999,065,452,762 base units,
      whether or not its canonical order replays. */
  lemma {:induction false} HeldCap(cfg: Config, maxPool: nat, events: seq<Event>)
    requires Runnable(cfg, events)
    requires var s := Run(cfg, maxPool, events); OnePerPayingHeight(s.store, s.store.Keys)
    ensures MapSum(Run(cfg, maxPool, events).ledger.balances) <= SUPPLY_LIMIT
  {
    hide Run, Inv, MapSum, MintedByStore, Issuance;
    var s := Run(cfg, maxPool, events);
    HeldWithinMinted(cfg, maxPool, events);
    var top := StoreMintsIffOnePerHeight(cfg, s);
    SupplyCap(HeightOf(s.store, top));
  }

  // A node that mines alone

  /** One line of blocks up to the canonical tip. */
  ghost predicate OneLine(s: NodeState, tip: Hash) {
    && AtMostOneParent(s.store) && CanonicalTip(s.cache) == Some(tip) && Highest(s.store, tip)
    && forall x, y :: x in s.store && y in s.store && x != y ==> HeightOf(s.store, x) != HeightOf(s.store, y)
  }

  lemma {:induction false} MineKeepsLine(
      cfg: Config, s: NodeState, tip: Hash, candidates: seq<Transaction>, miner: Address, timestamp: u64, nonce: u64)
    returns (tip': Hash)
    requires Inv(cfg, s) && HashBinds(cfg) && OneLine(s, tip)
    ensures OneLine(MineTick(cfg, s, candidates, miner, timestamp, nonce), tip')
  {
    hide Inv, HashBinds, ApplyBlock, MinedBlock, Extend, BlocksOf, RecomputeLedger;
    var b := MinedBlock(s, tip, candidates, miner, timestamp, nonce);
    if ApplyBlock(s.ledger, b).Err? {
      tip' := tip;
    } else {
      tip' := cfg.hashOf(b);
      MinedParent(s, tip, candidates, miner, timestamp, nonce);
      MinedHeight(s, tip, candidates, miner, timestamp, nonce);
      MinedIsFresh(cfg, s, tip, b);
      MineAdopts(cfg, s, tip, candidates, miner, timestamp, nonce);
      AdoptHighest(cfg, s, MineTick(cfg, s, candidates, miner, timestamp, nonce), b, tip');
    }
  }

  lemma {:induction false} MinedParent(
      s: NodeState, tip: Hash, candidates: seq<Transaction>, miner: Address, timestamp: u64, nonce: u64)
    requires tip in s.store
    ensures MinedBlock(s, tip, candidates, miner, timestamp, nonce).header.parents == [tip]
  {
  }

  lemma {:induction false} SoloLine(cfg: Config, maxPool: nat, events: seq<Event>) returns (tip: Hash)
    requires Usable(cfg) && HashBinds(cfg) && forall e :: e in events ==> !e.Receive?
    ensures OneLine(Run(cfg, maxPool, events), tip)
  {
    hide Inv, HashBinds, OneLine, MineTick, Restarted, StoredByHeight;
    if events == [] {
      tip := GenesisHash(cfg);
      StartLine(cfg, maxPool);
    } else {
      var n := |events| - 1;
      assert events[n] in events;
      var before := SoloLine(cfg, maxPool, events[..n]);
      var s := Run(cfg, maxPool, events[..n]);
      if events[n].Mine? {
        tip := MineKeepsLine(
          cfg, s, before, events[n].candidates, events[n].miner, events[n].timestamp, events[n].nonce);
      } else {
        tip := before;
        SameLine(s, Run(cfg, maxPool, events), before);
      }
    }
  }

  lemma {:induction false} StartLine(cfg: Config, maxPool: nat)
    requires Usable(cfg)
    ensures OneLine(Start(cfg, maxPool), GenesisHash(cfg))
  {
    hide Inv;
    StartKeepsInv(cfg, maxPool);
    TipExists(cfg, Start(cfg, maxPool));
  }

  lemma {:induction false} SameLine(s: NodeState, s': NodeState, tip: Hash)
    requires OneLine(s, tip) && s'.store == s.store && s'.cache == s.cache
    ensures OneLine(s', tip)
  {
  }

  /** A node that only mines and restarts never holds more than 20,999,065,452,762 base units, although by
      `ChainTipWithTransactionFails` its ledger is not the recomputed one whenever its tip carries a transaction. */
  lemma {:induction false} SoloCap(cfg: Config, maxPool: nat, events: seq<Event>)
    requires Usable(cfg) && HashBinds(cfg) && forall e :: e in events ==> !e.Receive?
    ensures MapSum(Run(cfg, maxPool, events).ledger.balances) <= SUPPLY_LIMIT
  {
    hide Run, Inv, HashBinds, MapSum;
    var tip := SoloLine(cfg, maxPool, events);
    HeldCap(cfg, maxPool, events);
  }
}
