/** Starting again from the stored blocks. */
module Restart {
  import opened Types
  import opened Sequences
  import opened Dag
  import opened Colouring
  import opened ForkChoice
  import opened LedgerRules
  import opened Replay
  import opened LinearOrder
  import opened Solvency
  import opened Arrival
  import opened Orphans
  import opened Validation
  import opened NodeRules
  import opened NodeRuns

  /** What the block tree yields: every stored block once, lowest heights first, ties in any order. */
  ghost predicate StoredByHeight(cfg: Config, store: Store, blocks: seq<VeloBlock>) {
    var ids := HashesOf(cfg, blocks);
    && NoDup(ids) && Elems(ids) == store.Keys
    && (forall i :: 0 <= i < |blocks| ==> store[ids[i]] == blocks[i])
    && forall i, j :: 0 <= i < j < |blocks| ==> blocks[i].header.height <= blocks[j].header.height
  }

  /** The startup loop skips height 0, which was loaded before it. */
  function AboveGenesis(blocks: seq<VeloBlock>): seq<VeloBlock> {
    if blocks == [] then []
    else (if blocks[0].header.height == 0 then [] else [blocks[0]]) + AboveGenesis(blocks[1..])
  }

  function ItemsOf(cfg: Config, blocks: seq<VeloBlock>): (r: seq<Item>)
    ensures |r| == |blocks| && forall i :: 0 <= i < |blocks| ==> r[i] == (cfg.hashOf(blocks[i]), blocks[i])
  {
    if blocks == [] then [] else [(cfg.hashOf(blocks[0]), blocks[0])] + ItemsOf(cfg, blocks[1..])
  }

  lemma {:induction false} ItemsOfCons(cfg: Config, b: VeloBlock, rest: seq<VeloBlock>)
    ensures ItemsOf(cfg, [b] + rest) == [(cfg.hashOf(b), b)] + ItemsOf(cfg, rest)
    ensures ItemsOf(cfg, [b] + rest)[1..] == ItemsOf(cfg, rest)
  {
    assert ([b] + rest)[1..] == rest;
  }

  lemma {:induction false} LoadsNothingMore(cfg: Config, store: Store, c: Cache)
    ensures AboveGenesis([]) == []
    ensures InsertAll(cfg.k, ItemsOf(cfg, []), store, c) == (store, c)
  {
  }

  /** Genesis first, then the others as they come. */
  function ReplayedBlocks(cfg: Config, blocks: seq<VeloBlock>): seq<VeloBlock> {
    [cfg.genesis] + AboveGenesis(blocks)
  }

  /** The recomputed ledger, or the persisted one when the canonical order does not replay. */
  ghost function StartupLedger(store: Store, c: Cache, persisted: Option<Ledger>): Ledger
    requires ScoreFalls(c)
  {
    var fallback := if persisted.Some? then persisted.value else EMPTY_LEDGER;
    var tip := CanonicalTip(c);
    if tip.None? then fallback
    else
      var replayed := RecomputeLedger(store, c, tip.value);
      if replayed.Ok? then replayed.value else fallback
  }

  lemma {:induction false} NothingSkipped(blocks: seq<VeloBlock>)
    requires forall i :: 0 <= i < |blocks| ==> blocks[i].header.height != 0
    ensures AboveGenesis(blocks) == blocks
  {
    if blocks == [] {
    } else {
      NothingSkipped(blocks[1..]);
    }
  }

  lemma {:induction false} FirstIsGenesis(cfg: Config, s: NodeState, blocks: seq<VeloBlock>)
    requires Inv(cfg, s) && StoredByHeight(cfg, s.store, blocks)
    ensures blocks != [] && blocks[0] == cfg.genesis
  {
    hide Inv;
    var ids, h := HashesOf(cfg, blocks), GenesisHash(cfg);
    InvParts(cfg, s);
    assert h in Elems(ids);
    var i :| 0 <= i < |ids| && ids[i] == h;
    assert ids[0] in Elems(ids) && ids[i] in Elems(ids);
    OnlyGenesis(cfg, s, h);
    OnlyGenesis(cfg, s, ids[0]);
    assert forall j :: 0 <= j < |blocks| ==> blocks[0].header.height <= blocks[j].header.height;
  }

  lemma {:induction false} OthersAreHigher(cfg: Config, s: NodeState, blocks: seq<VeloBlock>, j: nat)
    requires Inv(cfg, s) && StoredByHeight(cfg, s.store, blocks)
    requires blocks != [] && blocks[0] == cfg.genesis && 1 <= j < |blocks|
    ensures blocks[j].header.height != 0
  {
    hide Inv;
    var ids := HashesOf(cfg, blocks);
    assert ids[j] in Elems(ids);
    assert ids[0] == GenesisHash(cfg) && ids[0] != ids[j];
    OnlyGenesis(cfg, s, ids[j]);
  }

  /** Sorted by height, the stored blocks begin with genesis and nothing else is skipped. */
  lemma {:induction false} ReplaysAll(cfg: Config, s: NodeState, blocks: seq<VeloBlock>)
    requires Inv(cfg, s) && StoredByHeight(cfg, s.store, blocks)
    ensures blocks != [] && ReplayedBlocks(cfg, blocks) == blocks
  {
    hide Inv, StoredByHeight, AboveGenesis;
    FirstIsGenesis(cfg, s, blocks);
    var rest := blocks[1..];
    forall i | 0 <= i < |rest| ensures rest[i].header.height != 0 {
      OthersAreHigher(cfg, s, blocks, i + 1);
    }
    NothingSkipped(rest);
    GenesisIsSkipped(cfg, s, blocks);
    assert blocks == [cfg.genesis] + rest;
  }

  lemma {:induction false} GenesisIsSkipped(cfg: Config, s: NodeState, blocks: seq<VeloBlock>)
    requires Inv(cfg, s) && blocks != [] && blocks[0] == cfg.genesis
    ensures AboveGenesis(blocks) == AboveGenesis(blocks[1..])
  {
    hide DagInv;
    assert cfg.genesis.header.height == 0;
  }

  /** Every parent comes earlier in the list. */
  ghost predicate ParentsEarlier(cfg: Config, blocks: seq<VeloBlock>) {
    forall i, p :: 0 <= i < |blocks| && p in blocks[i].header.parents ==> p in HashesOf(cfg, blocks)[..i]
  }

  /** Parents have smaller heights, so they come first. */
  lemma {:induction false} HeightOrderIsParentOrder(cfg: Config, s: NodeState, blocks: seq<VeloBlock>)
    requires Inv(cfg, s) && StoredByHeight(cfg, s.store, blocks)
    ensures ParentsEarlier(cfg, blocks)
  {
    hide Inv;
    var ids := HashesOf(cfg, blocks);
    forall i, p | 0 <= i < |blocks| && p in blocks[i].header.parents ensures p in ids[..i] {
      assert ids[i] in Elems(ids);
      ParentLower(cfg, s, ids[i], p);
      assert p in Elems(ids);
      var j :| 0 <= j < |ids| && ids[j] == p;
      assert blocks[j].header.height < blocks[i].header.height;
      assert j < i;
    }
  }

  lemma {:induction false} KeysStep(ids: seq<Hash>, i: nat, store: Store, b: VeloBlock)
    requires NoDup(ids) && i < |ids| && store.Keys == Elems(ids[..i])
    ensures ids[i] !in store && store[ids[i] := b].Keys == Elems(ids[..i + 1])
  {
    assert ids[..i + 1] == ids[..i] + [ids[i]];
    ElemsConcat(ids[..i], [ids[i]]);
    assert Elems([ids[i]]) == {ids[i]};
  }

  lemma {:induction false} ParentFirstSuffix(cfg: Config, blocks: seq<VeloBlock>, i: nat, store: Store)
    requires NoDup(HashesOf(cfg, blocks)) && ParentsEarlier(cfg, blocks) && i <= |blocks|
    requires store.Keys == Elems(HashesOf(cfg, blocks)[..i])
    ensures ParentFirst(ItemsOf(cfg, blocks)[i..], store)
    decreases |blocks| - i
  {
    hide NoDup, ParentFirst;
    var ids, items := HashesOf(cfg, blocks), ItemsOf(cfg, blocks);
    if i < |blocks| {
      KeysStep(ids, i, store, blocks[i]);
      ParentFirstSuffix(cfg, blocks, i + 1, store[ids[i] := blocks[i]]);
      forall p | p in blocks[i].header.parents ensures p in store {
        assert p in ids[..i];
        assert p in Elems(ids[..i]);
      }
      ParentFirstStep(items, i, store);
    } else {
      NoneLeft(items, store);
    }
  }

  lemma {:induction false} NoneLeft(items: seq<Item>, store: Store)
    ensures ParentFirst(items[|items|..], store)
  {
  }

  lemma {:induction false} ParentFirstStep(items: seq<Item>, i: nat, store: Store)
    requires i < |items|
    requires Insertable(GraphOf(store), items[i].0, items[i].1.header.parents)
    requires ParentFirst(items[i + 1..], store[items[i].0 := items[i].1])
    ensures ParentFirst(items[i..], store)
  {
    assert items[i..][0] == items[i] && items[i..][1..] == items[i + 1..];
  }

  /** Replaying the stored blocks by height, ties in any order, is a parent-first order and rebuilds exactly
      the store and the colouring the node had. */
  lemma {:induction false} RestartRebuilds(cfg: Config, s: NodeState, blocks: seq<VeloBlock>)
    requires Inv(cfg, s) && StoredByHeight(cfg, s.store, blocks)
    ensures ParentFirst(ItemsOf(cfg, ReplayedBlocks(cfg, blocks)), map[])
    ensures InsertAll(cfg.k, ItemsOf(cfg, ReplayedBlocks(cfg, blocks)), map[], map[]) == (s.store, s.cache)
  {
    var items := ItemsOf(cfg, blocks);
    ReplaysAll(cfg, s, blocks);
    HeightOrderIsParentOrder(cfg, s, blocks);
    ParentFirstSuffix(cfg, blocks, 0, map[]);
    assert items[0..] == items;
    LoadedConsistent(cfg.k, items);
    var (store, c) := InsertAll(cfg.k, items, map[], map[]);
    StoredIsHeld(cfg, s.store, blocks);
    HoldSame(store, items, s.store, items);
    ConsistentUnique(GraphOf(store), cfg.k, c, s.cache);
  }

  lemma {:induction false} StoredIsHeld(cfg: Config, store: Store, blocks: seq<VeloBlock>)
    requires StoredByHeight(cfg, store, blocks)
    ensures Holds(store, ItemsOf(cfg, blocks))
  {
    var ids, items := HashesOf(cfg, blocks), ItemsOf(cfg, blocks);
    forall i | 0 <= i < |items| ensures items[i].0 in store && store[items[i].0] == items[i].1 {
      assert ids[i] in Elems(ids);
    }
    forall h | h in store ensures (h, store[h]) in items {
      assert h in Elems(ids);
      var i :| 0 <= i < |ids| && ids[i] == h;
      assert items[i] == (h, store[h]);
    }
  }

  /** With the persisted ledger being the one last held, the restarted node holds the ledger it had. */
  lemma {:induction false} RestartKeepsLedger(cfg: Config, s: NodeState)
    requires Inv(cfg, s)
    ensures StartupLedger(s.store, s.cache, Some(s.ledger)) == s.ledger
  {
    hide RecomputeLedger;
    var tip := CanonicalTip(s.cache);
    if tip.Some? {
      assert HoldsRecomputed(s.store, s.cache, s.ledger, tip.value);
    }
  }

  lemma {:induction false} HeightOrderIsHistory(cfg: Config, s: NodeState, blocks: seq<VeloBlock>)
    requires Inv(cfg, s) && StoredByHeight(cfg, s.store, blocks)
    ensures HistoryOk(cfg, s.store, blocks)
  {
    hide Inv;
    var ids := HashesOf(cfg, blocks);
    HeightOrderIsParentOrder(cfg, s, blocks);
    forall j, p | 0 <= j < |ids| && p in ParentsOf(GraphOf(s.store), ids[j]) ensures p in ids[..j] {
      assert ids[j] in Elems(ids);
    }
  }

  /** What a restart holds, whatever snapshot it finds. If the canonical payments cover one another, it is the ledger
      they come to and the snapshot does not matter; if not, it is the snapshot, or an empty ledger without one. */
  lemma {:induction false} RestoredLedger(cfg: Config, s: NodeState, persisted: Option<Ledger>, tip: Hash)
    requires Inv(cfg, s) && CanonicalTip(s.cache) == Some(tip)
    ensures tip in s.store
    ensures var l := StartupLedger(s.store, s.cache, persisted);
            && (Payable(Payments(s, tip)) ==>
                  Accounts(Payments(s, tip), l) && forall other :: StartupLedger(s.store, s.cache, other) == l)
            && (!Payable(Payments(s, tip)) ==>
                  l == match persisted case Some(snapshot) => snapshot case None => EMPTY_LEDGER)
  {
    hide RecomputeLedger, Payable, Inv, LinearSort, Entries, Accounts;
    InvParts(cfg, s);
    TipIsStored(cfg, s, tip);
    RecomputesIffPayable(cfg, s, tip);
    if Payable(Payments(s, tip)) {
      RecomputeComesTo(s.store, s.cache, tip);
    }
  }

  lemma {:induction false} TipIsStored(cfg: Config, s: NodeState, tip: Hash)
    requires Inv(cfg, s) && CanonicalTip(s.cache) == Some(tip)
    ensures tip in s.store
  {
  }

  lemma {:induction false} StartupIsCanonical(cfg: Config, s: NodeState, persisted: Option<Ledger>)
    requires Inv(cfg, s)
    ensures LedgerIsCanonical(s.store, s.cache, StartupLedger(s.store, s.cache, persisted))
  {
    hide RecomputeLedger;
    var l := StartupLedger(s.store, s.cache, persisted);
    forall tip | CanonicalTip(s.cache) == Some(tip) ensures HoldsRecomputed(s.store, s.cache, l, tip) {
    }
  }

  /** The node after a restart: store and colouring replayed from the stored blocks, the ledger recomputed or, where
      that fails, the persisted one, the target of the last block loaded, and an empty pool. */
  ghost function Restarted(
      cfg: Config, s: NodeState, stored: seq<VeloBlock>, persisted: Option<Ledger>, maxPool: nat): (r: NodeState)
    requires Inv(cfg, s) && StoredByHeight(cfg, s.store, stored)
    ensures Inv(cfg, r) && r.store == s.store && r.cache == s.cache
    ensures r.ledger == StartupLedger(s.store, s.cache, persisted)
    ensures persisted == Some(s.ledger) ==> r.ledger == s.ledger
    ensures stored != [] && r.history == stored && r.journal == s.journal && r.pool == Pool(map[], maxPool, 0)
    ensures r.target == stored[|stored| - 1].header.difficultyTarget
  {
    hide Inv, StoredByHeight, ParentFirst, InsertAll, StartupLedger, ReplayedBlocks;
    RestartRebuilds(cfg, s, stored);
    RestartKeepsLedger(cfg, s);
    ReplaysAll(cfg, s, stored);
    InvParts(cfg, s);
    var history := ReplayedBlocks(cfg, stored);
    var (store, cache) := InsertAll(cfg.k, ItemsOf(cfg, history), map[], map[]);
    var ledger, target := StartupLedger(store, cache, persisted), history[|history| - 1].header.difficultyTarget;
    RestartKeepsInv(cfg, s, stored, persisted, target, maxPool);
    NodeState(store, cache, history, ledger, target, Pool(map[], maxPool, 0), s.calls, s.journal)
  }

  /** With the blocks sorted by height as history and whatever snapshot, the restarted node satisfies the invariant,
      so the run goes on as before. */
  lemma {:induction false} RestartKeepsInv(
      cfg: Config, s: NodeState, blocks: seq<VeloBlock>, persisted: Option<Ledger>, target: Target, maxPool: nat)
    requires Inv(cfg, s) && StoredByHeight(cfg, s.store, blocks)
    ensures ScoreFalls(s.cache)
    ensures Inv(cfg, NodeState(s.store, s.cache, ReplayedBlocks(cfg, blocks),
                               StartupLedger(s.store, s.cache, persisted), target,
                               Pool(map[], maxPool, 0), s.calls, s.journal))
  {
    hide Consistent, LedgerIsCanonical, HistoryOk, StoredByHeight, StartupLedger;
    ReplaysAll(cfg, s, blocks);
    HeightOrderIsHistory(cfg, s, blocks);
    StartupIsCanonical(cfg, s, persisted);
  }
}
