/** Replaying a store's blocks on an empty ledger in the canonical order, and the money that results. */
module Replay {
  import opened Types
  import opened Sequences
  import opened Sums
  import opened Dag
  import opened Colouring
  import opened LinearOrder
  import opened LedgerRules

  type Store = map<Hash, VeloBlock>

  ghost function GraphOf(store: Store): Graph {
    map h | h in store :: store[h].header.parents
  }

  lemma {:induction false} GraphOfInsert(store: Store, hash: Hash, block: VeloBlock)
    ensures GraphOf(store[hash := block]) == GraphOf(store)[hash := block.header.parents]
  {
  }

  function ReplayFrom(store: Store, order: seq<Hash>, l: Ledger): Result<Ledger, LedgerError>
    decreases |order|
  {
    if order == [] then Ok(l)
    else if order[0] !in store then Err(MissingBlock(order[0]))
    else
      var applied := ApplyBlock(l, store[order[0]]);
      if applied.Err? then applied else ReplayFrom(store, order[1..], applied.value)
  }

  /** A replay that fails does so at its first block that is missing or does not apply, with that block's error. */
  lemma {:induction false} ReplayFirstError(store: Store, order: seq<Hash>, l: Ledger) returns (i: nat)
    requires ReplayFrom(store, order, l).Err?
    ensures i < |order| && ReplayFrom(store, order[..i], l).Ok?
    ensures var error := ReplayFrom(store, order, l).error;
            if order[i] !in store then error == MissingBlock(order[i])
            else ApplyBlock(ReplayFrom(store, order[..i], l).value, store[order[i]]) == Err(error)
    decreases |order|
  {
    hide ApplyBlock;
    if order[0] !in store || ApplyBlock(l, store[order[0]]).Err? {
      i := 0;
    } else {
      var next := ApplyBlock(l, store[order[0]]).value;
      var j := ReplayFirstError(store, order[1..], next);
      i := j + 1;
      assert order[..i][0] == order[0] && order[..i][1..] == order[1..][..j];
    }
  }

  ghost function RecomputeLedger(store: Store, c: Cache, tip: Hash): Result<Ledger, LedgerError>
    requires ScoreFalls(c)
  {
    ReplayFrom(store, LinearSort(c, tip), EMPTY_LEDGER)
  }

  /** The canonical order as blocks. */
  function BlocksOf(store: Store, order: seq<Hash>): seq<VeloBlock> {
    if order == [] then []
    else (if order[0] in store then [store[order[0]]] else []) + BlocksOf(store, order[1..])
  }

  lemma {:induction false} BlocksOfAt(store: Store, order: seq<Hash>)
    requires Elems(order) <= store.Keys
    ensures |BlocksOf(store, order)| == |order|
    ensures forall i :: 0 <= i < |order| ==> order[i] in store && BlocksOf(store, order)[i] == store[order[i]]
    decreases |order|
  {
    if order != [] {
      assert order[0] in Elems(order);
      assert forall x :: x in order[1..] ==> x in order;
      assert Elems(order[1..]) <= store.Keys;
      BlocksOfAt(store, order[1..]);
    }
  }

  // The supply equation

  ghost function Mints(store: Store): map<Hash, int> {
    map h | h in store :: Minted(store[h])
  }

  ghost function TransactionCounts(store: Store): map<Hash, int> {
    map h | h in store :: |store[h].transactions|
  }

  ghost function Supply(store: Store, blocks: set<Hash>): int
    requires blocks <= store.Keys
  {
    SetSum(blocks, Mints(store)) - 50 * SetSum(blocks, TransactionCounts(store))
  }

  lemma {:induction false} SupplyInsert(store: Store, blocks: set<Hash>, h: Hash)
    requires blocks <= store.Keys && h in store && h !in blocks
    ensures Supply(store, blocks + {h}) == Supply(store, blocks) + NetIssue(store[h])
  {
    SumInsert(blocks, Mints(store), h);
    SumInsert(blocks, TransactionCounts(store), h);
  }

  lemma {:induction false} ReplayConserves(store: Store, done: set<Hash>, order: seq<Hash>, l: Ledger)
    requires done <= store.Keys && NoDup(order) && Elems(order) !! done
    requires ReplayFrom(store, order, l).Ok?
    ensures Elems(order) <= store.Keys
    ensures MapSum(ReplayFrom(store, order, l).value.balances) - MapSum(l.balances) ==
            Supply(store, done + Elems(order)) - Supply(store, done)
    decreases |order|
  {
    if order == [] {
      assert done + Elems(order) == done;
    } else {
      var h, rest := order[0], order[1..];
      assert h in Elems(order);
      assert order == [h] + rest;
      ElemsConcat([h], rest);
      BlockConserves(l, store[h]);
      SupplyInsert(store, done, h);
      assert h !in Elems(rest);
      ReplayConserves(store, done + {h}, rest, ApplyBlock(l, store[h]).value);
      assert done + {h} + Elems(rest) == done + Elems(order);
    }
  }

  /** After a successful recompute all balances together are the subsidies of the non-genesis blocks below
      and including the tip, less 50 units for each of their transactions. */
  lemma {:induction false} SupplyEquation(store: Store, k: nat, c: Cache, tip: Hash)
    requires Consistent(GraphOf(store), k, c) && tip in store && ScoreFalls(c)
    requires RecomputeLedger(store, c, tip).Ok?
    ensures Past(GraphOf(store), tip) <= store.Keys
    ensures MapSum(RecomputeLedger(store, c, tip).value.balances) ==
            Supply(store, Past(GraphOf(store), tip) + {tip})
  {
    PastKnown(GraphOf(store), GraphOf(store)[tip]);
    ExactlyOnce(GraphOf(store), k, c, tip);
    ReplayConserves(store, {}, LinearSort(c, tip), EMPTY_LEDGER);
    assert {} + Elems(LinearSort(c, tip)) == Past(GraphOf(store), tip) + {tip};
  }

  /** With no red block below it the tip is replayed first, on an empty ledger: recomputing from a tip
      that carries a transaction then always fails, however valid the chain was when it was built. */
  lemma {:induction false} TransactionInTipFails(store: Store, k: nat, c: Cache, tip: Hash)
    requires Consistent(GraphOf(store), k, c) && tip in store && ScoreFalls(c)
    requires ChainReds(c, tip) == {} && store[tip].transactions != []
    ensures RecomputeLedger(store, c, tip).Err?
  {
    OrderWithoutReds(GraphOf(store), k, c, tip);
    var b := store[tip];
    if b.header.height > 0 {
      var (s, error) := TryApplyTransaction(
        ScratchOf(EMPTY_LEDGER), b.transactions[0], b.coinbaseMinerAddress, b.coinbaseDevAddress);
      assert error.Some?;
    }
  }
}
