/** The checks as the loops and early returns the node runs. */
module Checks {
  import opened Types
  import opened Emission
  import opened Merkle
  import opened Replay
  import opened Validation

  /** Size, coinbase, commitment, signatures, target and work, in this order. */
  method CheckContent(cfg: Config, target: Target, block: VeloBlock) returns (fault: Option<Reason>)
    ensures fault == ContentFault(cfg, target, block)
  {
    if |block.transactions| > MAX_TRANSACTIONS_PER_BLOCK {
      return Some(TooManyTransactions);
    }
    if !VerifyCoinbaseRewards(block) {
      return Some(BadCoinbaseSplit);
    }
    var root := TransactionMerkleRoot(block.transactions);
    if block.header.txMerkleRoot != root {
      return Some(CommitmentMismatch);
    }
    for i := 0 to |block.transactions|
      invariant forall j :: 0 <= j < i ==> cfg.signatureOk(block.transactions[j])
    {
      if !cfg.signatureOk(block.transactions[i]) {
        assert block.transactions[i] in block.transactions;
        return Some(InvalidSignature);
      }
    }
    if block.header.height > 0 {
      if block.header.difficultyTarget != target {
        return Some(UnexpectedTarget);
      }
      if !VerifyPow(cfg.hashOf(block), target) {
        return Some(InsufficientWork);
      }
    }
    fault := None;
  }

  lemma {:induction false} LookUpStep(store: Store, parents: seq<Hash>, i: nat)
    requires i < |parents| && forall p :: p in parents[..i + 1] ==> p in store
    ensures var header := store[parents[i]].header;
            && parents[i] in parents[..i + 1] && (forall p :: p in parents[..i] ==> p in store)
            && (i == 0 ==> MaxParentHeight(parents[..i + 1], store) == header.height
                           && MaxParentTimestamp(parents[..i + 1], store) == header.timestamp)
            && (i > 0 ==>
                  && MaxParentHeight(parents[..i + 1], store) ==
                     Max(MaxParentHeight(parents[..i], store), header.height)
                  && MaxParentTimestamp(parents[..i + 1], store) ==
                     Max(MaxParentTimestamp(parents[..i], store), header.timestamp))
  {
    assert parents[..i + 1][..i] == parents[..i] && parents[..i + 1][i] == parents[i];
    assert forall p :: p in parents[..i] ==> p in parents[..i + 1];
  }

  lemma {:induction false} FirstMissingStep(parents: seq<Hash>, i: nat, store: Store)
    requires i < |parents|
    ensures FirstMissing(parents[i..], store) ==
            if parents[i] !in store then Some(parents[i]) else FirstMissing(parents[i + 1..], store)
  {
    assert parents[i..][1..] == parents[i + 1..];
  }

  lemma {:induction false} NoneMissing(store: Store)
    ensures FirstMissing([], store) == None
  {
  }

  /** Looks every parent up, remembering the tallest and the latest. */
  method LookUpParents(store: Store, parents: seq<Hash>)
    returns (missing: Option<Hash>, maxHeight: u64, maxTimestamp: u64)
    ensures missing == FirstMissing(parents, store)
    ensures missing == None && parents != [] ==>
              maxHeight == MaxParentHeight(parents, store) && maxTimestamp == MaxParentTimestamp(parents, store)
  {
    hide MaxParentHeight, MaxParentTimestamp, Max, FirstMissing;
    maxHeight, maxTimestamp := 0, 0;
    assert parents[0..] == parents;
    for i := 0 to |parents|
      invariant FirstMissing(parents[i..], store) == FirstMissing(parents, store)
      invariant forall p :: p in parents[..i] ==> p in store
      invariant i > 0 ==> maxHeight == MaxParentHeight(parents[..i], store)
      invariant i > 0 ==> maxTimestamp == MaxParentTimestamp(parents[..i], store)
    {
      FirstMissingStep(parents, i, store);
      var parent := parents[i];
      if parent !in store {
        return Some(parent), 0, 0;
      }
      assert parents[..i + 1] == parents[..i] + [parent];
      LookUpStep(store, parents, i);
      var header := store[parent].header;
      maxHeight := if i == 0 then header.height else Max(maxHeight, header.height);
      maxTimestamp := if i == 0 then header.timestamp else Max(maxTimestamp, header.timestamp);
    }
    assert parents[..|parents|] == parents && parents[|parents|..] == [];
    NoneMissing(store);
    missing := None;
  }

  /** Height and timestamps against the parents, once all of them are known. */
  method CheckPlacement(store: Store, block: VeloBlock, now: u64)
    returns (missing: Option<Hash>, fault: Option<Reason>)
    ensures missing == FirstMissing(block.header.parents, store)
    ensures missing == None ==> fault == PlacementFault(block, store, now)
  {
    var maxHeight, maxTimestamp;
    missing, maxHeight, maxTimestamp := LookUpParents(store, block.header.parents);
    fault := None;
    if missing.Some? {
      return;
    }
    if block.header.height == 0 {
      if block.header.parents != [] {
        fault := Some(GenesisWithParents);
      }
    } else if block.header.parents == [] {
      fault := Some(NoParents);
    } else {
      var expected: u64 := (maxHeight + 1) % TWO_TO_THE_64;
      if block.header.height != expected {
        fault := Some(WrongHeight(expected));
      } else if block.header.timestamp < maxTimestamp {
        fault := Some(BeforeItsParent);
      } else if block.header.timestamp > SaturatingAdd(now, MAX_FUTURE_DRIFT_SECS) {
        fault := Some(TooFarInFuture);
      }
    }
  }
}
