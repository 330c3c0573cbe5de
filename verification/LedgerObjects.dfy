/** The ledger as the object the node updates in place. */
module LedgerObjects {
  import opened Types
  import opened Emission
  import opened LedgerRules

  /** The four collections a transaction is tried on, passed around by mutable reference. */
  class WorkingCopy {
    var balances: map<Address, u64>
    var nextNonces: map<Address, u64>
    var confirmedTransactions: set<Digest>
    var blockTransactions: set<Digest>

    constructor (l: LedgerState)
      ensures Value() == ScratchOf(l.Value())
    {
      balances := l.balances;
      nextNonces := l.nextNonces;
      confirmedTransactions := l.confirmedTransactions;
      blockTransactions := {};
    }

    ghost function Value(): Scratch
      reads this
    {
      Scratch(balances, nextNonces, confirmedTransactions, blockTransactions)
    }

    method AddTo(a: Address, amount: u64) returns (ok: bool)
      modifies this`balances
      ensures match Credit(old(balances), a, amount)
              case Some(after) => ok && balances == after
              case None => !ok && balances == old(balances)
    {
      var sum := BalanceOf(balances, a) + amount;
      ok := sum < TWO_TO_THE_64;
      if ok {
        balances := balances[a := sum];
      }
    }

    /** Duplicate check, nonce, debit and the three credits, one map update at a time. */
    method TryApplyTransaction(tx: Transaction, miner: Address, dev: Address) returns (error: Option<LedgerError>)
      modifies this
      ensures (Value(), error) == LedgerRules.TryApplyTransaction(old(Value()), tx, miner, dev)
    {
      var txId := TransactionId(tx);
      if txId in blockTransactions {
        return Some(DuplicateTransaction);
      }
      blockTransactions := blockTransactions + {txId};
      if txId in confirmedTransactions {
        return Some(DuplicateTransaction);
      }
      confirmedTransactions := confirmedTransactions + {txId};
      if tx.amount == 0 {
        return Some(ZeroAmount);
      }
      var expectedNonce := BalanceOf(nextNonces, tx.sender);
      if tx.nonce != expectedNonce {
        return Some(InvalidNonce(expectedNonce, tx.nonce));
      }
      var senderBalance := BalanceOf(balances, tx.sender);
      var totalCost := tx.amount + TRANSACTION_FEE;
      if totalCost >= TWO_TO_THE_64 {
        return Some(CostOverflow);
      }
      if senderBalance < totalCost {
        return Some(InsufficientBalance);
      }
      balances := balances[tx.sender := senderBalance - totalCost];
      var ok := AddTo(tx.recipient, tx.amount);
      if !ok {
        return Some(RecipientOverflow);
      }
      var (minerShare, devShare, _) := FeeDistribution();
      ok := AddTo(miner, minerShare);
      if !ok {
        return Some(MinerFeeOverflow);
      }
      ok := AddTo(dev, devShare);
      if !ok {
        return Some(TreasuryFeeOverflow);
      }
      nextNonces := nextNonces[tx.sender := (expectedNonce + 1) % TWO_TO_THE_64];
      return None;
    }
  }

  class LedgerState {
    var balances: map<Address, u64>
    var nextNonces: map<Address, u64>
    var confirmedTransactions: set<Digest>

    constructor ()
      ensures Value() == EMPTY_LEDGER
    {
      balances, nextNonces, confirmedTransactions := map[], map[], {};
    }

    ghost function Value(): Ledger
      reads this
    {
      Ledger(balances, nextNonces, confirmedTransactions)
    }

    method Load(l: Ledger)
      modifies this
      ensures Value() == l
    {
      balances, nextNonces, confirmedTransactions := l.balances, l.nextNonces, l.confirmedTransactions;
    }

    method Assign(other: LedgerState)
      modifies this
      ensures Value() == old(other.Value())
    {
      balances, nextNonces, confirmedTransactions :=
        other.balances, other.nextNonces, other.confirmedTransactions;
    }

    /** All or nothing: on an error the ledger is left as it was. */
    method ApplyBlock(block: VeloBlock) returns (error: Option<LedgerError>)
      modifies this
      ensures match LedgerRules.ApplyBlock(old(Value()), block)
              case Ok(after) => error == None && Value() == after
              case Err(e) => error == Some(e) && Value() == old(Value())
    {
      if block.header.height == 0 {
        if block.transactions != [] || block.coinbaseMinerOutput != 0 || block.coinbaseDevOutput != 0 {
          return Some(GenesisSpendable);
        }
        return None;
      }
      if !VerifyCoinbaseRewards(block) {
        return Some(InvalidCoinbaseAmount);
      }
      if block.coinbaseDevAddress != DEV_TREASURY_ADDRESS {
        return Some(InvalidTreasuryAddress);
      }
      var copy := new WorkingCopy(this);
      ghost var start, txs := copy.Value(), block.transactions;
      ghost var miner, dev := block.coinbaseMinerAddress, block.coinbaseDevAddress;
      for i := 0 to |block.transactions|
        invariant fresh(copy) && Value() == old(Value())
        invariant ApplyTransactions(copy.Value(), txs[i..], miner, dev) == ApplyTransactions(start, txs, miner, dev)
      {
        assert txs[i..][1..] == txs[i + 1..];
        error := copy.TryApplyTransaction(
          block.transactions[i], block.coinbaseMinerAddress, block.coinbaseDevAddress);
        if error.Some? {
          return;
        }
      }
      var ok := copy.AddTo(block.coinbaseMinerAddress, block.coinbaseMinerOutput);
      if !ok {
        return Some(MinerOverflow);
      }
      ok := copy.AddTo(block.coinbaseDevAddress, block.coinbaseDevOutput);
      if !ok {
        return Some(TreasuryOverflow);
      }
      balances, nextNonces, confirmedTransactions := copy.balances, copy.nextNonces, copy.confirmedTransactions;
      return None;
    }

    /** A dry run: this ledger is not changed. */
    method SelectAffordable(candidates: seq<Transaction>, miner: Address, dev: Address)
      returns (accepted: seq<Transaction>, rejected: seq<(Transaction, LedgerError)>)
      ensures (accepted, rejected) == LedgerRules.SelectAffordable(ScratchOf(Value()), candidates, miner, dev)
    {
      hide LedgerRules.TryApplyTransaction, LedgerRules.SelectAffordable;
      var copy := new WorkingCopy(this);
      ghost var all := LedgerRules.SelectAffordable(copy.Value(), candidates, miner, dev);
      accepted, rejected := [], [];
      assert candidates[0..] == candidates;
      for i := 0 to |candidates|
        invariant fresh(copy) && Value() == old(Value())
        invariant accepted + LedgerRules.SelectAffordable(copy.Value(), candidates[i..], miner, dev).0 == all.0
        invariant rejected + LedgerRules.SelectAffordable(copy.Value(), candidates[i..], miner, dev).1 == all.1
      {
        SelectStep(copy.Value(), candidates, i, miner, dev);
        var error := copy.TryApplyTransaction(candidates[i], miner, dev);
        match error {
          case None => accepted := accepted + [candidates[i]];
          case Some(reason) => rejected := rejected + [(candidates[i], reason)];
        }
      }
      assert candidates[|candidates|..] == [];
      SelectNone(copy.Value(), miner, dev);
      assert accepted + [] == accepted && rejected + [] == rejected;
    }
  }

  lemma {:induction false} SelectNone(s: Scratch, miner: Address, dev: Address)
    ensures LedgerRules.SelectAffordable(s, [], miner, dev) == ([], [])
  {
  }
}
