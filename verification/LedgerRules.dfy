/** The account ledger as a value: what applying a transaction or a block does, and the money it keeps. */
module LedgerRules {
  import opened Types
  import opened Sums
  import opened Emission

  datatype Ledger = Ledger(
    balances: map<Address, u64>,
    nextNonces: map<Address, u64>,
    confirmedTransactions: set<Digest>)

  const EMPTY_LEDGER := Ledger(map[], map[], {})

  datatype LedgerError =
    | GenesisSpendable
    | InvalidCoinbaseAmount
    | InvalidTreasuryAddress
    | DuplicateTransaction
    | ZeroAmount
    | InvalidNonce(expected: u64, received: u64)
    | CostOverflow
    | InsufficientBalance
    | RecipientOverflow
    | MinerFeeOverflow
    | TreasuryFeeOverflow
    | MinerOverflow
    | TreasuryOverflow
    | MissingBlock(hash: Hash)

  /** The working copies a block or a batch of candidates is tried on. */
  datatype Scratch = Scratch(
    balances: map<Address, u64>,
    nextNonces: map<Address, u64>,
    confirmedTransactions: set<Digest>,
    blockTransactions: set<Digest>)

  function TransactionId(tx: Transaction): Digest {
    TxId(tx.sender, tx.recipient, tx.amount, tx.nonce, tx.publicKey + tx.signature)
  }

  function BalanceOf(balances: map<Address, u64>, a: Address): u64 {
    if a in balances then balances[a] else 0
  }

  /** Adds to one balance, failing when the sum leaves 64 bits. */
  function Credit(balances: map<Address, u64>, a: Address, amount: u64): Option<map<Address, u64>> {
    var sum := BalanceOf(balances, a) + amount;
    if sum >= TWO_TO_THE_64 then None else Some(balances[a := sum])
  }

  /** Tries one transaction. On an error the scratch state may already be changed: both identifier sets
      by any error after the duplicate check, the balances by an overflow after the debit. */
  function TryApplyTransaction(s: Scratch, tx: Transaction, miner: Address, dev: Address)
    : (Scratch, Option<LedgerError>)
  {
    var txId := TransactionId(tx);
    if txId in s.blockTransactions then (s, Some(DuplicateTransaction))
    else
      var s := s.(blockTransactions := s.blockTransactions + {txId});
      if txId in s.confirmedTransactions then (s, Some(DuplicateTransaction))
      else
        var s := s.(confirmedTransactions := s.confirmedTransactions + {txId});
        if tx.amount == 0 then (s, Some(ZeroAmount))
        else
          var expectedNonce := BalanceOf(s.nextNonces, tx.sender);
          if tx.nonce != expectedNonce then (s, Some(InvalidNonce(expectedNonce, tx.nonce)))
          else if tx.amount + TRANSACTION_FEE >= TWO_TO_THE_64 then (s, Some(CostOverflow))
          else
            var senderBalance := BalanceOf(s.balances, tx.sender);
            var totalCost := tx.amount + TRANSACTION_FEE;
            if senderBalance < totalCost then (s, Some(InsufficientBalance))
            else Settle(s.(balances := s.balances[tx.sender := senderBalance - totalCost]), tx, miner, dev)
  }

  /** The credits that follow the debit, and the nonce, which wraps at 64 bits. */
  function Settle(s: Scratch, tx: Transaction, miner: Address, dev: Address): (Scratch, Option<LedgerError>) {
    var (minerShare, devShare, _) := FeeDistribution();
    var b1 := Credit(s.balances, tx.recipient, tx.amount);
    if b1.None? then (s, Some(RecipientOverflow))
    else
      var b2 := Credit(b1.value, miner, minerShare);
      if b2.None? then (s.(balances := b1.value), Some(MinerFeeOverflow))
      else
        var b3 := Credit(b2.value, dev, devShare);
        if b3.None? then (s.(balances := b2.value), Some(TreasuryFeeOverflow))
        else
          var next: u64 := (tx.nonce + 1) % TWO_TO_THE_64;
          (s.(balances := b3.value, nextNonces := s.nextNonces[tx.sender := next]), None)
  }

  function ApplyTransactions(s: Scratch, txs: seq<Transaction>, miner: Address, dev: Address)
    : Result<Scratch, LedgerError>
    decreases |txs|
  {
    if txs == [] then Ok(s)
    else
      var (s', error) := TryApplyTransaction(s, txs[0], miner, dev);
      if error.Some? then Err(error.value) else ApplyTransactions(s', txs[1..], miner, dev)
  }

  function ScratchOf(l: Ledger): Scratch {
    Scratch(l.balances, l.nextNonces, l.confirmedTransactions, {})
  }

  /** Applies a whole block or nothing. */
  function ApplyBlock(l: Ledger, b: VeloBlock): Result<Ledger, LedgerError> {
    if b.header.height == 0 then
      if b.transactions != [] || b.coinbaseMinerOutput != 0 || b.coinbaseDevOutput != 0
      then Err(GenesisSpendable)
      else Ok(l)
    else if !VerifyCoinbaseRewards(b) then Err(InvalidCoinbaseAmount)
    else if b.coinbaseDevAddress != DEV_TREASURY_ADDRESS then Err(InvalidTreasuryAddress)
    else
      var applied := ApplyTransactions(ScratchOf(l), b.transactions, b.coinbaseMinerAddress, b.coinbaseDevAddress);
      if applied.Err? then Err(applied.error)
      else
        var s := applied.value;
        var b1 := Credit(s.balances, b.coinbaseMinerAddress, b.coinbaseMinerOutput);
        if b1.None? then Err(MinerOverflow)
        else
          var b2 := Credit(b1.value, b.coinbaseDevAddress, b.coinbaseDevOutput);
          if b2.None? then Err(TreasuryOverflow)
          else Ok(Ledger(b2.value, s.nextNonces, s.confirmedTransactions))
  }

  /** Sorts candidates into those that apply in sequence and those that do not, with the reason. */
  function SelectAffordable(s: Scratch, candidates: seq<Transaction>, miner: Address, dev: Address)
    : (seq<Transaction>, seq<(Transaction, LedgerError)>)
    decreases |candidates|
  {
    if candidates == [] then ([], [])
    else
      var (s', error) := TryApplyTransaction(s, candidates[0], miner, dev);
      var (accepted, rejected) := SelectAffordable(s', candidates[1..], miner, dev);
      if error.None? then ([candidates[0]] + accepted, rejected)
      else (accepted, [(candidates[0], error.value)] + rejected)
  }

  lemma {:induction false} SelectStep(s: Scratch, candidates: seq<Transaction>, i: nat, miner: Address, dev: Address)
    requires i < |candidates|
    ensures var (s', error) := TryApplyTransaction(s, candidates[i], miner, dev);
            var here := SelectAffordable(s, candidates[i..], miner, dev);
            var next := SelectAffordable(s', candidates[i + 1..], miner, dev);
            && (error.None? ==> here.0 == [candidates[i]] + next.0 && here.1 == next.1)
            && (error.Some? ==> here.0 == next.0 && here.1 == [(candidates[i], error.value)] + next.1)
  {
    hide TryApplyTransaction;
    assert candidates[i..][1..] == candidates[i + 1..];
  }

  // What a transaction moves

  function Gain(condition: bool, amount: int): int {
    if condition then amount else 0
  }

  /** An applied transaction takes the amount and the fee from its sender and gives the amount to its
      recipient, 48 units to the miner and 2 to the treasury, and these add up when addresses coincide. Only
      the sender's nonce moves. */
  lemma {:induction false} TransactionMoves(s: Scratch, tx: Transaction, miner: Address, dev: Address, a: Address)
    requires TryApplyTransaction(s, tx, miner, dev).1.None?
    ensures var s' := TryApplyTransaction(s, tx, miner, dev).0;
            && BalanceOf(s'.balances, a) ==
               BalanceOf(s.balances, a) - Gain(a == tx.sender, tx.amount + TRANSACTION_FEE)
               + Gain(a == tx.recipient, tx.amount) + Gain(a == miner, 48) + Gain(a == dev, 2)
            && BalanceOf(s'.nextNonces, a) ==
               if a == tx.sender then (tx.nonce + 1) % TWO_TO_THE_64 else BalanceOf(s.nextNonces, a)
  {
  }

  /** While the balances sum to less than 2^64 a transaction applies exactly when it is new, moves something,
      carries the sender's next nonce and is covered by the sender's balance, fee included. */
  lemma {:induction false} AppliesIff(s: Scratch, tx: Transaction, miner: Address, dev: Address)
    requires MapSum(s.balances) < TWO_TO_THE_64
    ensures TryApplyTransaction(s, tx, miner, dev).1.None? <==>
            && TransactionId(tx) !in s.blockTransactions && TransactionId(tx) !in s.confirmedTransactions
            && tx.amount > 0 && tx.nonce == BalanceOf(s.nextNonces, tx.sender)
            && tx.amount + TRANSACTION_FEE <= BalanceOf(s.balances, tx.sender)
  {
    TransactionConserves(s, tx, miner, dev);
  }

  /** While the balances sum to less than 2^64 every refusal names the first thing that is wrong: a repeated
      identifier, nothing moved, the wrong nonce, a cost beyond 64 bits, or too little balance. */
  lemma {:induction false} RefusalReasons(s: Scratch, tx: Transaction, miner: Address, dev: Address)
    requires MapSum(s.balances) < TWO_TO_THE_64
    ensures var error := TryApplyTransaction(s, tx, miner, dev).1;
            var repeated := TransactionId(tx) in s.blockTransactions + s.confirmedTransactions;
            var next := BalanceOf(s.nextNonces, tx.sender);
            var cost := tx.amount + TRANSACTION_FEE;
            && (error == Some(DuplicateTransaction) <==> repeated)
            && (error == Some(ZeroAmount) <==> !repeated && tx.amount == 0)
            && (error == Some(InvalidNonce(next, tx.nonce)) <==> !repeated && tx.amount > 0 && tx.nonce != next)
            && (error == Some(CostOverflow) <==>
                  !repeated && tx.amount > 0 && tx.nonce == next && cost >= TWO_TO_THE_64)
            && (error == Some(InsufficientBalance) <==>
                  && !repeated && tx.amount > 0 && tx.nonce == next && cost < TWO_TO_THE_64
                  && cost > BalanceOf(s.balances, tx.sender))
  {
    TransactionConserves(s, tx, miner, dev);
  }

  lemma {:induction false} CreditTotal(balances: map<Address, u64>, a: Address, amount: u64)
    ensures Credit(balances, a, amount).Some? ==>
              MapSum(Credit(balances, a, amount).value) == MapSum(balances) + amount
    ensures MapSum(balances) + amount < TWO_TO_THE_64 ==> Credit(balances, a, amount).Some?
  {
    MapSumUpdate(balances, a, BalanceOf(balances, a) + amount);
    EntryBelowSum(balances, a);
  }

  predicate BalanceOverflow(e: LedgerError) {
    e.RecipientOverflow? || e.MinerFeeOverflow? || e.TreasuryFeeOverflow?
  }

  /** An applied transaction destroys exactly the burned half of its fee, whoever its parties are. While the
      balances sum to less than 2^64 no credit can overflow, so a refused one leaves balances and nonces alone. */
  lemma {:induction false} TransactionConserves(s: Scratch, tx: Transaction, miner: Address, dev: Address)
    ensures var (s', error) := TryApplyTransaction(s, tx, miner, dev);
            && (error.None? ==> MapSum(s'.balances) == MapSum(s.balances) - 50)
            && (MapSum(s.balances) < TWO_TO_THE_64 && error.Some? ==>
                  !BalanceOverflow(error.value) && s'.balances == s.balances && s'.nextNonces == s.nextNonces)
  {
    var senderBalance, totalCost := BalanceOf(s.balances, tx.sender), tx.amount + TRANSACTION_FEE;
    if senderBalance >= totalCost && totalCost < TWO_TO_THE_64 {
      var debited: map<Address, u64> := s.balances[tx.sender := senderBalance - totalCost];
      MapSumUpdate(s.balances, tx.sender, senderBalance - totalCost);
      CreditTotal(debited, tx.recipient, tx.amount);
      var b1 := Credit(debited, tx.recipient, tx.amount);
      if b1.Some? {
        CreditTotal(b1.value, miner, 48);
        var b2 := Credit(b1.value, miner, 48);
        if b2.Some? {
          CreditTotal(b2.value, dev, 2);
        }
      }
    }
  }

  lemma {:induction false} TransactionsConserve(s: Scratch, txs: seq<Transaction>, miner: Address, dev: Address)
    requires ApplyTransactions(s, txs, miner, dev).Ok?
    ensures MapSum(ApplyTransactions(s, txs, miner, dev).value.balances) == MapSum(s.balances) - 50 * |txs|
    decreases |txs|
  {
    if txs == [] {
    } else {
      TransactionConserves(s, txs[0], miner, dev);
      TransactionsConserve(TryApplyTransaction(s, txs[0], miner, dev).0, txs[1..], miner, dev);
    }
  }

  /** A list of transactions fails at its first one that does not apply, with that one's reason. */
  lemma {:induction false} FirstRefusal(s: Scratch, txs: seq<Transaction>, miner: Address, dev: Address)
    returns (i: nat)
    requires ApplyTransactions(s, txs, miner, dev).Err?
    ensures i < |txs| && ApplyTransactions(s, txs[..i], miner, dev).Ok?
    ensures TryApplyTransaction(ApplyTransactions(s, txs[..i], miner, dev).value, txs[i], miner, dev).1 ==
            Some(ApplyTransactions(s, txs, miner, dev).error)
    decreases |txs|
  {
    hide TryApplyTransaction;
    var (s', error) := TryApplyTransaction(s, txs[0], miner, dev);
    if error.Some? {
      i := 0;
    } else {
      var j := FirstRefusal(s', txs[1..], miner, dev);
      i := j + 1;
      assert txs[..i][0] == txs[0] && txs[..i][1..] == txs[1..][..j];
    }
  }

  /** A block is refused for its own shape first: spendable outputs at height 0, and above it a wrong reward before a
      wrong treasury address; only then for its transactions. */
  lemma {:induction false} BlockRefusals(l: Ledger, b: VeloBlock)
    ensures var applied, height := ApplyBlock(l, b), b.header.height;
            var rewarded := (b.coinbaseMinerOutput, b.coinbaseDevOutput) == CalculateSubsidySplit(height);
            var transfers := ApplyTransactions(
              ScratchOf(l), b.transactions, b.coinbaseMinerAddress, b.coinbaseDevAddress);
            && (height == 0 && applied.Err? ==> applied.error == GenesisSpendable)
            && (height > 0 && !rewarded ==> applied == Err(InvalidCoinbaseAmount))
            && (height > 0 && rewarded && b.coinbaseDevAddress != DEV_TREASURY_ADDRESS ==>
                  applied == Err(InvalidTreasuryAddress))
            && (height > 0 && rewarded && b.coinbaseDevAddress == DEV_TREASURY_ADDRESS ==>
                  && (transfers.Err? ==> applied == Err(transfers.error))
                  && (transfers.Ok? && applied.Err? ==>
                        applied.error == MinerOverflow || applied.error == TreasuryOverflow))
  {
    hide ApplyTransactions, CalculateSubsidySplit;
  }

  /** What a block mints and burns: genesis blocks mint nothing. */
  function NetIssue(b: VeloBlock): int {
    Minted(b) - 50 * |b.transactions|
  }

  function Minted(b: VeloBlock): u64 {
    if b.header.height == 0 then 0 else Subsidy(b.header.height)
  }

  /** An applied block changes the money supply by its subsidy less 50 units per transaction. */
  lemma {:induction false} BlockConserves(l: Ledger, b: VeloBlock)
    requires ApplyBlock(l, b).Ok?
    ensures MapSum(ApplyBlock(l, b).value.balances) == MapSum(l.balances) + NetIssue(b)
  {
    if b.header.height > 0 {
      TransactionsConserve(ScratchOf(l), b.transactions, b.coinbaseMinerAddress, b.coinbaseDevAddress);
      var s := ApplyTransactions(ScratchOf(l), b.transactions, b.coinbaseMinerAddress, b.coinbaseDevAddress).value;
      CreditTotal(s.balances, b.coinbaseMinerAddress, b.coinbaseMinerOutput);
      var b1 := Credit(s.balances, b.coinbaseMinerAddress, b.coinbaseMinerOutput).value;
      CreditTotal(b1, b.coinbaseDevAddress, b.coinbaseDevOutput);
    }
  }

  // The dry run

  /** `actual` is a scratch state that never saw the candidates `dry` refused. */
  ghost predicate Shadows(actual: Scratch, dry: Scratch) {
    && actual.balances == dry.balances
    && actual.nextNonces == dry.nextNonces
    && actual.confirmedTransactions <= dry.confirmedTransactions
    && actual.blockTransactions <= dry.blockTransactions
  }

  lemma {:induction false} AppliesAlike(s: Scratch, s': Scratch, tx: Transaction, miner: Address, dev: Address)
    requires s.balances == s'.balances && s.nextNonces == s'.nextNonces
    requires TransactionId(tx) !in s'.blockTransactions && TransactionId(tx) !in s'.confirmedTransactions
    requires TryApplyTransaction(s, tx, miner, dev).1.None?
    ensures var r, r' := TryApplyTransaction(s, tx, miner, dev), TryApplyTransaction(s', tx, miner, dev);
            r'.1.None? && r.0.balances == r'.0.balances && r.0.nextNonces == r'.0.nextNonces
  {
  }

  lemma {:induction false} IdsAfter(s: Scratch, tx: Transaction, miner: Address, dev: Address)
    ensures var (s', error) := TryApplyTransaction(s, tx, miner, dev);
            && s.confirmedTransactions <= s'.confirmedTransactions <= s.confirmedTransactions + {TransactionId(tx)}
            && s.blockTransactions <= s'.blockTransactions <= s.blockTransactions + {TransactionId(tx)}
            && (error.None? ==>
                  && TransactionId(tx) !in s.blockTransactions && TransactionId(tx) !in s.confirmedTransactions
                  && TransactionId(tx) in s'.blockTransactions && TransactionId(tx) in s'.confirmedTransactions)
  {
  }

  lemma {:induction false} ShadowStep(actual: Scratch, dry: Scratch, tx: Transaction, miner: Address, dev: Address)
    requires Shadows(actual, dry) && MapSum(dry.balances) < TWO_TO_THE_64
    ensures var (dry', error) := TryApplyTransaction(dry, tx, miner, dev);
            && MapSum(dry'.balances) <= MapSum(dry.balances)
            && (error.Some? ==> Shadows(actual, dry'))
            && (error.None? ==> TryApplyTransaction(actual, tx, miner, dev).1.None?
                                && Shadows(TryApplyTransaction(actual, tx, miner, dev).0, dry'))
  {
    hide TryApplyTransaction;
    TransactionConserves(dry, tx, miner, dev);
    IdsAfter(dry, tx, miner, dev);
    IdsAfter(actual, tx, miner, dev);
    if TryApplyTransaction(dry, tx, miner, dev).1.None? {
      AppliesAlike(dry, actual, tx, miner, dev);
    }
  }

  lemma {:induction false} SelectedApply(
      actual: Scratch, dry: Scratch, candidates: seq<Transaction>, miner: Address, dev: Address)
    requires Shadows(actual, dry) && MapSum(dry.balances) < TWO_TO_THE_64
    ensures var accepted := SelectAffordable(dry, candidates, miner, dev).0;
            ApplyTransactions(actual, accepted, miner, dev).Ok?
    decreases |candidates|
  {
    if candidates == [] {
    } else {
      ShadowStep(actual, dry, candidates[0], miner, dev);
      var (dry', error) := TryApplyTransaction(dry, candidates[0], miner, dev);
      var accepted := SelectAffordable(dry', candidates[1..], miner, dev).0;
      if error.None? {
        SelectedApply(TryApplyTransaction(actual, candidates[0], miner, dev).0, dry', candidates[1..], miner, dev);
        assert ([candidates[0]] + accepted)[1..] == accepted;
      } else {
        SelectedApply(actual, dry', candidates[1..], miner, dev);
      }
    }
  }

  /** A correctly rewarded block made of exactly the accepted candidates is accepted from the same state,
      whatever was refused beside them, as long as the new supply fits 64 bits. */
  lemma {:induction false} SelectedBlockApplies(l: Ledger, candidates: seq<Transaction>, b: VeloBlock)
    requires b.header.height > 0 && VerifyCoinbaseRewards(b) && b.coinbaseDevAddress == DEV_TREASURY_ADDRESS
    requires b.transactions ==
             SelectAffordable(ScratchOf(l), candidates, b.coinbaseMinerAddress, DEV_TREASURY_ADDRESS).0
    requires MapSum(l.balances) + Subsidy(b.header.height) < TWO_TO_THE_64
    ensures ApplyBlock(l, b).Ok?
  {
    var miner := b.coinbaseMinerAddress;
    SelectedApply(ScratchOf(l), ScratchOf(l), candidates, miner, DEV_TREASURY_ADDRESS);
    TransactionsConserve(ScratchOf(l), b.transactions, miner, DEV_TREASURY_ADDRESS);
    var s := ApplyTransactions(ScratchOf(l), b.transactions, miner, DEV_TREASURY_ADDRESS).value;
    CreditTotal(s.balances, miner, b.coinbaseMinerOutput);
    var b1 := Credit(s.balances, miner, b.coinbaseMinerOutput).value;
    CreditTotal(b1, DEV_TREASURY_ADDRESS, b.coinbaseDevOutput);
  }

  /** The scratch state a dry run has reached after the candidates. */
  function DryRun(s: Scratch, candidates: seq<Transaction>, miner: Address, dev: Address): Scratch {
    if candidates == [] then s
    else
      var n := |candidates| - 1;
      TryApplyTransaction(DryRun(s, candidates[..n], miner, dev), candidates[n], miner, dev).0
  }

  lemma {:induction false} DryRunFront(
      s: Scratch, tx: Transaction, rest: seq<Transaction>, miner: Address, dev: Address)
    ensures DryRun(s, [tx] + rest, miner, dev) == DryRun(TryApplyTransaction(s, tx, miner, dev).0, rest, miner, dev)
    decreases |rest|
  {
    hide TryApplyTransaction;
    if rest == [] {
      assert [tx] + rest == [tx] && [tx][..0] == [];
    } else {
      var n := |rest| - 1;
      DryRunFront(s, tx, rest[..n], miner, dev);
      assert ([tx] + rest)[..n + 1] == [tx] + rest[..n];
    }
  }

  lemma {:induction false} SelectSnoc(
      s: Scratch, candidates: seq<Transaction>, tx: Transaction, miner: Address, dev: Address)
    ensures var (accepted, rejected) := SelectAffordable(s, candidates, miner, dev);
            var error := TryApplyTransaction(DryRun(s, candidates, miner, dev), tx, miner, dev).1;
            SelectAffordable(s, candidates + [tx], miner, dev) ==
            if error.None? then (accepted + [tx], rejected) else (accepted, rejected + [(tx, error.value)])
    decreases |candidates|
  {
    hide TryApplyTransaction;
    if candidates == [] {
      assert [tx][1..] == [] && candidates + [tx] == [tx];
      var (s', error) := TryApplyTransaction(s, tx, miner, dev);
      var (accepted, rejected) := SelectAffordable(s', [], miner, dev);
      assert accepted == [] && rejected == [] && [tx] + accepted == accepted + [tx];
      if error.Some? {
        assert [(tx, error.value)] + rejected == rejected + [(tx, error.value)];
      }
    } else {
      var first, rest := candidates[0], candidates[1..];
      assert candidates == [first] + rest;
      DryRunFront(s, first, rest, miner, dev);
      var (s', error) := TryApplyTransaction(s, first, miner, dev);
      SelectSnoc(s', rest, tx, miner, dev);
      assert (candidates + [tx])[0] == first && (candidates + [tx])[1..] == rest + [tx];
      var (accepted, rejected) := SelectAffordable(s', rest, miner, dev);
      assert [first] + (accepted + [tx]) == [first] + accepted + [tx];
      var last := TryApplyTransaction(DryRun(s', rest, miner, dev), tx, miner, dev).1;
      if error.Some? && last.Some? {
        var refused := [(first, error.value)];
        assert refused + (rejected + [(tx, last.value)]) == refused + rejected + [(tx, last.value)];
      }
    }
  }

  lemma {:induction false} TriedIsRecorded(s: Scratch, tx: Transaction, miner: Address, dev: Address)
    requires s.blockTransactions <= s.confirmedTransactions
    ensures var s' := TryApplyTransaction(s, tx, miner, dev).0;
            && s'.confirmedTransactions == s.confirmedTransactions + {TransactionId(tx)}
            && s'.blockTransactions == s.blockTransactions + {TransactionId(tx)}
  {
  }

  lemma {:induction false} ApplySnoc(s: Scratch, txs: seq<Transaction>, tx: Transaction, miner: Address, dev: Address)
    requires ApplyTransactions(s, txs, miner, dev).Ok?
    ensures var before := ApplyTransactions(s, txs, miner, dev).value;
            var (after, error) := TryApplyTransaction(before, tx, miner, dev);
            ApplyTransactions(s, txs + [tx], miner, dev) == if error.None? then Ok(after) else Err(error.value)
    decreases |txs|
  {
    hide TryApplyTransaction;
    if txs == [] {
      assert txs + [tx] == [tx] && [tx][1..] == [];
      var after := TryApplyTransaction(s, tx, miner, dev).0;
      assert ApplyTransactions(after, [], miner, dev) == Ok(after);
    } else {
      ApplySnoc(TryApplyTransaction(s, txs[0], miner, dev).0, txs[1..], tx, miner, dev);
      assert (txs + [tx])[1..] == txs[1..] + [tx];
    }
  }

  /** The dry run has the balances and nonces of the accepted candidates alone, and remembers every candidate. */
  lemma {:induction false} DryRunShadows(l: Ledger, candidates: seq<Transaction>, miner: Address, dev: Address)
    requires MapSum(l.balances) < TWO_TO_THE_64
    ensures var dry := DryRun(ScratchOf(l), candidates, miner, dev);
            var accepted := SelectAffordable(ScratchOf(l), candidates, miner, dev).0;
            var applied := ApplyTransactions(ScratchOf(l), accepted, miner, dev);
            && applied.Ok? && Shadows(applied.value, dry) && MapSum(dry.balances) < TWO_TO_THE_64
            && dry.blockTransactions <= dry.confirmedTransactions
            && (forall id :: id in dry.confirmedTransactions <==>
                  id in l.confirmedTransactions || id in Ids(candidates))
            && (forall id :: id in dry.blockTransactions <==> id in Ids(candidates))
  {
    hide TryApplyTransaction;
    if candidates != [] {
      var n := |candidates| - 1;
      var front, tx := candidates[..n], candidates[n];
      DryRunShadows(l, front, miner, dev);
      var dry := DryRun(ScratchOf(l), front, miner, dev);
      var accepted := SelectAffordable(ScratchOf(l), front, miner, dev).0;
      var actual := ApplyTransactions(ScratchOf(l), accepted, miner, dev).value;
      assert candidates == front + [tx];
      SelectSnoc(ScratchOf(l), front, tx, miner, dev);
      ApplySnoc(ScratchOf(l), accepted, tx, miner, dev);
      ShadowStep(actual, dry, tx, miner, dev);
      TriedIsRecorded(dry, tx, miner, dev);
      IdsSnoc(front, tx);
    }
  }

  lemma {:induction false} IdsSnoc(txs: seq<Transaction>, tx: Transaction)
    ensures Ids(txs + [tx]) == Ids(txs) + [TransactionId(tx)]
  {
  }

  /** Selection exactly, one candidate at a time: the next one is accepted if and only if it is unlike every candidate
      before it and every confirmed transaction, moves something, and carries the next nonce and is covered in the
      ledger that the accepted ones leave; otherwise it is refused. */
  lemma {:induction false} SelectExactly(
      l: Ledger, candidates: seq<Transaction>, tx: Transaction, miner: Address, dev: Address)
    requires MapSum(l.balances) < TWO_TO_THE_64
    ensures SelectAffordable(ScratchOf(l), [], miner, dev) == ([], [])
    ensures var (accepted, rejected) := SelectAffordable(ScratchOf(l), candidates, miner, dev);
            var (accepted', rejected') := SelectAffordable(ScratchOf(l), candidates + [tx], miner, dev);
            var applied := ApplyTransactions(ScratchOf(l), accepted, miner, dev);
            && applied.Ok?
            && var fits :=
                 && TransactionId(tx) !in l.confirmedTransactions && TransactionId(tx) !in Ids(candidates)
                 && tx.amount > 0 && tx.nonce == BalanceOf(applied.value.nextNonces, tx.sender)
                 && tx.amount + TRANSACTION_FEE <= BalanceOf(applied.value.balances, tx.sender);
               && (fits ==> accepted' == accepted + [tx] && rejected' == rejected)
               && (!fits ==> accepted' == accepted && Refused(rejected') == Refused(rejected) + [tx])
  {
    hide TryApplyTransaction, ApplyTransactions;
    DryRunShadows(l, candidates, miner, dev);
    SelectSnoc(ScratchOf(l), candidates, tx, miner, dev);
    AppliesIff(DryRun(ScratchOf(l), candidates, miner, dev), tx, miner, dev);
  }

  /** The accepted and the refused candidates together are the candidates. */
  lemma {:induction false} SelectLosesNothing(s: Scratch, candidates: seq<Transaction>, miner: Address, dev: Address)
    ensures var (accepted, rejected) := SelectAffordable(s, candidates, miner, dev);
            multiset(accepted) + multiset(Refused(rejected)) == multiset(candidates)
    decreases |candidates|
  {
    if candidates == [] {
    } else {
      var (s', error) := TryApplyTransaction(s, candidates[0], miner, dev);
      var tx, rest := candidates[0], candidates[1..];
      SelectLosesNothing(s', rest, miner, dev);
      var (accepted, rejected) := SelectAffordable(s', rest, miner, dev);
      MultisetCons(tx, rest);
      MultisetCons(tx, accepted);
      MultisetCons(tx, Refused(rejected));
      assert candidates == [tx] + rest;
      assert error.Some? ==> Refused([(tx, error.value)] + rejected) == [tx] + Refused(rejected);
    }
  }

  lemma {:induction false} MultisetCons<T>(x: T, xs: seq<T>)
    ensures multiset([x] + xs) == multiset{x} + multiset(xs)
  {
  }

  function Refused(rejected: seq<(Transaction, LedgerError)>): seq<Transaction> {
    seq(|rejected|, i requires 0 <= i < |rejected| => rejected[i].0)
  }

  // Transaction identifiers

  function Ids(txs: seq<Transaction>): seq<Digest> {
    seq(|txs|, i requires 0 <= i < |txs| => TransactionId(txs[i]))
  }

  /** An applied block carries no transaction twice and none confirmed before; all of its own are
      confirmed afterwards. */
  lemma {:induction false} AppliedIdsFresh(s: Scratch, txs: seq<Transaction>, miner: Address, dev: Address)
    requires ApplyTransactions(s, txs, miner, dev).Ok?
    ensures forall i :: 0 <= i < |txs| ==>
              TransactionId(txs[i]) !in s.blockTransactions && TransactionId(txs[i]) !in s.confirmedTransactions
    ensures forall i, j :: 0 <= i < j < |txs| ==> TransactionId(txs[i]) != TransactionId(txs[j])
    ensures ApplyTransactions(s, txs, miner, dev).value.confirmedTransactions ==
            s.confirmedTransactions + (set i | 0 <= i < |txs| :: TransactionId(txs[i]))
    decreases |txs|
  {
    if txs == [] {
    } else {
      hide TryApplyTransaction;
      var (s', error) := TryApplyTransaction(s, txs[0], miner, dev);
      var rest := txs[1..];
      IdsAfter(s, txs[0], miner, dev);
      AppliedIdsFresh(s', rest, miner, dev);
      assert s'.confirmedTransactions == s.confirmedTransactions + {TransactionId(txs[0])};
      assert s'.blockTransactions == s.blockTransactions + {TransactionId(txs[0])};
      assert forall i :: 1 <= i < |txs| ==> txs[i] == rest[i - 1];
      assert forall i :: 0 <= i < |rest| ==> rest[i] == txs[i + 1];
    }
  }
}
