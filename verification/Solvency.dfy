/** When a replay succeeds: a condition on the sequence of payments alone, without any ledger. */
module Solvency {
  import opened Types
  import opened Sequences
  import opened Sums
  import opened Dag
  import opened Colouring
  import opened LinearOrder
  import opened Emission
  import opened LedgerRules
  import opened Replay

  /** One payment of a replayed block. */
  datatype Entry =
    | Transfer(tx: Transaction, miner: Address, dev: Address)
    | Reward(miner: Address, minerOutput: u64, dev: Address, devOutput: u64)

  /** What an entry adds to the balance of `a`. */
  function Flow(e: Entry, a: Address): int {
    match e
    case Transfer(tx, miner, dev) =>
      Gain(a == tx.recipient, tx.amount) + Gain(a == miner, 48) + Gain(a == dev, 2)
      - Gain(a == tx.sender, tx.amount + TRANSACTION_FEE)
    case Reward(miner, minerOutput, dev, devOutput) =>
      Gain(a == miner, minerOutput) + Gain(a == dev, devOutput)
  }

  ghost function Held(es: seq<Entry>, a: Address): int {
    if es == [] then 0 else Held(es[..|es| - 1], a) + Flow(es[|es| - 1], a)
  }

  /** How many transfers `a` has sent. */
  ghost function Sent(es: seq<Entry>, a: Address): nat {
    if es == [] then 0
    else
      var e := es[|es| - 1];
      Sent(es[..|es| - 1], a) + if e.Transfer? && e.tx.sender == a then 1 else 0
  }

  ghost function TransferIds(es: seq<Entry>): set<Digest> {
    set i | 0 <= i < |es| && es[i].Transfer? :: TransactionId(es[i].tx)
  }

  /** No balance has left 64 bits. */
  ghost predicate Bounded(es: seq<Entry>) {
    forall a :: Held(es, a) < TWO_TO_THE_64
  }

  /** A transfer is positive and new, carries its sender's running number and is covered, fee included. */
  ghost predicate Covered(before: seq<Entry>, e: Entry) {
    e.Transfer? ==>
      && e.tx.amount > 0
      && TransactionId(e.tx) !in TransferIds(before)
      && e.tx.nonce == Sent(before, e.tx.sender) % TWO_TO_THE_64
      && e.tx.amount + TRANSACTION_FEE <= Held(before, e.tx.sender)
  }

  /** Every transfer is covered by what came before it. */
  ghost predicate Solvent(es: seq<Entry>) {
    forall j :: 0 <= j < |es| ==> Covered(es[..j], es[j])
  }

  /** ... and no entry lifts a balance out of 64 bits. */
  ghost predicate Payable(es: seq<Entry>) {
    Solvent(es) && forall j :: 0 < j <= |es| ==> Bounded(es[..j])
  }

  // Entries of blocks and orders

  function Transfers(txs: seq<Transaction>, miner: Address, dev: Address): seq<Entry> {
    if txs == [] then [] else [Transfer(txs[0], miner, dev)] + Transfers(txs[1..], miner, dev)
  }

  function BlockEntries(b: VeloBlock): seq<Entry> {
    if b.header.height == 0 then []
    else
      Transfers(b.transactions, b.coinbaseMinerAddress, b.coinbaseDevAddress)
      + [Reward(b.coinbaseMinerAddress, b.coinbaseMinerOutput, b.coinbaseDevAddress, b.coinbaseDevOutput)]
  }

  function Entries(store: Store, order: seq<Hash>): seq<Entry> {
    if order == [] then []
    else (if order[0] in store then BlockEntries(store[order[0]]) else []) + Entries(store, order[1..])
  }

  /** What the ledger asks of a block whatever its own state: the reward of the height and the treasury's
      address, or nothing spendable at height 0. */
  predicate WellRewarded(b: VeloBlock) {
    if b.header.height == 0
    then b.transactions == [] && b.coinbaseMinerOutput == 0 && b.coinbaseDevOutput == 0
    else VerifyCoinbaseRewards(b) && b.coinbaseDevAddress == DEV_TREASURY_ADDRESS
  }

  lemma {:induction false} AppliedIsWellRewarded(l: Ledger, b: VeloBlock)
    requires ApplyBlock(l, b).Ok?
    ensures WellRewarded(b)
  {
  }

  ghost predicate AllWellRewarded(store: Store, order: seq<Hash>) {
    forall h :: h in order ==> h in store && WellRewarded(store[h])
  }

  // One entry at a time

  function ApplyEntry(s: Scratch, e: Entry): Option<Scratch> {
    match e
    case Transfer(tx, miner, dev) =>
      var (s', error) := TryApplyTransaction(s, tx, miner, dev);
      if error.None? then Some(s') else None
    case Reward(miner, minerOutput, dev, devOutput) =>
      var b1 := Credit(s.balances, miner, minerOutput);
      if b1.None? then None
      else
        var b2 := Credit(b1.value, dev, devOutput);
        if b2.None? then None else Some(s.(balances := b2.value))
  }

  /** `s` is the state after the entries `es`. */
  ghost predicate Tracks(es: seq<Entry>, s: Scratch) {
    && (forall a :: BalanceOf(s.balances, a) == Held(es, a))
    && (forall a :: BalanceOf(s.nextNonces, a) == Sent(es, a) % TWO_TO_THE_64)
    && s.confirmedTransactions == TransferIds(es)
    && s.blockTransactions <= s.confirmedTransactions
  }

  lemma {:induction false} Snoc(es: seq<Entry>, e: Entry)
    ensures forall a :: Held(es + [e], a) == Held(es, a) + Flow(e, a)
    ensures forall a :: Sent(es + [e], a) == Sent(es, a) + if e.Transfer? && e.tx.sender == a then 1 else 0
    ensures TransferIds(es + [e]) == TransferIds(es) + if e.Transfer? then {TransactionId(e.tx)} else {}
  {
    var es' := es + [e];
    assert es'[..|es|] == es;
    assert forall i :: 0 <= i < |es| ==> es'[i] == es[i];
    assert es'[|es|] == e;
    forall id | id in TransferIds(es) ensures id in TransferIds(es') {
      var i :| 0 <= i < |es| && es[i].Transfer? && TransactionId(es[i].tx) == id;
      assert es'[i].Transfer? && TransactionId(es'[i].tx) == id;
    }
    if e.Transfer? {
      assert es'[|es|].Transfer? && TransactionId(es'[|es|].tx) == TransactionId(e.tx);
    }
  }

  lemma {:induction false} NextNonce(n: nat)
    ensures (n % TWO_TO_THE_64 + 1) % TWO_TO_THE_64 == (n + 1) % TWO_TO_THE_64
  {
  }

  lemma {:induction false} TransferStep(es: seq<Entry>, s: Scratch, tx: Transaction, miner: Address, dev: Address)
    requires Tracks(es, s)
    ensures var (s', error) := TryApplyTransaction(s, tx, miner, dev);
            var e := Transfer(tx, miner, dev);
            && (error.None? <==> Covered(es, e) && Bounded(es + [e]))
            && (error.None? ==> Tracks(es + [e], s'))
  {
    var e := Transfer(tx, miner, dev);
    var es' := es + [e];
    var (s', error) := TryApplyTransaction(s, tx, miner, dev);
    Snoc(es, e);
    if error.None? {
      TransferMoves(es, s, tx, miner, dev);
    } else if Covered(es, e) && Bounded(es') {
      TransferFits(es, s, tx, miner, dev);
    }
  }

  lemma {:induction false} TransferMoves(es: seq<Entry>, s: Scratch, tx: Transaction, miner: Address, dev: Address)
    requires Tracks(es, s) && TryApplyTransaction(s, tx, miner, dev).1.None?
    ensures Covered(es, Transfer(tx, miner, dev)) && Bounded(es + [Transfer(tx, miner, dev)])
    ensures Tracks(es + [Transfer(tx, miner, dev)], TryApplyTransaction(s, tx, miner, dev).0)
  {
    var e := Transfer(tx, miner, dev);
    var es' := es + [e];
    var s' := TryApplyTransaction(s, tx, miner, dev).0;
    Snoc(es, e);
    assert BalanceOf(s.balances, tx.sender) == Held(es, tx.sender);
    assert BalanceOf(s.nextNonces, tx.sender) == Sent(es, tx.sender) % TWO_TO_THE_64;
    forall a
      ensures BalanceOf(s'.balances, a) == Held(es', a)
      ensures BalanceOf(s'.nextNonces, a) == Sent(es', a) % TWO_TO_THE_64
    {
      assert BalanceOf(s.balances, a) == Held(es, a);
      assert BalanceOf(s.nextNonces, a) == Sent(es, a) % TWO_TO_THE_64;
      TransactionMoves(s, tx, miner, dev, a);
      NextNonce(Sent(es, a));
    }
    forall a ensures Held(es', a) < TWO_TO_THE_64 {
      assert BalanceOf(s'.balances, a) == Held(es', a);
    }
    IdsAfter(s, tx, miner, dev);
  }

  /** What the three credits of a transfer add to `a`. */
  function Credited(tx: Transaction, miner: Address, dev: Address, a: Address): int {
    Gain(a == tx.recipient, tx.amount) + Gain(a == miner, 48) + Gain(a == dev, 2)
  }

  lemma {:induction false} CreditsFit(s: Scratch, tx: Transaction, miner: Address, dev: Address)
    requires forall a :: a == tx.recipient || a == miner || a == dev ==>
      BalanceOf(s.balances, a) + Credited(tx, miner, dev, a) < TWO_TO_THE_64
    ensures Settle(s, tx, miner, dev).1.None?
  {
    assert BalanceOf(s.balances, tx.recipient) + Credited(tx, miner, dev, tx.recipient) < TWO_TO_THE_64;
    assert BalanceOf(s.balances, miner) + Credited(tx, miner, dev, miner) < TWO_TO_THE_64;
    assert BalanceOf(s.balances, dev) + Credited(tx, miner, dev, dev) < TWO_TO_THE_64;
  }

  lemma {:induction false} TransferFits(es: seq<Entry>, s: Scratch, tx: Transaction, miner: Address, dev: Address)
    requires Tracks(es, s) && Covered(es, Transfer(tx, miner, dev)) && Bounded(es + [Transfer(tx, miner, dev)])
    ensures TryApplyTransaction(s, tx, miner, dev).1.None?
  {
    hide Settle;
    var e := Transfer(tx, miner, dev);
    Snoc(es, e);
    assert BalanceOf(s.balances, tx.sender) == Held(es, tx.sender);
    assert BalanceOf(s.nextNonces, tx.sender) == Sent(es, tx.sender) % TWO_TO_THE_64;
    var debited: map<Address, u64> :=
      s.balances[tx.sender := BalanceOf(s.balances, tx.sender) - (tx.amount + TRANSACTION_FEE)];
    forall a ensures BalanceOf(debited, a) + Credited(tx, miner, dev, a) < TWO_TO_THE_64 {
      assert BalanceOf(s.balances, a) == Held(es, a);
      assert Held(es + [e], a) < TWO_TO_THE_64;
    }
    var id := TransactionId(tx);
    CreditsFit(Scratch(debited, s.nextNonces, s.confirmedTransactions + {id}, s.blockTransactions + {id}),
               tx, miner, dev);
  }

  lemma {:induction false} RewardStep(es: seq<Entry>, s: Scratch, e: Entry)
    requires Tracks(es, s) && e.Reward?
    ensures ApplyEntry(s, e).Some? <==> Bounded(es + [e])
    ensures ApplyEntry(s, e).Some? ==> Tracks(es + [e], ApplyEntry(s, e).value)
  {
    Snoc(es, e);
    var es' := es + [e];
    assert BalanceOf(s.balances, e.miner) == Held(es, e.miner);
    assert BalanceOf(s.balances, e.dev) == Held(es, e.dev);
    if Bounded(es') {
      assert Held(es', e.miner) < TWO_TO_THE_64 && Held(es', e.dev) < TWO_TO_THE_64;
    }
    if ApplyEntry(s, e).Some? {
      var s' := ApplyEntry(s, e).value;
      forall a ensures BalanceOf(s'.balances, a) == Held(es', a)
               ensures BalanceOf(s'.nextNonces, a) == Sent(es', a) % TWO_TO_THE_64
      {
        assert BalanceOf(s.balances, a) == Held(es, a);
      }
      forall a ensures Held(es', a) < TWO_TO_THE_64 {
        assert BalanceOf(s'.balances, a) == Held(es', a);
      }
    }
  }

  /** An entry applies exactly when it is covered and leaves every balance within 64 bits. */
  lemma {:induction false} EntryStep(es: seq<Entry>, s: Scratch, e: Entry)
    requires Tracks(es, s)
    ensures ApplyEntry(s, e).Some? <==> Covered(es, e) && Bounded(es + [e])
    ensures ApplyEntry(s, e).Some? ==> Tracks(es + [e], ApplyEntry(s, e).value)
  {
    hide Tracks, Bounded, TryApplyTransaction;
    if e.Transfer? {
      TransferStep(es, s, e.tx, e.miner, e.dev);
    } else {
      RewardStep(es, s, e);
    }
  }

  // Whole orders

  /** The entries `xs` pay one after the other when `es` came before them. */
  ghost predicate PaysOn(es: seq<Entry>, xs: seq<Entry>)
    decreases |xs|
  {
    xs == [] || (Covered(es, xs[0]) && Bounded(es + [xs[0]]) && PaysOn(es + [xs[0]], xs[1..]))
  }

  lemma {:induction false} PaysOnConcat(es: seq<Entry>, xs: seq<Entry>, ys: seq<Entry>)
    ensures PaysOn(es, xs + ys) <==> PaysOn(es, xs) && PaysOn(es + xs, ys)
    decreases |xs|
  {
    if xs == [] {
      assert xs + ys == ys && es + xs == es;
    } else {
      assert (xs + ys)[1..] == xs[1..] + ys;
      PaysOnConcat(es + [xs[0]], xs[1..], ys);
      assert es + [xs[0]] + xs[1..] == es + xs;
    }
  }

  lemma {:induction false} PayableSnoc(es: seq<Entry>, e: Entry)
    ensures Payable(es + [e]) <==> Payable(es) && Covered(es, e) && Bounded(es + [e])
  {
    var es' := es + [e];
    assert es'[..|es|] == es && es'[..|es'|] == es';
    assert forall j :: 0 <= j <= |es| ==> es'[..j] == es[..j];
  }

  lemma {:induction false} PaysOnIff(es: seq<Entry>)
    ensures PaysOn([], es) <==> Payable(es)
  {
    if es != [] {
      var n := |es| - 1;
      PaysOnIff(es[..n]);
      PaysOnConcat([], es[..n], [es[n]]);
      PayableSnoc(es[..n], es[n]);
      assert es == es[..n] + [es[n]] && [] + es[..n] == es[..n];
      assert [es[n]][1..] == [];
    }
  }

  lemma {:induction false} TransfersStep(
      es: seq<Entry>, s: Scratch, txs: seq<Transaction>, miner: Address, dev: Address)
    requires Tracks(es, s)
    ensures var applied, xs := ApplyTransactions(s, txs, miner, dev), Transfers(txs, miner, dev);
            && (applied.Ok? <==> PaysOn(es, xs))
            && (applied.Ok? ==> Tracks(es + xs, applied.value))
    decreases |txs|
  {
    hide Tracks, Covered, Bounded, TryApplyTransaction;
    var xs := Transfers(txs, miner, dev);
    if txs == [] {
      assert es + xs == es;
    } else {
      var e := Transfer(txs[0], miner, dev);
      EntryStep(es, s, e);
      assert xs[0] == e && xs[1..] == Transfers(txs[1..], miner, dev);
      assert PaysOn(es, xs) <==> Covered(es, e) && Bounded(es + [e]) && PaysOn(es + [e], xs[1..]);
      var (s', error) := TryApplyTransaction(s, txs[0], miner, dev);
      assert ApplyEntry(s, e) == if error.None? then Some(s') else None;
      if error.None? {
        TransfersStep(es + [e], s', txs[1..], miner, dev);
        assert es + [e] + xs[1..] == es + xs;
      }
    }
  }

  lemma {:induction false} TracksLedger(es: seq<Entry>, s: Scratch, l: Ledger)
    requires Tracks(es, s) && l == Ledger(s.balances, s.nextNonces, s.confirmedTransactions)
    ensures Tracks(es, ScratchOf(l))
  {
  }

  /** A block applies exactly when it is well rewarded and its entries pay. */
  lemma {:induction false} BlockStep(es: seq<Entry>, l: Ledger, b: VeloBlock)
    requires Tracks(es, ScratchOf(l))
    ensures ApplyBlock(l, b).Ok? <==> WellRewarded(b) && PaysOn(es, BlockEntries(b))
    ensures ApplyBlock(l, b).Ok? ==> Tracks(es + BlockEntries(b), ScratchOf(ApplyBlock(l, b).value))
  {
    hide Tracks, Covered, Bounded, ApplyTransactions, VerifyCoinbaseRewards;
    var miner, dev := b.coinbaseMinerAddress, b.coinbaseDevAddress;
    if b.header.height == 0 {
      assert es + BlockEntries(b) == es;
    } else if WellRewarded(b) {
      var transfers := Transfers(b.transactions, miner, dev);
      var e := Reward(miner, b.coinbaseMinerOutput, dev, b.coinbaseDevOutput);
      var applied := ApplyTransactions(ScratchOf(l), b.transactions, miner, dev);
      TransfersStep(es, ScratchOf(l), b.transactions, miner, dev);
      PaysOnConcat(es, transfers, [e]);
      assert [e][1..] == [];
      if applied.Ok? {
        EntryStep(es + transfers, applied.value, e);
        assert es + transfers + [e] == es + BlockEntries(b);
        if ApplyEntry(applied.value, e).Some? {
          TracksLedger(es + BlockEntries(b), ApplyEntry(applied.value, e).value, ApplyBlock(l, b).value);
        }
      }
    }
  }

  lemma {:induction false} ReplayStep(es: seq<Entry>, store: Store, order: seq<Hash>, l: Ledger)
    requires Tracks(es, ScratchOf(l))
    ensures ReplayFrom(store, order, l).Ok? <==>
            AllWellRewarded(store, order) && PaysOn(es, Entries(store, order))
    ensures ReplayFrom(store, order, l).Ok? ==>
              Tracks(es + Entries(store, order), ScratchOf(ReplayFrom(store, order, l).value))
    decreases |order|
  {
    hide Tracks, Covered, Bounded, ApplyBlock, WellRewarded, BlockEntries;
    if order == [] {
      assert es + [] == es;
    } else if order[0] in store {
      var b, rest := store[order[0]], order[1..];
      BlockStep(es, l, b);
      PaysOnConcat(es, BlockEntries(b), Entries(store, rest));
      assert forall h :: h in order <==> h == order[0] || h in rest;
      if ApplyBlock(l, b).Ok? {
        ReplayStep(es + BlockEntries(b), store, rest, ApplyBlock(l, b).value);
        assert es + BlockEntries(b) + Entries(store, rest) == es + Entries(store, order);
      }
    }
  }

  /** The ledger that the payments `es` come to: every balance is what they moved, every next nonce the number of
      transfers sent, and their identifiers are the confirmed ones. */
  ghost predicate Accounts(es: seq<Entry>, l: Ledger) {
    && (forall a :: BalanceOf(l.balances, a) == Held(es, a))
    && (forall a :: BalanceOf(l.nextNonces, a) == Sent(es, a) % TWO_TO_THE_64)
    && l.confirmedTransactions == TransferIds(es)
  }

  /** A successful replay leaves the ledger its payments come to. */
  lemma {:induction false} ReplayComesTo(store: Store, order: seq<Hash>)
    requires ReplayFrom(store, order, EMPTY_LEDGER).Ok?
    ensures Accounts(Entries(store, order), ReplayFrom(store, order, EMPTY_LEDGER).value)
  {
    hide ReplayFrom;
    assert Tracks([], ScratchOf(EMPTY_LEDGER));
    ReplayStep([], store, order, EMPTY_LEDGER);
    assert [] + Entries(store, order) == Entries(store, order);
  }

  /** Two ledgers the same payments come to are the same to every address. */
  lemma {:induction false} AccountsAgree(es: seq<Entry>, l: Ledger, l': Ledger)
    requires Accounts(es, l) && Accounts(es, l')
    ensures l.confirmedTransactions == l'.confirmedTransactions
    ensures forall a :: BalanceOf(l.balances, a) == BalanceOf(l'.balances, a)
                        && BalanceOf(l.nextNonces, a) == BalanceOf(l'.nextNonces, a)
  {
    forall a ensures BalanceOf(l.balances, a) == BalanceOf(l'.balances, a)
                     && BalanceOf(l.nextNonces, a) == BalanceOf(l'.nextNonces, a)
    {
      assert BalanceOf(l.balances, a) == Held(es, a);
      assert BalanceOf(l.nextNonces, a) == Sent(es, a) % TWO_TO_THE_64;
    }
  }

  /** A replay on the empty ledger succeeds exactly when all its blocks are stored and well rewarded and
      their entries, in this order, are payable. */
  lemma {:induction false} ReplaysIff(store: Store, order: seq<Hash>)
    ensures ReplayFrom(store, order, EMPTY_LEDGER).Ok? <==>
            AllWellRewarded(store, order) && Payable(Entries(store, order))
  {
    hide ReplayFrom, Payable;
    assert Tracks([], ScratchOf(EMPTY_LEDGER));
    ReplayStep([], store, order, EMPTY_LEDGER);
    PaysOnIff(Entries(store, order));
  }

  // While the rewards fit 64 bits only coverage matters

  ghost function RewardTotal(es: seq<Entry>): nat {
    if es == [] then 0
    else
      var e := es[|es| - 1];
      RewardTotal(es[..|es| - 1]) + if e.Reward? then e.minerOutput + e.devOutput else 0
  }

  /** A covered entry applies while balances and rewards fit 64 bits. */
  lemma {:induction false} CoveredApplies(es: seq<Entry>, s: Scratch, e: Entry)
    requires Tracks(es, s) && Covered(es, e) && MapSum(s.balances) < TWO_TO_THE_64
    requires e.Reward? ==> MapSum(s.balances) + e.minerOutput + e.devOutput < TWO_TO_THE_64
    ensures ApplyEntry(s, e).Some?
    ensures MapSum(ApplyEntry(s, e).value.balances) ==
            MapSum(s.balances) + if e.Reward? then e.minerOutput + e.devOutput else -50
  {
    if e.Transfer? {
      assert BalanceOf(s.balances, e.tx.sender) == Held(es, e.tx.sender);
      assert BalanceOf(s.nextNonces, e.tx.sender) == Sent(es, e.tx.sender) % TWO_TO_THE_64;
      AppliesIff(s, e.tx, e.miner, e.dev);
      TransactionConserves(s, e.tx, e.miner, e.dev);
    } else {
      CreditTotal(s.balances, e.miner, e.minerOutput);
      CreditTotal(Credit(s.balances, e.miner, e.minerOutput).value, e.dev, e.devOutput);
    }
  }

  lemma {:induction false} SolventState(es: seq<Entry>) returns (s: Scratch)
    requires Solvent(es) && RewardTotal(es) < TWO_TO_THE_64
    ensures Tracks(es, s) && MapSum(s.balances) <= RewardTotal(es)
    ensures Payable(es)
  {
    if es == [] {
      s := ScratchOf(EMPTY_LEDGER);
    } else {
      hide Tracks, Bounded;
      var n := |es| - 1;
      var e := es[n];
      assert forall j :: 0 <= j <= n ==> es[..n][..j] == es[..j];
      var before := SolventState(es[..n]);
      CoveredApplies(es[..n], before, e);
      EntryStep(es[..n], before, e);
      assert es[..n] + [e] == es;
      PayableSnoc(es[..n], e);
      s := ApplyEntry(before, e).value;
    }
  }

  lemma {:induction false} SolventIffPayable(es: seq<Entry>)
    requires RewardTotal(es) < TWO_TO_THE_64
    ensures Payable(es) <==> Solvent(es)
  {
    if Solvent(es) {
      var s := SolventState(es);
    }
  }

  lemma {:induction false} RewardTotalConcat(xs: seq<Entry>, ys: seq<Entry>)
    ensures RewardTotal(xs + ys) == RewardTotal(xs) + RewardTotal(ys)
    decreases |ys|
  {
    if ys == [] {
      assert xs + ys == xs;
    } else {
      var n := |ys| - 1;
      RewardTotalConcat(xs, ys[..n]);
      assert (xs + ys)[..|xs + ys| - 1] == xs + ys[..n];
    }
  }

  lemma {:induction false} TransfersRewardNothing(txs: seq<Transaction>, miner: Address, dev: Address)
    ensures RewardTotal(Transfers(txs, miner, dev)) == 0
    decreases |txs|
  {
    if txs != [] {
      var e := Transfer(txs[0], miner, dev);
      TransfersRewardNothing(txs[1..], miner, dev);
      RewardTotalConcat([e], Transfers(txs[1..], miner, dev));
      assert RewardTotal([e]) == 0;
    }
  }

  lemma {:induction false} BlockReward(b: VeloBlock)
    requires WellRewarded(b)
    ensures RewardTotal(BlockEntries(b)) == Minted(b)
  {
    if b.header.height > 0 {
      var miner, dev := b.coinbaseMinerAddress, b.coinbaseDevAddress;
      var e := Reward(miner, b.coinbaseMinerOutput, dev, b.coinbaseDevOutput);
      TransfersRewardNothing(b.transactions, miner, dev);
      RewardTotalConcat(Transfers(b.transactions, miner, dev), [e]);
      assert [e][..0] == [] && RewardTotal([e]) == b.coinbaseMinerOutput + b.coinbaseDevOutput;
    }
  }

  lemma {:induction false} OrderReward(store: Store, order: seq<Hash>)
    requires NoDup(order) && AllWellRewarded(store, order)
    ensures Elems(order) <= store.Keys
    ensures RewardTotal(Entries(store, order)) == SetSum(Elems(order), Mints(store))
    decreases |order|
  {
    hide SetSum, WellRewarded, BlockEntries;
    if order == [] {
      assert Elems(order) == {};
      SumNothing(Mints(store));
    } else {
      var h, rest := order[0], order[1..];
      OrderReward(store, rest);
      BlockReward(store[h]);
      RewardTotalConcat(BlockEntries(store[h]), Entries(store, rest));
      assert order == [h] + rest;
      ElemsConcat([h], rest);
      assert h !in Elems(rest) && Elems(order) == Elems(rest) + {h};
      SumInsert(Elems(rest), Mints(store), h);
    }
  }

  lemma {:induction false} SumNothing<K>(w: map<K, int>)
    ensures SetSum({}, w) == 0
  {
  }

  // Recomputing the ledger from a tip

  /** What recomputing from a tip comes to. */
  lemma {:induction false} RecomputeComesTo(store: Store, c: Cache, tip: Hash)
    requires ScoreFalls(c) && RecomputeLedger(store, c, tip).Ok?
    ensures Accounts(Entries(store, LinearSort(c, tip)), RecomputeLedger(store, c, tip).value)
  {
    hide ReplayFrom, LinearSort, Entries, Accounts;
    ReplayComesTo(store, LinearSort(c, tip));
  }

  // What one block does to any ledger

  lemma {:induction false} HeldConcat(xs: seq<Entry>, ys: seq<Entry>, a: Address)
    ensures Held(xs + ys, a) == Held(xs, a) + Held(ys, a) && Sent(xs + ys, a) == Sent(xs, a) + Sent(ys, a)
    decreases |ys|
  {
    if ys == [] {
      assert xs + ys == xs;
    } else {
      var n := |ys| - 1;
      HeldConcat(xs, ys[..n], a);
      assert (xs + ys)[..|xs + ys| - 1] == xs + ys[..n];
    }
  }

  lemma {:induction false} TransfersMove(
      s: Scratch, txs: seq<Transaction>, miner: Address, dev: Address, a: Address)
    requires ApplyTransactions(s, txs, miner, dev).Ok?
    ensures BalanceOf(ApplyTransactions(s, txs, miner, dev).value.balances, a) ==
            BalanceOf(s.balances, a) + Held(Transfers(txs, miner, dev), a)
    decreases |txs|
  {
    hide TryApplyTransaction;
    if txs != [] {
      var s', e := TryApplyTransaction(s, txs[0], miner, dev).0, Transfer(txs[0], miner, dev);
      TransactionMoves(s, txs[0], miner, dev, a);
      TransfersMove(s', txs[1..], miner, dev, a);
      HeldConcat([e], Transfers(txs[1..], miner, dev), a);
      assert Held([e], a) == Flow(e, a);
    }
  }

  lemma {:induction false} RewardMoves(s: Scratch, e: Entry, a: Address)
    requires e.Reward? && ApplyEntry(s, e).Some?
    ensures BalanceOf(ApplyEntry(s, e).value.balances, a) == BalanceOf(s.balances, a) + Flow(e, a)
  {
  }

  /** An applied block changes every balance by what its own payments move, reward included. */
  lemma {:induction false} BlockMoves(l: Ledger, b: VeloBlock, a: Address)
    requires ApplyBlock(l, b).Ok?
    ensures BalanceOf(ApplyBlock(l, b).value.balances, a) == BalanceOf(l.balances, a) + Held(BlockEntries(b), a)
  {
    hide ApplyTransactions, VerifyCoinbaseRewards, Transfers, Flow;
    if b.header.height > 0 {
      var miner, dev := b.coinbaseMinerAddress, b.coinbaseDevAddress;
      var e := Reward(miner, b.coinbaseMinerOutput, dev, b.coinbaseDevOutput);
      var s := ApplyTransactions(ScratchOf(l), b.transactions, miner, dev).value;
      TransfersMove(ScratchOf(l), b.transactions, miner, dev, a);
      RewardMoves(s, e, a);
      HeldConcat(Transfers(b.transactions, miner, dev), [e], a);
      assert Held([e], a) == Flow(e, a);
    }
  }

  lemma {:induction false} ReplaysIffSolvent(store: Store, order: seq<Hash>)
    requires NoDup(order) && Elems(order) <= store.Keys && SetSum(Elems(order), Mints(store)) < TWO_TO_THE_64
    ensures ReplayFrom(store, order, EMPTY_LEDGER).Ok? <==>
            AllWellRewarded(store, order) && Solvent(Entries(store, order))
  {
    hide Payable, Solvent, ReplayFrom;
    ReplaysIff(store, order);
    if AllWellRewarded(store, order) {
      OrderReward(store, order);
      SolventIffPayable(Entries(store, order));
    }
  }

  /** Recomputing from a tip succeeds exactly when the payments of its linear order, rewards at the end of
      each block, cover one another and fit 64 bits. */
  lemma {:induction false} RecomputesIff(store: Store, c: Cache, tip: Hash)
    requires ScoreFalls(c)
    ensures var order := LinearSort(c, tip);
            RecomputeLedger(store, c, tip).Ok? <==> AllWellRewarded(store, order) && Payable(Entries(store, order))
  {
    hide Payable, ReplayFrom, AllWellRewarded, LinearSort, Entries;
    ReplaysIff(store, LinearSort(c, tip));
  }

  /** While the rewards fit 64 bits nothing can overflow, and coverage alone decides. */
  lemma {:induction false} RecomputesIffSolvent(store: Store, k: nat, c: Cache, tip: Hash, blocks: set<Hash>)
    requires Consistent(GraphOf(store), k, c) && tip in store && ScoreFalls(c)
    requires blocks == Past(GraphOf(store), tip) + {tip} && blocks <= store.Keys
    requires SetSum(blocks, Mints(store)) < TWO_TO_THE_64
    ensures var order := LinearSort(c, tip);
            RecomputeLedger(store, c, tip).Ok? <==> AllWellRewarded(store, order) && Solvent(Entries(store, order))
  {
    hide Solvent, ReplayFrom, AllWellRewarded, SetSum, LinearSort, Entries;
    ExactlyOnce(GraphOf(store), k, c, tip);
    ReplaysIffSolvent(store, LinearSort(c, tip));
  }

  lemma {:induction false} NothingSpentIsSolvent(store: Store, order: seq<Hash>)
    requires forall h :: h in order ==> h in store && store[h].transactions == []
    ensures forall e :: e in Entries(store, order) ==> e.Reward?
    decreases |order|
  {
    if order != [] {
      NothingSpentIsSolvent(store, order[1..]);
    }
  }

  /** With nothing spent and nothing red below it, a tip can be recomputed exactly when it spends nothing
      itself. */
  lemma {:induction false} RedFreeRecomputesIff(store: Store, k: nat, c: Cache, tip: Hash)
    requires Consistent(GraphOf(store), k, c) && tip in store && ScoreFalls(c) && ChainReds(c, tip) == {}
    requires forall x :: x in Past(GraphOf(store), tip) ==> x in store && store[x].transactions == []
    requires forall x :: x in Past(GraphOf(store), tip) + {tip} ==> x in store && WellRewarded(store[x])
    requires SetSum(Past(GraphOf(store), tip) + {tip}, Mints(store)) < TWO_TO_THE_64
    ensures RecomputeLedger(store, c, tip).Ok? <==> store[tip].transactions == []
  {
    hide RecomputeLedger, WellRewarded, SetSum;
    var order := LinearSort(c, tip);
    if store[tip].transactions == [] {
      ExactlyOnce(GraphOf(store), k, c, tip);
      RecomputesIffSolvent(store, k, c, tip, Past(GraphOf(store), tip) + {tip});
      assert forall h :: h in order ==> h in Elems(order);
      NothingSpentIsSolvent(store, order);
      var es := Entries(store, order);
      assert forall j :: 0 <= j < |es| ==> es[j] in es && es[j].Reward?;
    } else {
      TransactionInTipFails(store, k, c, tip);
    }
  }

  // Blocks that spend nothing

  /** A block without transactions that the ledger's static rules accept. */
  predicate CoinbaseOnly(b: VeloBlock) {
    b.transactions == [] && WellRewarded(b)
  }

  lemma {:induction false} CoinbaseApplies(l: Ledger, b: VeloBlock)
    requires CoinbaseOnly(b) && MapSum(l.balances) + Minted(b) < TWO_TO_THE_64
    ensures ApplyBlock(l, b).Ok? && MapSum(ApplyBlock(l, b).value.balances) == MapSum(l.balances) + Minted(b)
  {
    if b.header.height > 0 {
      CreditTotal(l.balances, b.coinbaseMinerAddress, b.coinbaseMinerOutput);
      var b1 := Credit(l.balances, b.coinbaseMinerAddress, b.coinbaseMinerOutput).value;
      CreditTotal(b1, b.coinbaseDevAddress, b.coinbaseDevOutput);
    }
    BlockConserves(l, b);
  }

  /** Blocks without transactions replay in every order. */
  lemma {:induction false} CoinbaseReplays(store: Store, order: seq<Hash>, l: Ledger)
    requires forall h :: h in order ==> h in store && CoinbaseOnly(store[h])
    requires MapSum(l.balances) + 83_238 * |order| < TWO_TO_THE_64
    ensures ReplayFrom(store, order, l).Ok?
    ensures MapSum(ReplayFrom(store, order, l).value.balances) <= MapSum(l.balances) + 83_238 * |order|
    decreases |order|
  {
    if order == [] {
    } else {
      CoinbaseApplies(l, store[order[0]]);
      CoinbaseReplays(store, order[1..], ApplyBlock(l, store[order[0]]).value);
    }
  }
}
