/** What two nodes agree on: always the colouring, and the ledger when the canonical payments cover one another
    or when the blocks were stored in the same order. */
module Convergence {
  import opened Types
  import opened Sequences
  import opened Sums
  import opened Dag
  import opened Colouring
  import opened ForkChoice
  import opened LinearOrder
  import opened LedgerRules
  import opened Replay
  import opened Solvency
  import opened Orphans
  import opened Validation
  import opened NodeRules
  import opened Mining
  import opened Restart
  import opened Runs

  lemma {:induction false} HeldIsRecomputed(cfg: Config, s: NodeState, tip: Hash)
    requires Inv(cfg, s) && CanonicalTip(s.cache) == Some(tip) && Payable(Payments(s, tip))
    ensures tip in s.store && RecomputeLedger(s.store, s.cache, tip) == Ok(s.ledger)
  {
    hide RecomputeLedger, Payable;
    TipExists(cfg, s);
    RecomputesIffPayable(cfg, s, tip);
    assert HoldsRecomputed(s.store, s.cache, s.ledger, tip);
  }

  /** In every state whose canonical payments cover one another, the node's balances are exactly the subsidies
      of the canonical past less the burned fees. */
  lemma {:induction false} StateSupply(cfg: Config, s: NodeState, tip: Hash)
    requires Inv(cfg, s) && CanonicalTip(s.cache) == Some(tip) && Payable(Payments(s, tip))
    ensures tip in s.store && Past(GraphOf(s.store), tip) <= s.store.Keys
    ensures MapSum(s.ledger.balances) == Supply(s.store, Past(GraphOf(s.store), tip) + {tip})
  {
    hide RecomputeLedger, Payable, Payments;
    HeldIsRecomputed(cfg, s, tip);
    SupplyEquation(s.store, cfg.k, s.cache, tip);
  }

  /** ... and the ledger as a whole is what those payments come to. */
  lemma {:induction false} StateAccounts(cfg: Config, s: NodeState, tip: Hash)
    requires Inv(cfg, s) && CanonicalTip(s.cache) == Some(tip) && Payable(Payments(s, tip))
    ensures Accounts(Payments(s, tip), s.ledger)
  {
    hide RecomputeLedger, Payable, LinearSort, Entries, Accounts;
    HeldIsRecomputed(cfg, s, tip);
    RecomputeComesTo(s.store, s.cache, tip);
  }

  lemma {:induction false} StatesConverge(cfg: Config, s: NodeState, cfg': Config, s': NodeState)
    requires Inv(cfg, s) && Inv(cfg', s') && cfg.k == cfg'.k && s.store == s'.store
    ensures s.cache == s'.cache && ScoreFalls(s.cache) && CanonicalTip(s.cache).Some?
    ensures Payable(Payments(s, CanonicalTip(s.cache).value)) ==> s.ledger == s'.ledger
  {
    hide RecomputeLedger, Payable, LinearSort, Entries;
    ConsistentUnique(GraphOf(s.store), cfg.k, s.cache, s'.cache);
    TipExists(cfg, s);
    var tip := CanonicalTip(s.cache).value;
    if Payable(Payments(s, tip)) {
      HeldIsRecomputed(cfg, s, tip);
      HeldIsRecomputed(cfg', s', tip);
    }
  }

  // The ledger as a function of the order in which blocks were stored

  /** The blocks the node stored, in the order it did, across restarts. */
  ghost function StoringOrder(cfg: Config, s: NodeState): seq<VeloBlock> {
    [cfg.genesis] + StoredBlocks(s.journal)
  }

  ghost function StoredBlocks(journal: seq<(VeloBlock, Outcome)>): seq<VeloBlock> {
    if journal == [] then []
    else
      var n := |journal| - 1;
      var (b, outcome) := journal[n];
      StoredBlocks(journal[..n]) + if outcome == Accepted || outcome == Mined then [b] else []
  }

  lemma {:induction false} StoredSnoc(journal: seq<(VeloBlock, Outcome)>, b: VeloBlock, outcome: Outcome)
    ensures StoredBlocks(journal + [(b, outcome)]) ==
            StoredBlocks(journal) + if outcome == Accepted || outcome == Mined then [b] else []
  {
    assert (journal + [(b, outcome)])[..|journal|] == journal;
  }

  /** The blocks of a storing order under their hashes. */
  ghost function StoreOf(hashOf: VeloBlock -> Hash, history: seq<VeloBlock>): Store {
    if history == [] then map[]
    else
      var n := |history| - 1;
      StoreOf(hashOf, history[..n])[hashOf(history[n]) := history[n]]
  }

  ghost predicate RecomputesTo(store: Store, k: nat, l: Ledger) {
    exists c, tip ::
      && Consistent(GraphOf(store), k, c) && ScoreFalls(c) && CanonicalTip(c) == Some(tip)
      && RecomputeLedger(store, c, tip) == Ok(l)
  }

  ghost predicate Recomputes(store: Store, k: nat) {
    exists l :: RecomputesTo(store, k, l)
  }

  /** The ledger a history leaves: recomputed whenever its store allows it, else the last block applied to the
      ledger of the history before it. */
  ghost function HeldAfter(hashOf: VeloBlock -> Hash, k: nat, history: seq<VeloBlock>): Ledger {
    var store := StoreOf(hashOf, history);
    if |history| <= 1 then EMPTY_LEDGER
    else if Recomputes(store, k) then
      var l :| RecomputesTo(store, k, l);
      l
    else
      var n := |history| - 1;
      var before := HeldAfter(hashOf, k, history[..n]);
      var applied := ApplyBlock(before, history[n]);
      if applied.Ok? then applied.value else before
  }

  ghost predicate IsCanonical(store: Store, k: nat, c: Cache, tip: Hash) {
    && Consistent(GraphOf(store), k, c) && CanonicalTip(c) == Some(tip) && tip in store
    && Past(GraphOf(store), tip) <= store.Keys
  }

  ghost predicate HasCanonical(store: Store, k: nat) {
    exists c, tip :: IsCanonical(store, k, c, tip)
  }

  /** What the canonical tip's past mints, less the burned fees. */
  ghost function CanonicalSupply(store: Store, k: nat): int {
    if HasCanonical(store, k) then
      var c, tip :| IsCanonical(store, k, c, tip);
      Supply(store, Past(GraphOf(store), tip) + {tip})
    else 0
  }

  /** The money a storing order leaves: the canonical supply whenever its store recomputes, else what the order
      before the last block left and that block's net issue. */
  ghost function HeldTotal(hashOf: VeloBlock -> Hash, k: nat, order: seq<VeloBlock>): int {
    var store := StoreOf(hashOf, order);
    if |order| <= 1 then 0
    else if Recomputes(store, k) then CanonicalSupply(store, k)
    else HeldTotal(hashOf, k, order[..|order| - 1]) + NetIssue(order[|order| - 1])
  }

  /** Store, ledger and money are those of the storing order, which repeats no hash. */
  ghost predicate FollowsStoring(cfg: Config, s: NodeState) {
    var order := StoringOrder(cfg, s);
    && s.store == StoreOf(cfg.hashOf, order)
    && NoDup(HashesOf(cfg, order)) && Elems(HashesOf(cfg, order)) == s.store.Keys
    && s.ledger == HeldAfter(cfg.hashOf, cfg.k, order)
    && MapSum(s.ledger.balances) == HeldTotal(cfg.hashOf, cfg.k, order)
  }

  lemma {:induction false} RecomputesUniquely(store: Store, k: nat, c: Cache, tip: Hash, l: Ledger)
    requires Consistent(GraphOf(store), k, c) && ScoreFalls(c) && CanonicalTip(c) == Some(tip)
    requires RecomputesTo(store, k, l)
    ensures RecomputeLedger(store, c, tip) == Ok(l)
  {
    hide RecomputeLedger, CanonicalTip;
    var c', tip' :|
      && Consistent(GraphOf(store), k, c') && ScoreFalls(c') && CanonicalTip(c') == Some(tip')
      && RecomputeLedger(store, c', tip') == Ok(l);
    ConsistentUnique(GraphOf(store), k, c, c');
  }

  lemma {:induction false} HeldAfterStep(hashOf: VeloBlock -> Hash, k: nat, order: seq<VeloBlock>, b: VeloBlock)
    requires order != []
    ensures var store, held := StoreOf(hashOf, order + [b]), HeldAfter(hashOf, k, order + [b]);
            var applied := ApplyBlock(HeldAfter(hashOf, k, order), b);
            && store == StoreOf(hashOf, order)[hashOf(b) := b]
            && (Recomputes(store, k) ==> RecomputesTo(store, k, held))
            && (!Recomputes(store, k) && applied.Ok? ==> held == applied.value)
    ensures HeldTotal(hashOf, k, order + [b]) ==
            if Recomputes(StoreOf(hashOf, order + [b]), k) then CanonicalSupply(StoreOf(hashOf, order + [b]), k)
            else HeldTotal(hashOf, k, order) + NetIssue(b)
  {
    hide ApplyBlock, RecomputesTo, CanonicalSupply;
    assert (order + [b])[..|order|] == order;
  }

  lemma {:induction false} CanonicalSupplyIs(store: Store, k: nat, c: Cache, tip: Hash)
    requires IsCanonical(store, k, c, tip)
    ensures CanonicalSupply(store, k) == Supply(store, Past(GraphOf(store), tip) + {tip})
  {
    hide Supply, CanonicalTip, Consistent;
    assert HasCanonical(store, k);
    var c', tip' :| IsCanonical(store, k, c', tip')
      && CanonicalSupply(store, k) == Supply(store, Past(GraphOf(store), tip') + {tip'});
    ConsistentUnique(GraphOf(store), k, c, c');
  }

  /** After storing a block, ledger and money are what the new store recomputes to, if it does. */
  lemma {:induction false} ExtendHolds(cfg: Config, s: NodeState, b: VeloBlock, applied: Ledger)
    requires Inv(cfg, s) && Insertable(GraphOf(s.store), cfg.hashOf(b), b.header.parents)
    requires ApplyBlock(s.ledger, b) == Ok(applied) && Inv(cfg, Extend(cfg, s, b, applied))
    ensures var s' := Extend(cfg, s, b, applied);
            && s'.store == s.store[cfg.hashOf(b) := b] && s'.journal == s.journal
            && (!Recomputes(s'.store, cfg.k) ==>
                  s'.ledger == applied && MapSum(applied.balances) == MapSum(s.ledger.balances) + NetIssue(b))
            && (forall l :: RecomputesTo(s'.store, cfg.k, l) ==> s'.ledger == l)
            && (Recomputes(s'.store, cfg.k) ==> MapSum(s'.ledger.balances) == CanonicalSupply(s'.store, cfg.k))
  {
    hide RecomputeLedger, CanonicalTip, ApplyBlock, Consistent, Step, LinearSort, BlocksOf;
    hide Inv, ScoreFalls, MapSum, NetIssue, Supply, CanonicalSupply, Past;
    var s' := Extend(cfg, s, b, applied);
    TipExists(cfg, s');
    InvParts(cfg, s');
    BlockConserves(s.ledger, b);
    var tip := CanonicalTip(s'.cache).value;
    var replayed := RecomputeLedger(s'.store, s'.cache, tip);
    if replayed.Ok? {
      assert RecomputesTo(s'.store, cfg.k, replayed.value);
      SupplyEquation(s'.store, cfg.k, s'.cache, tip);
      CanonicalSupplyIs(s'.store, cfg.k, s'.cache, tip);
    }
    forall l | RecomputesTo(s'.store, cfg.k, l) ensures replayed == Ok(l) {
      RecomputesUniquely(s'.store, cfg.k, s'.cache, tip, l);
    }
  }

  lemma {:induction false} ExtendFollows(cfg: Config, s: NodeState, b: VeloBlock, applied: Ledger, outcome: Outcome)
    requires Inv(cfg, s) && Insertable(GraphOf(s.store), cfg.hashOf(b), b.header.parents)
    requires ApplyBlock(s.ledger, b) == Ok(applied) && Inv(cfg, Extend(cfg, s, b, applied))
    requires FollowsStoring(cfg, s) && (outcome == Accepted || outcome == Mined)
    ensures FollowsStoring(cfg, Note(Extend(cfg, s, b, applied), b, outcome))
  {
    hide ApplyBlock, Extend, HeldAfter, HeldTotal, StoreOf, Inv, StoredBlocks, RecomputesTo, MapSum, NetIssue;
    hide CanonicalSupply;
    var s', order := Extend(cfg, s, b, applied), StoringOrder(cfg, s);
    ExtendHolds(cfg, s, b, applied);
    StoredSnoc(s.journal, b, outcome);
    assert StoringOrder(cfg, Note(s', b, outcome)) == order + [b];
    HeldAfterStep(cfg.hashOf, cfg.k, order, b);
    HashesSnoc(cfg, order, b);
    NoDupSnoc(HashesOf(cfg, order), cfg.hashOf(b));
    ElemsConcat(HashesOf(cfg, order), [cfg.hashOf(b)]);
    assert Elems([cfg.hashOf(b)]) == {cfg.hashOf(b)};
  }

  lemma {:induction false} NoteFollows(cfg: Config, s: NodeState, b: VeloBlock, outcome: Outcome)
    requires FollowsStoring(cfg, s) && outcome != Accepted && outcome != Mined
    ensures FollowsStoring(cfg, Note(s, b, outcome))
  {
    hide HeldAfter, HeldTotal, StoreOf, StoredBlocks, MapSum;
    StoredSnoc(s.journal, b, outcome);
    assert StoringOrder(cfg, Note(s, b, outcome)) == StoringOrder(cfg, s);
  }

  lemma {:induction false} IngestFollows(cfg: Config, s: NodeState, b: VeloBlock)
    requires Inv(cfg, s) && FollowsStoring(cfg, s)
    ensures FollowsStoring(cfg, Ingest(cfg, s, b))
    decreases s.pool.currentSize, 1, 0
  {
    hide Check, Accept, Inv;
    TickKeepsInv(cfg, s);
    var now := cfg.clock(s.calls);
    var s1 := Tick(s);
    match Check(cfg, s1, b, now)
    case AlreadyKnown => NoteFollows(cfg, s1, b, Known);
    case Refuse(reason) => NoteFollows(cfg, s1, b, Rejected(reason));
    case MissingParent(parent) => NoteFollows(cfg, s1.(pool := PoolInsert(s1.pool, parent, b)), b, PoolFull);
    case Admit =>
      var (s2, ready) := Accept(cfg, s1, b, now);
      AcceptFollows(cfg, s1, b, now);
      ReplayFollows(cfg, s2, ready);
  }

  lemma {:induction false} AcceptFollows(cfg: Config, s: NodeState, b: VeloBlock, now: u64)
    requires Inv(cfg, s) && FollowsStoring(cfg, s) && Check(cfg, s, b, now) == Admit
    ensures FollowsStoring(cfg, Accept(cfg, s, b, now).0)
  {
    hide Check, ApplyBlock, Inv, Extend;
    AdmittedIsPlaced(cfg, s, b, now);
    AppliedIsWellRewarded(s.ledger, b);
    var applied := ApplyBlock(s.ledger, b).value;
    InvParts(cfg, s);
    ExtendKeepsInv(cfg, s, b, applied);
    ExtendFollows(cfg, s, b, applied, Accepted);
  }

  lemma {:induction false} ReplayFollows(cfg: Config, s: NodeState, ready: seq<VeloBlock>)
    requires Inv(cfg, s) && FollowsStoring(cfg, s) && s.pool.currentSize + |ready| <= s.pool.maxSize
    ensures FollowsStoring(cfg, ReplayOrphans(cfg, s, ready))
    decreases s.pool.currentSize + |ready|, 0, |ready|
  {
    hide Inv, FollowsStoring, Ingest;
    if ready != [] {
      IngestFollows(cfg, s, ready[0]);
      ReplayFollows(cfg, Ingest(cfg, s, ready[0]), ready[1..]);
    }
  }

  lemma {:induction false} MineFollows(
      cfg: Config, s: NodeState, candidates: seq<Transaction>, miner: Address, timestamp: u64, nonce: u64)
    requires Inv(cfg, s) && HashBinds(cfg) && FollowsStoring(cfg, s)
    ensures FollowsStoring(cfg, MineTick(cfg, s, candidates, miner, timestamp, nonce))
  {
    hide ApplyBlock, Inv, Extend, HashBinds, FollowsStoring, MinedBlock;
    TipExists(cfg, s);
    var tip := CanonicalTip(s.cache).value;
    var b := MinedBlock(s, tip, candidates, miner, timestamp, nonce);
    if ApplyBlock(s.ledger, b).Ok? {
      MineKeepsInv(cfg, s, tip, candidates, miner, timestamp, nonce);
      ExtendFollows(cfg, s, b, ApplyBlock(s.ledger, b).value, Mined);
    }
  }

  lemma {:induction false} StartFollows(cfg: Config, maxPool: nat)
    requires Usable(cfg)
    ensures FollowsStoring(cfg, Start(cfg, maxPool))
  {
    var order := [cfg.genesis];
    assert StoringOrder(cfg, Start(cfg, maxPool)) == order;
    assert order[..0] == [];
    assert StoreOf(cfg.hashOf, []) == map[];
    assert StoreOf(cfg.hashOf, order) == map[][GenesisHash(cfg) := cfg.genesis];
    assert HashesOf(cfg, order) == [GenesisHash(cfg)];
    assert Elems([GenesisHash(cfg)]) == {GenesisHash(cfg)};
  }

  lemma {:induction false} ApplyFollows(cfg: Config, s: NodeState, e: Event)
    requires Inv(cfg, s) && (e.Mine? ==> HashBinds(cfg)) && FollowsStoring(cfg, s)
    ensures FollowsStoring(cfg, Apply(cfg, s, e))
  {
    hide Inv, HashBinds, Ingest, MineTick, Restarted, StoredByHeight;
    match e
    case Receive(block) => IngestFollows(cfg, s, block);
    case Mine(candidates, miner, timestamp, nonce) => MineFollows(cfg, s, candidates, miner, timestamp, nonce);
    case Restart(stored, maxPool) =>
  }

  /** After every run, whether its canonical order replays or not and restarts included, the ledger is a function of
      the order in which the blocks were stored. */
  lemma {:induction false} LedgerFollowsStoring(cfg: Config, maxPool: nat, events: seq<Event>)
    requires Runnable(cfg, events)
    ensures FollowsStoring(cfg, Run(cfg, maxPool, events))
  {
    hide Inv, HashBinds, FollowsStoring, Apply, Usable;
    if events == [] {
      StartFollows(cfg, maxPool);
    } else {
      var n := |events| - 1;
      LedgerFollowsStoring(cfg, maxPool, events[..n]);
      RunStep(cfg, maxPool, events[..n], events[n]);
      assert events[..n] + [events[n]] == events;
      ApplyFollows(cfg, Run(cfg, maxPool, events[..n]), events[n]);
    }
  }

  /** Two nodes that end up with the same blocks, however either got them, agree on every colour, on the canonical
      tip and on its order. They agree on the ledger too if the payments of that order cover one another, or if
      they hash alike and stored the blocks in the same order, and in any case their totals differ by what
      `HeldTotal` makes of the two storing orders. */
  lemma {:induction false} RunsConverge(
      cfg: Config, maxPool: nat, events: seq<Event>, cfg': Config, maxPool': nat, events': seq<Event>)
    requires Runnable(cfg, events) && Runnable(cfg', events') && cfg.k == cfg'.k
    requires Run(cfg, maxPool, events).store == Run(cfg', maxPool', events').store
    ensures var s, s' := Run(cfg, maxPool, events), Run(cfg', maxPool', events');
            && s.cache == s'.cache && ScoreFalls(s.cache)
            && CanonicalTip(s.cache).Some?
            && (Payable(Payments(s, CanonicalTip(s.cache).value)) ==> s.ledger == s'.ledger)
            && (StoringOrder(cfg, s) == StoringOrder(cfg', s') && cfg.hashOf == cfg'.hashOf ==> s.ledger == s'.ledger)
            && MapSum(s.ledger.balances) - MapSum(s'.ledger.balances) ==
               HeldTotal(cfg.hashOf, cfg.k, StoringOrder(cfg, s))
               - HeldTotal(cfg'.hashOf, cfg'.k, StoringOrder(cfg', s'))
  {
    hide Run, Inv, HashBinds, Usable, Payable, Payments, StoringOrder, Runnable, HeldTotal, HeldAfter, MapSum;
    var s, s' := Run(cfg, maxPool, events), Run(cfg', maxPool', events');
    StatesConverge(cfg, s, cfg', s');
    LedgerFollowsStoring(cfg, maxPool, events);
    LedgerFollowsStoring(cfg', maxPool', events');
  }

  // The account in closed form

  ghost function NetIssues(blocks: seq<VeloBlock>): int {
    if blocks == [] then 0 else NetIssues(blocks[..|blocks| - 1]) + NetIssue(blocks[|blocks| - 1])
  }

  /** `r` blocks of the order make up the last store that recomputes, the first block counting as one. */
  ghost predicate LastRecomputed(hashOf: VeloBlock -> Hash, k: nat, order: seq<VeloBlock>, r: nat) {
    && 1 <= r <= |order|
    && (r == 1 || Recomputes(StoreOf(hashOf, order[..r]), k))
    && forall m :: r < m <= |order| ==> !Recomputes(StoreOf(hashOf, order[..m]), k)
  }

  /** The money a storing order leaves is the canonical supply at its last prefix that recomputes and the net issue
      of every block stored after it. */
  lemma {:induction false} HeldTotalSplits(hashOf: VeloBlock -> Hash, k: nat, order: seq<VeloBlock>)
    returns (r: nat)
    requires order != []
    ensures LastRecomputed(hashOf, k, order, r)
    ensures HeldTotal(hashOf, k, order) ==
            (if r == 1 then 0 else CanonicalSupply(StoreOf(hashOf, order[..r]), k)) + NetIssues(order[r..])
  {
    hide StoreOf, CanonicalSupply, Recomputes, NetIssue;
    var n := |order| - 1;
    assert order[..|order|] == order && order[|order|..] == [];
    if n == 0 || Recomputes(StoreOf(hashOf, order), k) {
      r := |order|;
    } else {
      r := HeldTotalSplits(hashOf, k, order[..n]);
      assert forall m :: 0 <= m <= n ==> order[..n][..m] == order[..m];
      assert order[r..][..n - r] == order[..n][r..] && order[r..][n - r] == order[n];
    }
  }
}
