/** A run with two blocks at every height: what it mints passes the documented limit. */
module WideRun {
  import opened Types
  import opened Sequences
  import opened Sums
  import opened Dag
  import opened Colouring
  import opened ForkChoice
  import opened LinearOrder
  import opened Emission
  import opened LedgerRules
  import opened Merkle
  import opened Difficulty
  import opened Replay
  import opened Solvency
  import opened Cluster
  import opened Validation
  import opened NodeRules
  import opened Mining
  import opened Restart
  import opened Runs
  import opened Chain
  import opened SupplyBound
  import opened TableHash
  import opened Scenario
  import opened Retargeting

  /** The last block: two at each height up to 126,145,001. */
  const LAST: nat := 252_290_002
  const STAMP: u64 := 1_700_000_000

  function Level(i: nat): nat {
    (i + 1) / 2
  }

  /** Block 0, or both blocks of the level below. */
  function StrandParents(i: nat): seq<Hash>
    requires i >= 1
  {
    if i <= 2 then [0] else [2 * Level(i) - 3, 2 * Level(i) - 2]
  }

  /** The target after `n` blocks: from the third on every window is one second long. */
  function TargetAt(n: nat): Target {
    if n <= 2 then GENESIS_TARGET
    else
      HighHalfFits(TargetAt(n - 1)[..16]);
      Rebuild(NextHigh(FromBytes(TargetAt(n - 1)[..16]), 1, 3))
  }

  function StrandBlock(i: nat): VeloBlock
    requires i <= LAST
  {
    if i == 0 then FixedGenesisBlock(STAMP)
    else
      var (minerReward, devReward) := CalculateSubsidySplit(Level(i));
      VeloBlock(
        BlockHeader(STAMP, StrandParents(i), Zero, i, Level(i), TargetAt(i - 1)), [],
        1, minerReward, DEV_TREASURY_ADDRESS, devReward)
  }

  function Strands(): seq<VeloBlock> {
    seq(LAST + 1, i requires 0 <= i <= LAST => StrandBlock(i))
  }

  ghost function WideConfig(k: nat): Config {
    TableConfig(k, Strands())
  }

  lemma {:induction false} StrandsDiffer()
    ensures AllDifferent(Strands()) && Strands()[0] == FixedGenesisBlock(STAMP)
  {
    hide TargetAt, CalculateSubsidySplit;
    var known := Strands();
    forall i, j | 0 <= i < j < |known| ensures !SameIdentity(known[i], known[j]) {
      assert known[i].header.nonce == i && known[j].header.nonce == j;
    }
  }

  lemma {:induction false} WideConfigFits(k: nat)
    ensures var cfg := WideConfig(k);
            && Usable(cfg) && HashBinds(cfg) && cfg.k == k && cfg.genesis == FixedGenesisBlock(STAMP)
            && cfg.daa == DifficultyManager(1, 4)
            && (forall tx :: cfg.signatureOk(tx)) && (forall n :: cfg.clock(n) == STAMP)
            && forall i: nat | i <= LAST :: cfg.hashOf(StrandBlock(i)) == i
  {
    hide TableConfig, HashBinds, Usable, SameIdentity, StrandBlock;
    StrandsDiffer();
    TableConfigFits(k, Strands());
    forall i: nat | i <= LAST ensures WideConfig(k).hashOf(StrandBlock(i)) == i {
      assert Strands()[i] == StrandBlock(i);
    }
  }

  /** Any target with a tail this high is met by the table's hashes. */
  lemma {:induction false} TailOutweighs(t: seq<byte>)
    requires |t| >= 5 && forall i :: |t| - 5 <= i < |t| ==> t[i] >= 0x0f
    ensures FromBytes(t) >= LAST
  {
    var n := |t|;
    assert t[..n - 1][..n - 2] == t[..n - 2] && t[..n - 2][..n - 3] == t[..n - 3];
    assert t[..n - 3][..n - 4] == t[..n - 4] && t[..n - 4][..n - 5] == t[..n - 5];
    assert FromBytes(t[..n - 4]) >= 0x0f;
    assert FromBytes(t[..n - 3]) >= 0x0f0f;
    assert FromBytes(t[..n - 2]) >= 0x0f0f0f;
    assert FromBytes(t[..n - 1]) >= 0x0f0f0f0f;
  }

  lemma {:induction false} StrandsMeetTargets(i: nat, n: nat)
    requires i <= LAST
    ensures VerifyPow(i, TargetAt(n))
  {
    hide NextHigh, Rebuild, FromBytes, ToBytes;
    if n > 2 {
      HighHalfFits(TargetAt(n - 1)[..16]);
      var high := NextHigh(FromBytes(TargetAt(n - 1)[..16]), 1, 3);
      RebuildKeepsHigh(high);
      assert TargetAt(n) == ToBytes(high, 16) + MAX_TARGET[16..];
    }
    TailOutweighs(TargetAt(n));
  }

  // The graph

  ghost function WideStore(n: nat): Store
    requires n <= LAST
  {
    var all := UpTo(n + 1);
    map h | h in all :: StrandBlock(h)
  }

  lemma {:induction false} WideEntry(n: nat, i: nat)
    requires i <= n <= LAST
    ensures WideStore(n).Keys == UpTo(n + 1) == GraphOf(WideStore(n)).Keys && i in WideStore(n)
    ensures WideStore(n)[i] == StrandBlock(i)
    ensures GraphOf(WideStore(n))[i] == if i == 0 then [] else StrandParents(i)
  {
    hide TargetAt, CalculateSubsidySplit;
  }

  lemma {:induction false} WidePast(n: nat, i: nat)
    requires i <= n <= LAST
    ensures Past(GraphOf(WideStore(n)), i) == UpTo(if i == 0 then 0 else 2 * Level(i) - 1)
    decreases i
  {
    hide StrandBlock, WideStore, GraphOf;
    var g := GraphOf(WideStore(n));
    WideEntry(n, i);
    if i == 0 {
      WideEntry(n, i);
      BelowLeast(g, [], {});
    } else if i <= 2 {
      WidePast(n, 0);
      OneParentPast(g, 0);
    } else {
      var p, q := 2 * Level(i) - 3, 2 * Level(i) - 2;
      WidePast(n, p);
      WidePast(n, q);
      forall a ensures a in Past(g, i) <==> a in UpTo(2 * Level(i) - 1) {
        BelowStep(g, [p, q], a);
        assert p in [p, q] && q in [p, q];
      }
    }
  }

  /** Below the last level every block is a parent. */
  lemma {:induction false} LowerIsParent(n: nat, i: nat)
    requires i <= n <= LAST && Level(i) < Level(n)
    ensures i !in Tips(GraphOf(WideStore(n)))
  {
    hide StrandBlock, WideStore, GraphOf;
    var next := 2 * Level(i) + 1;
    WideEntry(n, next);
    assert i in StrandParents(next);
  }

  /** The canonical tip is one of the last level. */
  lemma {:induction false} WideTip(n: nat, k: nat, c: Cache, tip: Hash)
    requires 1 <= n <= LAST && Consistent(GraphOf(WideStore(n)), k, c) && CanonicalTip(c) == Some(tip)
    ensures 1 <= tip <= n && Level(tip) == Level(n)
  {
    hide WideStore, GraphOf;
    BestIsTip(GraphOf(WideStore(n)), k, c, tip);
    WideEntry(n, n);
    assert tip in UpTo(n + 1);
    if Level(tip) < Level(n) {
      LowerIsParent(n, tip);
    }
  }

  lemma {:induction false} StrandMints(i: nat)
    requires i <= LAST
    ensures Minted(StrandBlock(i)) == if i == 0 then 0 else Subsidy(Level(i))
    ensures CoinbaseOnly(StrandBlock(i)) && StrandBlock(i).header.timestamp == STAMP
    ensures StrandBlock(i).header.height == Level(i)
  {
    hide TargetAt, CalculateSubsidySplit;
  }

  lemma {:induction false} RootMints(n: nat)
    requires n <= LAST
    ensures 0 in WideStore(n) && Mints(WideStore(n))[0] == 0
  {
    hide Subsidy, TargetAt, CalculateSubsidySplit;
    var root: nat := 0;
    WideEntry(n, root);
    StrandMints(root);
    assert Mints(WideStore(n))[root] == Minted(StrandBlock(root));
  }

  lemma {:induction false} LevelMints(n: nat, h: nat)
    requires 1 <= h && 2 * h <= n <= LAST
    ensures 2 * h - 1 in WideStore(n) && 2 * h in WideStore(n)
    ensures Mints(WideStore(n))[2 * h - 1] == Subsidy(h) && Mints(WideStore(n))[2 * h] == Subsidy(h)
  {
    hide StrandBlock, Minted, WideStore, Subsidy;
    assert Level(2 * h - 1) == h && Level(2 * h) == h;
    WideEntry(n, 2 * h - 1);
    WideEntry(n, 2 * h);
    StrandMints(2 * h - 1);
    StrandMints(2 * h);
  }

  lemma {:induction false} SumTwo(s: set<Hash>, w: map<Hash, int>, p: Hash, q: Hash)
    requires s + {p} + {q} <= w.Keys && p !in s && q !in s && p != q
    ensures SetSum(s + {p} + {q}, w) == SetSum(s, w) + w[p] + w[q]
  {
    SumInsert(s, w, p);
    SumInsert(s + {p}, w, q);
  }

  /** Genesis and both blocks of every height up to `h` mint twice what these heights pay. */
  lemma {:induction false} WideMints(n: nat, h: nat)
    requires 2 * h <= n <= LAST
    ensures UpTo(2 * h + 1) <= WideStore(n).Keys
    ensures SetSum(UpTo(2 * h + 1), Mints(WideStore(n))) == 2 * Issuance(h)
  {
    hide StrandBlock, SetSum, Minted, WideStore, Subsidy, GraphOf, StrandParents;
    var m: map<Hash, int> := Mints(WideStore(n));
    WideEntry(n, 2 * h);
    if h == 0 {
      RootMints(n);
      SumNothing(m);
      SumInsert({}, m, 0);
      assert UpTo(1) == {} + {0};
    } else {
      WideMints(n, h - 1);
      LevelMints(n, h);
      var below: set<Hash>, p: Hash, q: Hash := UpTo(2 * (h - 1) + 1), 2 * h - 1, 2 * h;
      assert m[p] == Subsidy(h) && m[q] == Subsidy(h);
      assert UpTo(2 * h + 1) == below + {p} + {q};
      SumTwo(below, m, p, q);
    }
  }

  // The run

  lemma {:induction false} StampedBlocks(store: Store, order: seq<Hash>)
    requires forall h :: h in store ==> store[h].header.timestamp == STAMP
    ensures forall b :: b in BlocksOf(store, order) ==> b.header.timestamp == STAMP
    decreases |order|
  {
    if order != [] {
      StampedBlocks(store, order[1..]);
    }
  }

  lemma {:induction false} WidePastSize(n: nat, i: nat)
    requires 1 <= i <= n <= LAST
    ensures |Past(GraphOf(WideStore(n)), i)| + 1 == 2 * Level(i)
  {
    hide GraphOf, Past, WideStore;
    WidePast(n, i);
    UpToSize(2 * Level(i) - 1);
  }

  lemma {:induction false} WideOrderSize(n: nat, k: nat, c: Cache, tip: Hash)
    requires 1 <= n <= LAST && Consistent(GraphOf(WideStore(n)), k, c) && ScoreFalls(c)
    requires CanonicalTip(c) == Some(tip)
    ensures 1 <= tip <= n && tip in WideStore(n)
    ensures |BlocksOf(WideStore(n), LinearSort(c, tip))| == 2 * Level(n)
  {
    hide *;
    WideTip(n, k, c, tip);
    WideEntry(n, tip);
    WidePastSize(n, tip);
    OrderSize(WideStore(n), k, c, tip);
  }

  /** All timestamps being equal, each window from the third block on counts as one second. */
  lemma {:induction false} WideRetarget(n: nat, k: nat, c: Cache, tip: Hash)
    requires 1 <= n <= LAST && Consistent(GraphOf(WideStore(n)), k, c) && ScoreFalls(c)
    requires CanonicalTip(c) == Some(tip)
    ensures DifficultyManager(1, 4).CalculateNextTarget(
              BlocksOf(WideStore(n), LinearSort(c, tip)), TargetAt(n - 1)) == TargetAt(n)
  {
    hide Consistent, ScoreFalls, LinearSort, BlocksOf, NextHigh, Rebuild, FromBytes, StrandBlock;
    var store, m := WideStore(n), DifficultyManager(1, 4);
    var blocks := BlocksOf(store, LinearSort(c, tip));
    WideOrderSize(n, k, c, tip);
    forall h | h in store ensures store[h].header.timestamp == STAMP {
      StrandMints(h);
    }
    StampedBlocks(store, LinearSort(c, tip));
    if n > 2 {
      assert blocks[|blocks| - 4] in blocks && blocks[|blocks| - 1] in blocks;
      assert m.Elapsed(blocks) == 1 && m.ExpectedTime() == 3;
    }
  }

  lemma {:induction false} WideReplays(n: nat, k: nat, c: Cache, tip: Hash)
    requires 1 <= n <= LAST && Consistent(GraphOf(WideStore(n)), k, c) && ScoreFalls(c)
    requires CanonicalTip(c) == Some(tip)
    ensures RecomputeLedger(WideStore(n), c, tip).Ok?
    ensures MapSum(RecomputeLedger(WideStore(n), c, tip).value.balances) <= 83_238 * (n + 1)
  {
    hide ScoreFalls, LinearSort, BlocksOf, StrandBlock, CoinbaseOnly, ReplayFrom, MapSum;
    var store, order := WideStore(n), LinearSort(c, tip);
    WideOrderSize(n, k, c, tip);
    PastKnown(GraphOf(store), GraphOf(store)[tip]);
    ExactlyOnce(GraphOf(store), k, c, tip);
    BlocksOfAt(store, order);
    forall h | h in order ensures h in store && CoinbaseOnly(store[h]) {
      assert h in Elems(order);
      StrandMints(h);
    }
    EmptySum();
    CoinbaseReplays(store, order, EMPTY_LEDGER);
  }

  lemma {:induction false} EmptySum()
    ensures MapSum(EMPTY_LEDGER.balances) == 0
  {
  }

  /** A state after the first `n` blocks. */
  ghost predicate ShowsWide(k: nat, s: NodeState, n: nat) {
    && n <= LAST && Inv(WideConfig(k), s) && s.store == WideStore(n) && s.target == TargetAt(n)
    && s.pool.waitingOn == map[] && MapSum(s.ledger.balances) <= 83_238 * (n + 1)
  }

  lemma {:induction false} StrandShape(n: nat)
    requires n < LAST
    ensures var b := StrandBlock(n + 1);
            && b.transactions == [] && VerifyTransactionMerkleRoot(b) && b.header.timestamp == STAMP
            && b.header.difficultyTarget == TargetAt(n) && b.header.parents == StrandParents(n + 1)
            && b.header.height == Level(n + 1)
  {
    hide TargetAt, CalculateSubsidySplit;
    assert Ids([]) == [];
  }

  lemma {:induction false} StrandParentsBelow(n: nat, p: Hash)
    requires p in StrandParents(n + 1)
    ensures p <= n && Level(p) == Level(n + 1) - 1
  {
  }

  lemma {:induction false} StrandAcceptable(k: nat, s: NodeState, n: nat)
    requires n < LAST && ShowsWide(k, s, n)
    ensures Acceptable(WideConfig(k), s, StrandBlock(n + 1), WideConfig(k).clock(s.calls))
  {
    hide Inv, ApplyBlock, HashBinds, MapSum, Acceptable, VerifyPow, TargetAt, WideStore, CoinbaseOnly;
    hide StrandBlock, StrandParents, Level, WideConfig, Usable, FixedGenesisBlock, VerifyTransactionMerkleRoot;
    var cfg, b := WideConfig(k), StrandBlock(n + 1);
    WideConfigFits(k);
    WideEntry(n, n);
    StrandShape(n);
    StrandsMeetTargets(n + 1, n);
    StrandMints(n + 1);
    CoinbaseApplies(s.ledger, b);
    forall p | p in b.header.parents
      ensures p in s.store && s.store[p].header.height == Level(n + 1) - 1 && s.store[p].header.timestamp == STAMP
    {
      StrandParentsBelow(n, p);
      WideEntry(n, p);
      StrandMints(p);
    }
    LevelExists(n);
    LevelBlockAcceptable(cfg, s, b, STAMP);
  }

  lemma {:induction false} LevelExists(n: nat)
    ensures Level(n + 1) >= 1 && StrandParents(n + 1) != []
  {
  }

  lemma {:induction false} WideStoreNext(n: nat)
    requires n < LAST
    ensures WideStore(n)[n + 1 := StrandBlock(n + 1)] == WideStore(n + 1)
  {
    hide StrandBlock;
    var next := WideStore(n)[n + 1 := StrandBlock(n + 1)];
    assert next.Keys == WideStore(n + 1).Keys;
  }

  lemma {:induction false} WideStep(k: nat, s: NodeState, n: nat)
    requires n < LAST && ShowsWide(k, s, n)
    ensures ShowsWide(k, Ingest(WideConfig(k), s, StrandBlock(n + 1)), n + 1)
  {
    hide Inv, ApplyBlock, HashBinds, MapSum, Acceptable, TargetAt, WideStore, StrandBlock, WideConfig, Usable;
    hide RecomputeLedger, LinearSort, BlocksOf, Consistent, ScoreFalls, Placed, HistoryOk, GraphOf;
    hide GenesisHash, FixedGenesisBlock, Ingest, Elems;
    var cfg, b := WideConfig(k), StrandBlock(n + 1);
    var s' := Ingest(cfg, s, b);
    WideConfigFits(k);
    StrandAcceptable(k, s, n);
    ReceiveAdopts(cfg, s, b);
    WideStoreNext(n);
    InvParts(cfg, s');
    var tip := CanonicalTip(s'.cache).value;
    WideRetarget(n + 1, k, s'.cache, tip);
    WideReplays(n + 1, k, s'.cache, tip);
  }

  ghost function WideEvents(n: nat): seq<Event>
    requires n <= LAST
  {
    if n == 0 then [] else WideEvents(n - 1) + [Receive(StrandBlock(n))]
  }

  lemma {:induction false} WideStart(k: nat)
    requires Usable(WideConfig(k)) && HashBinds(WideConfig(k))
    ensures ShowsWide(k, Run(WideConfig(k), 0, []), 0)
  {
    hide Inv, HashBinds, WideConfig, MapSum, CalculateSubsidySplit;
    WideConfigFits(k);
    EmptySum();
    WideEntry(0, 0);
    assert StrandBlock(0) == FixedGenesisBlock(STAMP);
    assert WideStore(0) == map[0 := FixedGenesisBlock(STAMP)];
  }

  lemma {:induction false} WideRunShows(k: nat, n: nat)
    requires n <= LAST
    ensures Usable(WideConfig(k)) && HashBinds(WideConfig(k))
    ensures ShowsWide(k, Run(WideConfig(k), 0, WideEvents(n)), n)
    ensures forall e :: e in WideEvents(n) ==> e.Receive?
  {
    hide Inv, Usable, HashBinds, WideConfig, Ingest, StrandBlock, ShowsWide, Run;
    WideConfigFits(k);
    if n == 0 {
      WideStart(k);
    } else {
      WideRunShows(k, n - 1);
      RunStep(WideConfig(k), 0, WideEvents(n - 1), Receive(StrandBlock(n)));
      ShowsInv(k, Run(WideConfig(k), 0, WideEvents(n - 1)), n - 1);
      WideStep(k, Run(WideConfig(k), 0, WideEvents(n - 1)), n - 1);
    }
  }

  lemma {:induction false} ShowsInv(k: nat, s: NodeState, n: nat)
    requires ShowsWide(k, s, n)
    ensures Inv(WideConfig(k), s)
  {
  }

  /** Twice the schedule up to the last but one height, and one more block, is more than the documented supply. */
  lemma {:induction false} TwiceTheSchedule()
    ensures 2 * Issuance(Level(LAST) - 1) > 21_000_000 * 1_000_000
  {
    hide Issuance, EraReward;
    IssuanceClosedForm(1, 1_000);
    assert ErasTotal(1) == EraReward(0) by {
      assert ErasTotal(0) == 0;
    }
    FirstRewards();
  }

  lemma {:induction false} FirstRewards()
    ensures EraReward(0) == 83_238 && EraReward(1) == 41_619
  {
    assert ShiftRight(INITIAL_BLOCK_REWARD, 0) == 83_238;
  }

  lemma {:induction false} WideSupply(tip: Hash)
    requires 1 <= tip <= LAST && Level(tip) == Level(LAST)
    ensures var store := WideStore(LAST);
            && Past(GraphOf(store), tip) + {tip} <= store.Keys
            && Supply(store, Past(GraphOf(store), tip) + {tip}) > 21_000_000 * 1_000_000
  {
    hide SetSum, StrandBlock, WideStore, GraphOf, Minted, Issuance;
    var store := WideStore(LAST);
    var below: set<Hash> := UpTo(2 * (Level(LAST) - 1) + 1);
    var blocks := below + {tip};
    WideEntry(LAST, tip);
    WidePast(LAST, tip);
    WideMints(LAST, Level(LAST) - 1);
    SumInsert(below, Mints(store), tip);
    forall h | h in blocks ensures TransactionCounts(store)[h] == 0 {
      WideEntry(LAST, h);
      StrandMints(h);
    }
    SumZeroIff(blocks, TransactionCounts(store));
    TwiceTheSchedule();
  }

  /** For every k a node with the deployed difficulty parameters that receives two well-rewarded blocks at each
      height admits them all, recomputes its ledger from them, and ends with more than the documented 21,000,000
      tokens in circulation. */
  lemma {:induction false} WideDagExceedsLimit(k: nat)
    ensures exists cfg: Config, events: seq<Event> ::
      && cfg.k == k && cfg.daa == DifficultyManager(1, 4) && Usable(cfg) && HashBinds(cfg)
      && (forall e :: e in events ==> e.Receive?)
      && (var s := Run(cfg, 0, events);
          && ScoreFalls(s.cache) && CanonicalTip(s.cache).Some?
          && RecomputeLedger(s.store, s.cache, CanonicalTip(s.cache).value) == Ok(s.ledger)
          && MapSum(s.ledger.balances) > 21_000_000 * 1_000_000)
  {
    hide Inv, Usable, HashBinds, WideConfig, WideEvents, Run, RecomputeLedger, Supply, WideStore, GraphOf, MapSum;
    var cfg, events := WideConfig(k), WideEvents(LAST);
    WideConfigFits(k);
    WideRunShows(k, LAST);
    var s := Run(cfg, 0, events);
    InvParts(cfg, s);
    TipExists(cfg, s);
    var tip := CanonicalTip(s.cache).value;
    WideTip(LAST, k, s.cache, tip);
    WideReplays(LAST, k, s.cache, tip);
    LedgerIsRecomputed(cfg, s, tip);
    SupplyEquation(s.store, k, s.cache, tip);
    WideSupply(tip);
  }

  lemma {:induction false} LedgerIsRecomputed(cfg: Config, s: NodeState, tip: Hash)
    requires Inv(cfg, s) && CanonicalTip(s.cache) == Some(tip) && RecomputeLedger(s.store, s.cache, tip).Ok?
    ensures RecomputeLedger(s.store, s.cache, tip) == Ok(s.ledger)
  {
    hide RecomputeLedger;
    assert HoldsRecomputed(s.store, s.cache, s.ledger, tip);
  }

  // The target on the way

  lemma {:induction false} TargetHalf(n: nat)
    requires n >= 3
    ensures FromBytes(TargetAt(n - 1)[..16]) < TWO_TO_THE_128
    ensures FromBytes(TargetAt(n)[..16]) == NextHigh(FromBytes(TargetAt(n - 1)[..16]), 1, 3)
    ensures TargetAt(n)[16..] == MAX_TARGET[16..]
  {
    hide NextHigh, Rebuild, FromBytes, ToBytes;
    HighHalfFits(TargetAt(n - 1)[..16]);
    var high := NextHigh(FromBytes(TargetAt(n - 1)[..16]), 1, 3);
    RebuildKeepsHigh(high);
    assert TargetAt(n) == ToBytes(high, 16) + MAX_TARGET[16..];
  }

  lemma {:induction false} TargetWindows(m: nat, n: nat)
    requires m >= 2
    ensures FromBytes(TargetAt(m)[..16]) < TWO_TO_THE_128
    ensures FromBytes(TargetAt(m + n)[..16]) == FastWindows(FromBytes(TargetAt(m)[..16]), 3, n)
    decreases n
  {
    hide NextHigh, Rebuild, FromBytes, TargetAt;
    HighHalfFits(TargetAt(m)[..16]);
    if n > 0 {
      TargetHalf(m + 1);
      TargetWindows(m + 1, n - 1);
    }
  }

  /** After 130 blocks the node's target has lost its high half. */
  lemma {:induction false} WideRunSpends(k: nat)
    ensures Runnable(WideConfig(k), WideEvents(130)) && Spent(Run(WideConfig(k), 0, WideEvents(130)))
  {
    hide Inv, Usable, HashBinds, WideConfig, WideEvents, Run, TargetAt, WideStore, FromBytes, FastWindows;
    WideRunShows(k, 130);
    TargetWindows(2, 128);
    DeployedTargetsReachZero(TargetAt(2));
  }

  lemma {:induction false} FirstNumbers(ids: seq<Hash>)
    requires forall i :: 0 <= i < |ids| ==> ids[i] == i
    ensures NoDup(ids) && Elems(ids) == UpTo(|ids|)
  {
    forall x: Hash | x in UpTo(|ids|) ensures x in Elems(ids) {
      assert ids[x] == x;
    }
  }

  /** The blocks in the order they arrive are one of the orders the storage may yield them in. */
  lemma {:induction false} ArrivalIsByHeight(k: nat, n: nat)
    requires n <= LAST
    ensures StoredByHeight(WideConfig(k), WideStore(n), Strands()[..n + 1])
  {
    hide StrandBlock, WideConfig, WideStore, Elems, NoDup, UpTo;
    WideConfigFits(k);
    var blocks := Strands()[..n + 1];
    var ids := HashesOf(WideConfig(k), blocks);
    forall i: nat | i <= n
      ensures i in WideStore(n) && WideStore(n)[i] == blocks[i] && ids[i] == i && blocks[i].header.height == Level(i)
    {
      WideEntry(n, i);
      StrandMints(i);
    }
    WideEntry(n, n);
    FirstNumbers(ids);
  }

  /** Whatever order its storage yields, the third block comes last, being the highest. */
  lemma {:induction false} ThirdIsLast(k: nat, stored: seq<VeloBlock>)
    requires StoredByHeight(WideConfig(k), WideStore(3), stored)
    ensures stored != [] && stored[|stored| - 1] == StrandBlock(3)
  {
    hide StrandBlock, WideConfig, WideStore;
    WideConfigFits(k);
    var ids := HashesOf(WideConfig(k), stored);
    WideEntry(3, 3);
    assert 3 in Elems(ids);
    var j :| 0 <= j < |ids| && ids[j] == 3;
    var last := |ids| - 1;
    assert ids[last] in Elems(ids);
    WideEntry(3, ids[last]);
    StrandMints(3);
    StrandMints(ids[last]);
    assert stored[j].header.height <= stored[last].header.height;
  }

  /** For every k a run and a restart that reads its storage, in any order by height, after which the node's target is
      not the one it had last computed. */
  lemma {:induction false} RestartLosesTarget(k: nat, stored: seq<VeloBlock>, size: nat)
    ensures Runnable(WideConfig(k), WideEvents(3)) && Inv(WideConfig(k), Run(WideConfig(k), 0, WideEvents(3)))
    ensures StoredByHeight(WideConfig(k), WideStore(3), Strands()[..4])
    ensures var s := Run(WideConfig(k), 0, WideEvents(3));
            && s.store == WideStore(3)
            && (StoredByHeight(WideConfig(k), s.store, stored) ==>
                  Apply(WideConfig(k), s, Restart(stored, size)).target == GENESIS_TARGET != s.target)
  {
    hide Inv, Usable, HashBinds, WideConfig, WideEvents, Run, TargetAt, WideStore, StoredByHeight, StrandBlock;
    WideRunShows(k, 3);
    ArrivalIsByHeight(k, 3);
    TargetHalf(3);
    ThirdDeclares();
    if StoredByHeight(WideConfig(k), WideStore(3), stored) {
      ThirdIsLast(k, stored);
    }
  }

  lemma {:induction false} ThirdDeclares()
    ensures StrandBlock(3).header.difficultyTarget == GENESIS_TARGET
    ensures GENESIS_TARGET[16..] != MAX_TARGET[16..]
  {
    assert GENESIS_TARGET[16..][0] == 0x0f && MAX_TARGET[16..][0] == 0xff;
  }
}
