/** One node as a state machine: receiving blocks with orphan replay, and what every step keeps. */
module NodeRules {
  import opened Types
  import opened Sequences
  import opened Sums
  import opened Dag
  import opened Colouring
  import opened ForkChoice
  import opened LinearOrder
  import opened LedgerRules
  import opened Replay
  import opened Solvency
  import opened Orphans
  import opened Validation

  // Invariants

  function HashesOf(cfg: Config, blocks: seq<VeloBlock>): (r: seq<Hash>)
    ensures |r| == |blocks| && forall i :: 0 <= i < |blocks| ==> r[i] == cfg.hashOf(blocks[i])
  {
    if blocks == [] then []
    else HashesOf(cfg, blocks[..|blocks| - 1]) + [cfg.hashOf(blocks[|blocks| - 1])]
  }

  /** The history lists every stored block once, parents before children. */
  ghost predicate HistoryOk(cfg: Config, store: Store, history: seq<VeloBlock>) {
    var ids := HashesOf(cfg, history);
    && NoDup(ids) && Elems(ids) == store.Keys
    && ParentsFirst(GraphOf(store), ids)
    && forall i :: 0 <= i < |history| ==> store[ids[i]] == history[i]
  }

  /** Where a block's parent stands in the history. */
  lemma {:induction false} HistoryParent(
      cfg: Config, store: Store, history: seq<VeloBlock>, j: nat, p: Hash) returns (j': nat)
    requires HistoryOk(cfg, store, history) && j < |history| && p in history[j].header.parents
    ensures j' < j && cfg.hashOf(history[j']) == p && p in store && store[p] == history[j']
  {
    var ids := HashesOf(cfg, history);
    assert ids[j] in Elems(ids);
    assert p in ParentsOf(GraphOf(store), ids[j]);
    assert p in ids[..j];
    j' :| 0 <= j' < j && ids[j'] == p;
    assert ids[j'] in Elems(ids);
  }

  ghost predicate PlacedOk(cfg: Config, store: Store, h: Hash)
    requires h in store
  {
    var b := store[h];
    && cfg.hashOf(b) == h && WellRewarded(b)
    && (forall p :: p in b.header.parents ==> p in store)
    && (b.header.parents == [] ==> b == cfg.genesis)
    && (b.header.parents != [] ==> b.header.height == MaxParentHeight(b.header.parents, store) + 1)
  }

  /** Stored under its hash and well rewarded; only the genesis block has no parents; heights are one above the
      tallest parent. */
  ghost predicate Placed(cfg: Config, store: Store) {
    forall h {:trigger PlacedOk(cfg, store, h)} :: h in store ==> PlacedOk(cfg, store, h)
  }

  ghost predicate HoldsRecomputed(store: Store, cache: Cache, ledger: Ledger, tip: Hash)
    requires ScoreFalls(cache)
  {
    var replayed := RecomputeLedger(store, cache, tip);
    replayed.Ok? ==> ledger == replayed.value
  }

  /** The ledger is the canonical tip's recomputed one whenever that exists. */
  ghost predicate LedgerIsCanonical(store: Store, cache: Cache, ledger: Ledger)
    requires ScoreFalls(cache)
  {
    forall tip {:trigger HoldsRecomputed(store, cache, ledger, tip)} ::
      CanonicalTip(cache) == Some(tip) ==> HoldsRecomputed(store, cache, ledger, tip)
  }

  ghost predicate DagInv(cfg: Config, store: Store, cache: Cache, history: seq<VeloBlock>, ledger: Ledger) {
    && Consistent(GraphOf(store), cfg.k, cache)
    && GenesisHash(cfg) in store && store[GenesisHash(cfg)] == cfg.genesis
    && Placed(cfg, store)
    && HistoryOk(cfg, store, history)
    && ScoreFalls(cache) && LedgerIsCanonical(store, cache, ledger)
  }

  ghost predicate Inv(cfg: Config, s: NodeState) {
    Usable(cfg) && DagInv(cfg, s.store, s.cache, s.history, s.ledger) && PoolValid(s.pool)
  }

  /** Counting a call changes nothing an invariant speaks of. */
  function Tick(s: NodeState): NodeState {
    s.(calls := s.calls + 1)
  }

  lemma {:induction false} InvParts(cfg: Config, s: NodeState)
    requires Inv(cfg, s)
    ensures Usable(cfg) && PoolValid(s.pool) && Consistent(GraphOf(s.store), cfg.k, s.cache) && ScoreFalls(s.cache)
    ensures Placed(cfg, s.store) && HistoryOk(cfg, s.store, s.history)
    ensures GenesisHash(cfg) in s.store && s.store[GenesisHash(cfg)] == cfg.genesis
  {
  }

  lemma {:induction false} TickKeepsInv(cfg: Config, s: NodeState)
    requires Inv(cfg, s)
    ensures Inv(cfg, Tick(s)) && PoolValid(s.pool)
  {
  }

  // Storing a block

  /** Colours and stores a block, then takes ledger and target from the new canonical order. `applied` is the
      ledger with the block applied to it, kept only when the canonical replay fails. */
  ghost function Extend(cfg: Config, s: NodeState, b: VeloBlock, applied: Ledger): NodeState
    requires Inv(cfg, s) && Insertable(GraphOf(s.store), cfg.hashOf(b), b.header.parents)
  {
    var hash := cfg.hashOf(b);
    var data := Step(GraphOf(s.store), cfg.k, b.header.parents, s.cache);
    var store, cache := s.store[hash := b], s.cache[hash := data];
    ExtendKeepsConsistent(s.store, cfg.k, s.cache, hash, b);
    var tip := CanonicalTip(cache);
    var canonical := if tip.Some? then tip.value else hash;
    var replayed := RecomputeLedger(store, cache, canonical);
    s.(store := store,
       cache := cache,
       history := s.history + [b],
       ledger := if replayed.Ok? then replayed.value else applied,
       target := cfg.daa.CalculateNextTarget(BlocksOf(store, LinearSort(cache, canonical)), s.target))
  }

  lemma {:induction false} ExtendKeepsConsistent(store: Store, k: nat, c: Cache, hash: Hash, b: VeloBlock)
    requires Consistent(GraphOf(store), k, c) && Insertable(GraphOf(store), hash, b.header.parents)
    ensures var data := Step(GraphOf(store), k, b.header.parents, c);
            Consistent(GraphOf(store[hash := b]), k, c[hash := data]) && ScoreFalls(c[hash := data])
  {
    InsertKeepsConsistent(GraphOf(store), k, c, hash, b.header.parents);
    GraphOfInsert(store, hash, b);
    ConsistentFalls(GraphOf(store[hash := b]), k,
                    c[hash := Step(GraphOf(store), k, b.header.parents, c)]);
  }

  lemma {:induction false} MaxParentHeightStable(parents: seq<Hash>, store: Store, store': Store)
    requires parents != [] && forall p :: p in parents ==> p in store && p in store' && store[p] == store'[p]
    ensures MaxParentHeight(parents, store) == MaxParentHeight(parents, store')
  {
    var n := |parents| - 1;
    if n > 0 {
      MaxParentHeightStable(parents[..n], store, store');
    }
  }

  lemma {:induction false} ExtendKeepsPlaced(cfg: Config, store: Store, b: VeloBlock)
    requires Placed(cfg, store) && cfg.hashOf(b) !in store && WellRewarded(b)
    requires b.header.parents != [] && forall p :: p in b.header.parents ==> p in store
    requires b.header.height == MaxParentHeight(b.header.parents, store) + 1
    ensures Placed(cfg, store[cfg.hashOf(b) := b])
  {
    hide WellRewarded;
    var store' := store[cfg.hashOf(b) := b];
    forall h | h in store' ensures PlacedOk(cfg, store', h) {
      assert h in store ==> PlacedOk(cfg, store, h);
      if store'[h].header.parents != [] {
        MaxParentHeightStable(store'[h].header.parents, store, store');
      }
    }
  }

  lemma {:induction false} HashesSnoc(cfg: Config, blocks: seq<VeloBlock>, b: VeloBlock)
    ensures HashesOf(cfg, blocks + [b]) == HashesOf(cfg, blocks) + [cfg.hashOf(b)]
  {
    assert (blocks + [b])[..|blocks|] == blocks;
  }

  lemma {:induction false} ParentsFirstSnoc(g: Graph, ids: seq<Hash>, hash: Hash, ps: seq<Hash>)
    requires ParentsFirst(g, ids) && Elems(ids) == g.Keys && hash !in g && Elems(ps) <= g.Keys
    ensures ParentsFirst(g[hash := ps], ids + [hash])
  {
    var ids' := ids + [hash];
    forall j, p | 0 <= j < |ids'| && p in ParentsOf(g[hash := ps], ids'[j]) ensures p in ids'[..j] {
      if j < |ids| {
        assert ids[j] in Elems(ids);
        assert p in ParentsOf(g, ids[j]);
        assert ids'[..j] == ids[..j];
      } else {
        assert p in Elems(ps);
        assert ids'[..j] == ids;
      }
    }
  }

  lemma {:induction false} ExtendKeepsHistory(cfg: Config, store: Store, history: seq<VeloBlock>, b: VeloBlock)
    requires HistoryOk(cfg, store, history) && cfg.hashOf(b) !in store
    requires forall p :: p in b.header.parents ==> p in store
    ensures HistoryOk(cfg, store[cfg.hashOf(b) := b], history + [b])
  {
    var hash := cfg.hashOf(b);
    var ids := HashesOf(cfg, history);
    HashesSnoc(cfg, history, b);
    assert hash !in Elems(ids);
    NoDupSnoc(ids, hash);
    ParentsFirstSnoc(GraphOf(store), ids, hash, b.header.parents);
    GraphOfInsert(store, hash, b);
    forall i | 0 <= i < |history| ensures store[hash := b][ids[i]] == history[i] {
      assert ids[i] in Elems(ids);
    }
  }

  lemma {:induction false} ExtendKeepsInv(cfg: Config, s: NodeState, b: VeloBlock, applied: Ledger)
    requires Inv(cfg, s) && Insertable(GraphOf(s.store), cfg.hashOf(b), b.header.parents)
    requires b.header.parents != [] && b.header.height == MaxParentHeight(b.header.parents, s.store) + 1
    requires WellRewarded(b)
    ensures Inv(cfg, Extend(cfg, s, b, applied))
  {
    hide WellRewarded;
    var hash := cfg.hashOf(b);
    ExtendKeepsConsistent(s.store, cfg.k, s.cache, hash, b);
    ExtendKeepsPlaced(cfg, s.store, b);
    ExtendKeepsHistory(cfg, s.store, s.history, b);
  }

  lemma {:induction false} ExtendKeepsPool(cfg: Config, s: NodeState, b: VeloBlock, applied: Ledger)
    requires Inv(cfg, s) && Insertable(GraphOf(s.store), cfg.hashOf(b), b.header.parents)
    ensures Extend(cfg, s, b, applied).pool == s.pool
  {
  }

  lemma {:induction false} OrderIsWellRewarded(cfg: Config, s: NodeState, tip: Hash)
    requires Inv(cfg, s) && tip in s.store
    ensures ScoreFalls(s.cache) && AllWellRewarded(s.store, LinearSort(s.cache, tip))
    ensures Past(GraphOf(s.store), tip) + {tip} <= s.store.Keys
  {
    hide WellRewarded;
    InvParts(cfg, s);
    PastKnown(GraphOf(s.store), GraphOf(s.store)[tip]);
    ExactlyOnce(GraphOf(s.store), cfg.k, s.cache, tip);
    var order := LinearSort(s.cache, tip);
    forall h | h in order ensures h in s.store && WellRewarded(s.store[h]) {
      assert h in Elems(order);
      assert PlacedOk(cfg, s.store, h);
    }
  }

  /** The payments of the canonical replay from `tip`. */
  ghost function Payments(s: NodeState, tip: Hash): seq<Entry>
    requires ScoreFalls(s.cache)
  {
    Entries(s.store, LinearSort(s.cache, tip))
  }

  /** In a reachable state a tip can be recomputed exactly when the payments of its linear order cover one
      another and fit 64 bits; while the subsidies fit, coverage alone decides. */
  lemma {:induction false} RecomputesIffPayable(cfg: Config, s: NodeState, tip: Hash)
    requires Inv(cfg, s) && tip in s.store
    ensures RecomputeLedger(s.store, s.cache, tip).Ok? <==> Payable(Payments(s, tip))
    ensures Past(GraphOf(s.store), tip) + {tip} <= s.store.Keys
    ensures SetSum(Past(GraphOf(s.store), tip) + {tip}, Mints(s.store)) < TWO_TO_THE_64 ==>
              (RecomputeLedger(s.store, s.cache, tip).Ok? <==> Solvent(Payments(s, tip)))
  {
    hide RecomputeLedger, Payable, Solvent, AllWellRewarded, SetSum, LinearSort, Entries;
    OrderIsWellRewarded(cfg, s, tip);
    RecomputesIff(s.store, s.cache, tip);
    var blocks := Past(GraphOf(s.store), tip) + {tip};
    if SetSum(blocks, Mints(s.store)) < TWO_TO_THE_64 {
      RecomputesIffSolvent(s.store, cfg.k, s.cache, tip, blocks);
    }
  }

  // Receiving a block

  function Note(s: NodeState, b: VeloBlock, outcome: Outcome): NodeState {
    s.(journal := s.journal + [(b, outcome)])
  }

  /** Buffers an orphan, or drops it when the pool is full. */
  function Buffer(s: NodeState, parent: Hash, b: VeloBlock): NodeState {
    var s' := s.(pool := PoolInsert(s.pool, parent, b));
    if s.pool.currentSize >= s.pool.maxSize then Note(s', b, PoolFull) else s'
  }

  /** An admitted block is stored and what waited for it is taken out of the pool. */
  ghost function Accept(cfg: Config, s: NodeState, b: VeloBlock, now: u64): (r: (NodeState, seq<VeloBlock>))
    requires Inv(cfg, s) && Check(cfg, s, b, now) == Admit
    ensures Inv(cfg, r.0)
    ensures r.0.pool.currentSize + |r.1| == s.pool.currentSize && r.0.pool.maxSize == s.pool.maxSize
  {
    hide Check, ApplyBlock, Extend, WellRewarded;
    AdmittedIsPlaced(cfg, s, b, now);
    AppliedIsWellRewarded(s.ledger, b);
    var applied := ApplyBlock(s.ledger, b).value;
    ExtendKeepsInv(cfg, s, b, applied);
    ExtendKeepsPool(cfg, s, b, applied);
    var s1 := Note(Extend(cfg, s, b, applied), b, Accepted);
    TakeKeepsPool(s1.pool, cfg.hashOf(b));
    var (pool, ready) := PoolTake(s1.pool, cfg.hashOf(b));
    (s1.(pool := pool), ready)
  }

  /** Checks a block and stores, refuses or buffers it; a stored block replays the orphans it unblocks through
      this same function. The pool size bounds the recursion: a call adds at most one block to it, and a
      replay starts with all of its blocks taken out. */
  ghost function Ingest(cfg: Config, s: NodeState, b: VeloBlock): (r: NodeState)
    requires Inv(cfg, s)
    ensures Inv(cfg, r)
    ensures r.pool.currentSize <= s.pool.currentSize + 1 && r.pool.maxSize == s.pool.maxSize
    decreases s.pool.currentSize, 1, 0
  {
    var now := cfg.clock(s.calls);
    var s := Tick(s);
    match Check(cfg, s, b, now)
    case AlreadyKnown => Note(s, b, Known)
    case Refuse(reason) => Note(s, b, Rejected(reason))
    case MissingParent(parent) =>
      InsertKeepsPool(s.pool, parent, b);
      Buffer(s, parent, b)
    case Admit =>
      var (s', ready) := Accept(cfg, s, b, now);
      ReplayOrphans(cfg, s', ready)
  }

  ghost function ReplayOrphans(cfg: Config, s: NodeState, ready: seq<VeloBlock>): (r: NodeState)
    requires Inv(cfg, s) && s.pool.currentSize + |ready| <= s.pool.maxSize
    ensures Inv(cfg, r)
    ensures r.pool.currentSize <= s.pool.currentSize + |ready| && r.pool.maxSize == s.pool.maxSize
    decreases s.pool.currentSize + |ready|, 0, |ready|
  {
    if ready == [] then s else ReplayOrphans(cfg, Ingest(cfg, s, ready[0]), ready[1..])
  }
}
