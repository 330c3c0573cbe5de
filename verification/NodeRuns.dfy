/** What receiving a block does to everything in hand, and what it keeps: orphans, timestamps, heights. */
module NodeRuns {
  import opened Types
  import opened Dag
  import opened LedgerRules
  import opened Replay
  import opened Orphans
  import opened Validation
  import opened NodeRules

  // Every block handed in is accounted for

  ghost function Finished(journal: seq<(VeloBlock, Outcome)>): multiset<VeloBlock> {
    multiset(seq(|journal|, i requires 0 <= i < |journal| => journal[i].0))
  }

  lemma {:induction false} FinishedSnoc(journal: seq<(VeloBlock, Outcome)>, b: VeloBlock, outcome: Outcome)
    ensures Finished(journal + [(b, outcome)]) == Finished(journal) + multiset{b}
  {
    var blocks := seq(|journal|, i requires 0 <= i < |journal| => journal[i].0);
    var after := journal + [(b, outcome)];
    assert seq(|after|, i requires 0 <= i < |after| => after[i].0) == blocks + [b];
  }

  ghost function InHand(s: NodeState): multiset<VeloBlock> {
    Buffered(s.pool) + Finished(s.journal)
  }

  /** The journal grew, and nothing in the new part was dropped for capacity. */
  ghost predicate NothingDropped(s: NodeState, s': NodeState) {
    s.journal <= s'.journal && forall i :: |s.journal| <= i < |s'.journal| ==> s'.journal[i].1 != PoolFull
  }

  lemma {:induction false} NoteAccounts(s: NodeState, b: VeloBlock, outcome: Outcome)
    ensures InHand(Note(s, b, outcome)) == InHand(s) + multiset{b}
    ensures outcome != PoolFull ==> NothingDropped(s, Note(s, b, outcome))
  {
    FinishedSnoc(s.journal, b, outcome);
  }

  lemma {:induction false} BufferAccounts(s: NodeState, parent: Hash, b: VeloBlock)
    requires PoolValid(s.pool)
    ensures InHand(Buffer(s, parent, b)) == InHand(s) + multiset{b}
    ensures s.pool.currentSize < s.pool.maxSize ==> NothingDropped(s, Buffer(s, parent, b))
  {
    InsertKeepsPool(s.pool, parent, b);
    NoteAccounts(s, b, PoolFull);
  }

  lemma {:induction false} DroppedTrans(s: NodeState, s1: NodeState, s2: NodeState)
    requires NothingDropped(s, s1) && NothingDropped(s1, s2)
    ensures NothingDropped(s, s2)
  {
    forall i | |s.journal| <= i < |s2.journal| ensures s2.journal[i].1 != PoolFull {
      assert i < |s1.journal| ==> s2.journal[i] == s1.journal[i];
    }
  }

  /** A received block, together with everything buffered, ends up buffered or finished, exactly once each. As
      long as the pool is not full when the call is made nothing is dropped for capacity, no matter how far the
      replay of orphans reaches. */
  lemma {:induction false} IngestAccounts(cfg: Config, s: NodeState, b: VeloBlock)
    requires Inv(cfg, s)
    ensures InHand(Ingest(cfg, s, b)) == InHand(s) + multiset{b}
    ensures s.pool.currentSize < s.pool.maxSize ==> NothingDropped(s, Ingest(cfg, s, b))
    decreases s.pool.currentSize, 1, 0
  {
    hide Inv, Check, Accept;
    var now := cfg.clock(s.calls);
    var s0 := Tick(s);
    TickKeepsInv(cfg, s);
    assert InHand(s0) == InHand(s);
    match Check(cfg, s0, b, now)
    case AlreadyKnown => NoteAccounts(s0, b, Known);
    case Refuse(reason) => NoteAccounts(s0, b, Rejected(reason));
    case MissingParent(parent) => BufferAccounts(s0, parent, b);
    case Admit =>
      var (s1, ready) := Accept(cfg, s0, b, now);
      AcceptAccounts(cfg, s0, b, now);
      ReplayAccounts(cfg, s1, ready);
      DroppedTrans(s, s1, ReplayOrphans(cfg, s1, ready));
  }

  lemma {:induction false} AcceptAccounts(cfg: Config, s: NodeState, b: VeloBlock, now: u64)
    requires Inv(cfg, s) && Check(cfg, s, b, now) == Admit
    ensures var (s', ready) := Accept(cfg, s, b, now);
            InHand(s') + multiset(ready) == InHand(s) + multiset{b} && NothingDropped(s, s')
  {
    TakeKeepsPool(s.pool, cfg.hashOf(b));
    NoteAccounts(s, b, Accepted);
  }

  /** Replaying orphans never drops one for capacity: each was just taken out of the pool. */
  lemma {:induction false} ReplayAccounts(cfg: Config, s: NodeState, ready: seq<VeloBlock>)
    requires Inv(cfg, s) && s.pool.currentSize + |ready| <= s.pool.maxSize
    ensures InHand(ReplayOrphans(cfg, s, ready)) == InHand(s) + multiset(ready)
    ensures NothingDropped(s, ReplayOrphans(cfg, s, ready))
    decreases s.pool.currentSize + |ready|, 0, |ready|
  {
    hide Inv, Check, Accept;
    if ready == [] {
    } else {
      IngestAccounts(cfg, s, ready[0]);
      ReplayAccounts(cfg, Ingest(cfg, s, ready[0]), ready[1..]);
      DroppedTrans(s, Ingest(cfg, s, ready[0]), ReplayOrphans(cfg, s, ready));
      MultisetCons(ready[0], ready[1..]);
      assert ready == [ready[0]] + ready[1..];
    }
  }

  // What runs of received blocks keep

  ghost predicate TimesOrdered(store: Store) {
    forall h, p :: h in store && p in store[h].header.parents && p in store ==>
      store[p].header.timestamp <= store[h].header.timestamp
  }

  /** Nobody waits for a stored block, and everybody waits for one of its own parents. */
  ghost predicate WaitersWait(store: Store, p: Pool) {
    forall parent :: parent in p.waitingOn ==>
      parent !in store && forall b :: b in p.waitingOn[parent] ==> parent in b.header.parents
  }

  ghost predicate GossipInv(s: NodeState) {
    TimesOrdered(s.store) && WaitersWait(s.store, s.pool)
  }

  /** The store and the history only grow. */
  ghost predicate Grows(s: NodeState, s': NodeState) {
    && s.history <= s'.history
    && forall h :: h in s.store ==> h in s'.store && s'.store[h] == s.store[h]
  }

  lemma {:induction false} IngestKeepsGossip(cfg: Config, s: NodeState, b: VeloBlock)
    requires Inv(cfg, s) && GossipInv(s)
    ensures GossipInv(Ingest(cfg, s, b)) && Grows(s, Ingest(cfg, s, b))
    decreases s.pool.currentSize, 1, 0
  {
    hide Inv, Check, Accept;
    var now := cfg.clock(s.calls);
    var s0 := Tick(s);
    TickKeepsInv(cfg, s);
    match Check(cfg, s0, b, now)
    case AlreadyKnown =>
    case Refuse(_) =>
    case MissingParent(parent) =>
      MissingIsUnknown(cfg, s0, b, now);
      BufferKeepsGossip(s0, parent, b);
    case Admit =>
      var (s1, ready) := Accept(cfg, s0, b, now);
      AcceptKeepsGossip(cfg, s0, b, now);
      ReplayKeepsGossip(cfg, s1, ready);
  }

  lemma {:induction false} BufferKeepsGossip(s: NodeState, parent: Hash, b: VeloBlock)
    requires GossipInv(s) && parent !in s.store && parent in b.header.parents
    ensures GossipInv(Buffer(s, parent, b)) && Grows(s, Buffer(s, parent, b))
  {
  }

  lemma {:induction false} TimesExtend(store: Store, hash: Hash, b: VeloBlock)
    requires TimesOrdered(store) && Closed(GraphOf(store)) && hash !in store
    requires forall p :: p in b.header.parents ==>
      p in store && store[p].header.timestamp <= b.header.timestamp
    ensures TimesOrdered(store[hash := b])
  {
    var store' := store[hash := b];
    forall h, p | h in store' && p in store'[h].header.parents && p in store'
      ensures store'[p].header.timestamp <= store'[h].header.timestamp
    {
      if h != hash {
        assert h in GraphOf(store) && p in GraphOf(store)[h];
        assert p in GraphOf(store);
        assert p in store && p != hash;
      }
    }
  }

  lemma {:induction false} AcceptKeepsGossip(cfg: Config, s: NodeState, b: VeloBlock, now: u64)
    requires Inv(cfg, s) && GossipInv(s) && Check(cfg, s, b, now) == Admit
    ensures var s' := Accept(cfg, s, b, now).0; GossipInv(s') && Grows(s, s')
  {
    var hash := cfg.hashOf(b);
    AdmittedIsPlaced(cfg, s, b, now);
    TimesExtend(s.store, hash, b);
    var s' := Accept(cfg, s, b, now).0;
    assert s'.store == s.store[hash := b] && s'.history == s.history + [b];
    assert s'.pool == PoolTake(s.pool, hash).0;
  }

  lemma {:induction false} ReplayKeepsGossip(cfg: Config, s: NodeState, ready: seq<VeloBlock>)
    requires Inv(cfg, s) && GossipInv(s) && s.pool.currentSize + |ready| <= s.pool.maxSize
    ensures GossipInv(ReplayOrphans(cfg, s, ready)) && Grows(s, ReplayOrphans(cfg, s, ready))
    decreases s.pool.currentSize + |ready|, 0, |ready|
  {
    hide Inv, Check, Accept;
    if ready == [] {
    } else {
      IngestKeepsGossip(cfg, s, ready[0]);
      ReplayKeepsGossip(cfg, Ingest(cfg, s, ready[0]), ready[1..]);
    }
  }

  // The shape of the store

  /** Paths cost height: a block n steps down is at least n lower. */
  lemma {:induction false} PathBound(cfg: Config, store: Store, n: nat, h: Hash, a: Hash)
    requires Placed(cfg, store) && h in store && Reach(GraphOf(store), n, h, a)
    ensures a in store && store[a].header.height + n <= store[h].header.height
  {
    assert PlacedOk(cfg, store, h);
    if n > 0 {
      var p :| p in ParentsOf(GraphOf(store), h) && Reach(GraphOf(store), n - 1, p, a);
      PathBound(cfg, store, n - 1, p, a);
    }
  }

  lemma {:induction false} PathToGenesis(cfg: Config, store: Store, h: Hash)
    requires Usable(cfg) && Placed(cfg, store) && h in store
    ensures Reach(GraphOf(store), store[h].header.height, h, GenesisHash(cfg))
    decreases store[h].header.height
  {
    assert PlacedOk(cfg, store, h);
    var parents := store[h].header.parents;
    if parents != [] {
      var p := TallestParent(parents, store);
      PathToGenesis(cfg, store, p);
      assert p in ParentsOf(GraphOf(store), h);
    }
  }

  /** A block's height is the length of its longest path to the genesis block. */
  lemma {:induction false} HeightIsLongestPath(cfg: Config, s: NodeState, h: Hash)
    requires Inv(cfg, s) && h in s.store
    ensures Reach(GraphOf(s.store), s.store[h].header.height, h, GenesisHash(cfg))
    ensures forall n: nat, a :: Reach(GraphOf(s.store), n, h, a) ==> n <= s.store[h].header.height
  {
    PathToGenesis(cfg, s.store, h);
    forall n: nat, a | Reach(GraphOf(s.store), n, h, a) ensures n <= s.store[h].header.height {
      PathBound(cfg, s.store, n, h, a);
    }
  }

  /** The genesis block is the only one without parents and the only one at height 0. */
  lemma {:induction false} OnlyGenesis(cfg: Config, s: NodeState, h: Hash)
    requires Inv(cfg, s) && h in s.store
    ensures s.store[h].header.parents == [] <==> h == GenesisHash(cfg)
    ensures s.store[h].header.height == 0 <==> h == GenesisHash(cfg)
  {
    var g := GenesisHash(cfg);
    assert PlacedOk(cfg, s.store, h) && PlacedOk(cfg, s.store, g);
  }

  lemma {:induction false} ParentLower(cfg: Config, s: NodeState, h: Hash, p: Hash)
    requires Inv(cfg, s) && h in s.store && p in s.store[h].header.parents
    ensures p in s.store && s.store[p].header.height < s.store[h].header.height
  {
    assert PlacedOk(cfg, s.store, h);
  }

  /** Timestamps never decrease from an ancestor to a descendant. */
  lemma {:induction false} TimesOrderedDeep(store: Store, n: nat, h: Hash, a: Hash)
    requires TimesOrdered(store) && Closed(GraphOf(store)) && h in store && Reach(GraphOf(store), n, h, a)
    ensures a in store && store[a].header.timestamp <= store[h].header.timestamp
  {
    if n > 0 {
      var g := GraphOf(store);
      var p :| p in ParentsOf(g, h) && Reach(g, n - 1, p, a);
      assert h in g && p in g[h] && p in g;
      TimesOrderedDeep(store, n - 1, p, a);
    }
  }
}
