/** What happens to each single block at its turn: on arrival, and when an orphan is replayed. */
module Turns {
  import opened Types
  import opened Dag
  import opened ForkChoice
  import opened LedgerRules
  import opened Replay
  import opened Orphans
  import opened Validation
  import opened NodeRules
  import opened NodeRuns
  import opened Mining
  import opened Restart
  import opened Runs

  ghost predicate Holds(cfg: Config, s: NodeState, b: VeloBlock) {
    cfg.hashOf(b) in s.store && s.store[cfg.hashOf(b)] == b
  }

  ghost predicate EntryHonest(cfg: Config, s: NodeState, b: VeloBlock, outcome: Outcome) {
    && (outcome == Known ==> cfg.hashOf(b) in s.store)
    && (outcome == Accepted || outcome == Mined ==> Holds(cfg, s, b))
  }

  /** What the journal calls known is stored, and what it calls accepted or mined is stored as it came. */
  ghost predicate JournalHonest(cfg: Config, s: NodeState) {
    forall i :: 0 <= i < |s.journal| ==> EntryHonest(cfg, s, s.journal[i].0, s.journal[i].1)
  }

  lemma {:induction false} GrowthKeepsHonest(cfg: Config, s: NodeState, s': NodeState)
    requires JournalHonest(cfg, s) && Grows(s, s') && s'.journal == s.journal
    ensures JournalHonest(cfg, s')
  {
    forall i | 0 <= i < |s'.journal| ensures EntryHonest(cfg, s', s'.journal[i].0, s'.journal[i].1) {
      assert EntryHonest(cfg, s, s.journal[i].0, s.journal[i].1);
    }
  }

  lemma {:induction false} NoteKeepsHonest(cfg: Config, s: NodeState, b: VeloBlock, outcome: Outcome)
    requires JournalHonest(cfg, s) && EntryHonest(cfg, s, b, outcome)
    ensures JournalHonest(cfg, Note(s, b, outcome)) && Grows(s, Note(s, b, outcome))
  {
    var s' := Note(s, b, outcome);
    forall i | 0 <= i < |s'.journal| ensures EntryHonest(cfg, s', s'.journal[i].0, s'.journal[i].1) {
      assert i < |s.journal| ==> EntryHonest(cfg, s, s.journal[i].0, s.journal[i].1);
    }
  }

  lemma {:induction false} ExtendHonest(cfg: Config, s: NodeState, b: VeloBlock, applied: Ledger, outcome: Outcome)
    requires Inv(cfg, s) && Insertable(GraphOf(s.store), cfg.hashOf(b), b.header.parents) && JournalHonest(cfg, s)
    ensures var s' := Note(Extend(cfg, s, b, applied), b, outcome);
            Grows(s, s') && Holds(cfg, s', b) && (outcome == Accepted || outcome == Mined ==> JournalHonest(cfg, s'))
  {
    hide Inv, RecomputeLedger, EntryHonest;
    var s1 := Extend(cfg, s, b, applied);
    GrowthKeepsHonest(cfg, s, s1);
    if outcome == Accepted || outcome == Mined {
      AdoptedEntry(cfg, s1, b, outcome);
      NoteKeepsHonest(cfg, s1, b, outcome);
    }
  }

  lemma {:induction false} AdoptedEntry(cfg: Config, s: NodeState, b: VeloBlock, outcome: Outcome)
    requires Holds(cfg, s, b)
    ensures EntryHonest(cfg, s, b, outcome)
  {
  }

  lemma {:induction false} AcceptHonest(cfg: Config, s: NodeState, b: VeloBlock, now: u64)
    requires Inv(cfg, s) && JournalHonest(cfg, s) && Check(cfg, s, b, now) == Admit
    ensures var s' := Accept(cfg, s, b, now).0; JournalHonest(cfg, s') && Grows(s, s') && Holds(cfg, s', b)
  {
    hide Check, ApplyBlock, Inv, Extend, EntryHonest;
    AdmittedIsPlaced(cfg, s, b, now);
    InvParts(cfg, s);
    var applied := ApplyBlock(s.ledger, b).value;
    ExtendHonest(cfg, s, b, applied, Accepted);
    var s1 := Note(Extend(cfg, s, b, applied), b, Accepted);
    GrowthKeepsHonest(cfg, s1, Accept(cfg, s, b, now).0);
  }

  lemma {:induction false} IngestHonest(cfg: Config, s: NodeState, b: VeloBlock)
    requires Inv(cfg, s) && JournalHonest(cfg, s)
    ensures JournalHonest(cfg, Ingest(cfg, s, b)) && Grows(s, Ingest(cfg, s, b))
    ensures Check(cfg, Tick(s), b, cfg.clock(s.calls)) == Admit ==> Holds(cfg, Ingest(cfg, s, b), b)
    decreases s.pool.currentSize, 1, 0
  {
    hide Inv, Check, Accept, EntryHonest;
    TickKeepsInv(cfg, s);
    var s1, now := Tick(s), cfg.clock(s.calls);
    GrowthKeepsHonest(cfg, s, s1);
    match Check(cfg, s1, b, now)
    case AlreadyKnown =>
      KnownIsStored(cfg, s1, b, now);
      NoteKeepsHonest(cfg, s1, b, Known);
    case Refuse(reason) =>
      OthersHonest(cfg, s1, b, Rejected(reason));
      NoteKeepsHonest(cfg, s1, b, Rejected(reason));
    case MissingParent(parent) =>
      var s2 := s1.(pool := PoolInsert(s1.pool, parent, b));
      GrowthKeepsHonest(cfg, s1, s2);
      OthersHonest(cfg, s2, b, PoolFull);
      NoteKeepsHonest(cfg, s2, b, PoolFull);
    case Admit =>
      var (s2, ready) := Accept(cfg, s1, b, now);
      AcceptHonest(cfg, s1, b, now);
      ReplayHonest(cfg, s2, ready);
  }

  lemma {:induction false} KnownIsStored(cfg: Config, s: NodeState, b: VeloBlock, now: u64)
    requires Check(cfg, s, b, now) == AlreadyKnown
    ensures cfg.hashOf(b) in s.store && EntryHonest(cfg, s, b, Known)
  {
  }

  lemma {:induction false} OthersHonest(cfg: Config, s: NodeState, b: VeloBlock, outcome: Outcome)
    requires outcome.Rejected? || outcome.PoolFull?
    ensures EntryHonest(cfg, s, b, outcome)
  {
  }

  lemma {:induction false} ReplayHonest(cfg: Config, s: NodeState, ready: seq<VeloBlock>)
    requires Inv(cfg, s) && JournalHonest(cfg, s) && s.pool.currentSize + |ready| <= s.pool.maxSize
    ensures JournalHonest(cfg, ReplayOrphans(cfg, s, ready)) && Grows(s, ReplayOrphans(cfg, s, ready))
    decreases s.pool.currentSize + |ready|, 0, |ready|
  {
    hide Inv, Ingest, JournalHonest;
    if ready != [] {
      IngestHonest(cfg, s, ready[0]);
      ReplayHonest(cfg, Ingest(cfg, s, ready[0]), ready[1..]);
    }
  }

  /** Arrival exactly. A known block is noted, an unsound or unplaced one is noted as refused, one with an unknown
      parent waits for the first of them unless the pool is full, and an acceptable one is stored. */
  lemma {:induction false} ArrivalEffect(cfg: Config, s: NodeState, b: VeloBlock, p: Hash)
    requires Inv(cfg, s) && JournalHonest(cfg, s)
    ensures var s', now, hash := Ingest(cfg, s, b), cfg.clock(s.calls), cfg.hashOf(b);
            var waits := hash !in s.store && Sound(cfg, s.target, b) && FirstUnknown(s.store, b.header.parents, p);
            && (hash in s.store ==> s' == Note(Tick(s), b, Known))
            && (waits && s.pool.currentSize < s.pool.maxSize ==>
                  s' == Tick(s).(pool := PoolInsert(s.pool, p, b)))
            && (waits && s.pool.currentSize >= s.pool.maxSize ==> s' == Note(Tick(s), b, PoolFull))
            && (Acceptable(cfg, s, b, now) ==> Holds(cfg, s', b))
            && (hash !in s.store && !Acceptable(cfg, s, b, now)
                && (Sound(cfg, s.target, b) ==> forall q :: q in b.header.parents ==> q in s.store) ==>
                  && Check(cfg, Tick(s), b, now).Refuse?
                  && s' == Note(Tick(s), b, Rejected(Check(cfg, Tick(s), b, now).reason)))
            && Grows(s, s') && JournalHonest(cfg, s')
  {
    hide Inv, Check, Accept, JournalHonest, Acceptable, Sound, FirstUnknown;
    VerdictIff(cfg, Tick(s), b, cfg.clock(s.calls), p);
    SameVerdictInputs(cfg, s, b, cfg.clock(s.calls));
    IngestHonest(cfg, s, b);
  }

  lemma {:induction false} SameVerdictInputs(cfg: Config, s: NodeState, b: VeloBlock, now: u64)
    ensures Acceptable(cfg, Tick(s), b, now) == Acceptable(cfg, s, b, now)
  {
  }

  /** The state an orphan meets at its turn. */
  ghost function AtTurn(cfg: Config, s: NodeState, ready: seq<VeloBlock>, i: nat): NodeState
    requires Inv(cfg, s) && s.pool.currentSize + |ready| <= s.pool.maxSize && i <= |ready|
  {
    ReplayOrphans(cfg, s, ready[..i])
  }

  lemma {:induction false} ReplaySplits(cfg: Config, s: NodeState, xs: seq<VeloBlock>, ys: seq<VeloBlock>)
    requires Inv(cfg, s) && s.pool.currentSize + |xs| + |ys| <= s.pool.maxSize
    ensures ReplayOrphans(cfg, s, xs + ys) == ReplayOrphans(cfg, ReplayOrphans(cfg, s, xs), ys)
    decreases |xs|
  {
    hide Inv, Ingest;
    if xs == [] {
      assert xs + ys == ys;
    } else {
      assert (xs + ys)[0] == xs[0] && (xs + ys)[1..] == xs[1..] + ys;
      ReplaySplits(cfg, Ingest(cfg, s, xs[0]), xs[1..], ys);
    }
  }

  lemma {:induction false} ReplayOne(cfg: Config, s: NodeState, b: VeloBlock)
    requires Inv(cfg, s) && s.pool.currentSize + 1 <= s.pool.maxSize
    ensures ReplayOrphans(cfg, s, [b]) == Ingest(cfg, s, b)
  {
    hide Inv, Ingest;
    assert [b][1..] == [];
  }

  /** Every orphan taken out gets its turn, in the order it was buffered: it is treated as if it had just arrived in
      the state the ones before it left. */
  lemma {:induction false} OrphanTurn(cfg: Config, s: NodeState, ready: seq<VeloBlock>, i: nat)
    requires Inv(cfg, s) && JournalHonest(cfg, s) && s.pool.currentSize + |ready| <= s.pool.maxSize && i < |ready|
    ensures AtTurn(cfg, s, ready, 0) == s && AtTurn(cfg, s, ready, |ready|) == ReplayOrphans(cfg, s, ready)
    ensures var t := AtTurn(cfg, s, ready, i);
            && JournalHonest(cfg, t) && t.pool.currentSize < t.pool.maxSize
            && AtTurn(cfg, s, ready, i + 1) == Ingest(cfg, t, ready[i])
            && Grows(AtTurn(cfg, s, ready, i + 1), ReplayOrphans(cfg, s, ready))
            && (Acceptable(cfg, t, ready[i], cfg.clock(t.calls)) ==>
                  Holds(cfg, ReplayOrphans(cfg, s, ready), ready[i]))
  {
    hide Inv, Ingest, JournalHonest, ReplayOrphans, Acceptable, Sound, FirstUnknown;
    var b, t := ready[i], AtTurn(cfg, s, ready, i);
    assert ready[..0] == [] && ready[..|ready|] == ready;
    ReplayNone(cfg, s);
    ReplayHonest(cfg, s, ready[..i]);
    assert ready[..i + 1] == ready[..i] + [b];
    ReplaySplits(cfg, s, ready[..i], [b]);
    ReplayOne(cfg, t, b);
    assert ready == ready[..i + 1] + ready[i + 1..];
    ReplaySplits(cfg, s, ready[..i + 1], ready[i + 1..]);
    ReplayHonest(cfg, s, ready[..i + 1]);
    ReplayHonest(cfg, AtTurn(cfg, s, ready, i + 1), ready[i + 1..]);
    ArrivalEffect(cfg, t, b, 0);
  }

  lemma {:induction false} ReplayNone(cfg: Config, s: NodeState)
    requires Inv(cfg, s) && s.pool.currentSize <= s.pool.maxSize
    ensures ReplayOrphans(cfg, s, []) == s
  {
  }

  lemma {:induction false} AcceptTakesWaiters(cfg: Config, s: NodeState, b: VeloBlock, now: u64)
    requires Inv(cfg, s) && Check(cfg, s, b, now) == Admit
    ensures Accept(cfg, s, b, now).1 == WaitingFor(s.pool.waitingOn, cfg.hashOf(b))
  {
    hide Check, ApplyBlock, Inv, Extend;
    AdmittedIsPlaced(cfg, s, b, now);
    InvParts(cfg, s);
    ExtendKeepsPool(cfg, s, b, ApplyBlock(s.ledger, b).value);
  }

  /** A stored block wakes just the orphans that waited for it, and one of them that is acceptable at its turn is stored
      when the call returns. */
  lemma {:induction false} WaitingOrphanIsStored(cfg: Config, s: NodeState, b: VeloBlock, i: nat)
    requires Inv(cfg, s) && JournalHonest(cfg, s) && Acceptable(cfg, s, b, cfg.clock(s.calls))
    requires i < |WaitingFor(s.pool.waitingOn, cfg.hashOf(b))|
    ensures Check(cfg, Tick(s), b, cfg.clock(s.calls)) == Admit && Inv(cfg, Tick(s))
    ensures var (s', ready) := Accept(cfg, Tick(s), b, cfg.clock(s.calls));
            && ready == WaitingFor(s.pool.waitingOn, cfg.hashOf(b)) && Holds(cfg, s', b)
            && (var t := AtTurn(cfg, s', ready, i);
                Acceptable(cfg, t, ready[i], cfg.clock(t.calls)) ==> Holds(cfg, Ingest(cfg, s, b), ready[i]))
  {
    hide Inv, Check, JournalHonest, Acceptable, ApplyBlock, Extend, ReplayOrphans, AtTurn;
    TickKeepsInv(cfg, s);
    VerdictIff(cfg, Tick(s), b, cfg.clock(s.calls), 0);
    SameVerdictInputs(cfg, s, b, cfg.clock(s.calls));
    GrowthKeepsHonest(cfg, s, Tick(s));
    AcceptTakesWaiters(cfg, Tick(s), b, cfg.clock(s.calls));
    AcceptHonest(cfg, Tick(s), b, cfg.clock(s.calls));
    var (s', ready) := Accept(cfg, Tick(s), b, cfg.clock(s.calls));
    OrphanTurn(cfg, s', ready, i);
  }

  lemma {:induction false} MineHonest(
      cfg: Config, s: NodeState, candidates: seq<Transaction>, miner: Address, timestamp: u64, nonce: u64)
    requires Inv(cfg, s) && HashBinds(cfg) && JournalHonest(cfg, s)
    ensures JournalHonest(cfg, MineTick(cfg, s, candidates, miner, timestamp, nonce))
  {
    hide ApplyBlock, Inv, Extend, HashBinds, MinedBlock, JournalHonest;
    TipExists(cfg, s);
    var tip := CanonicalTip(s.cache).value;
    var b := MinedBlock(s, tip, candidates, miner, timestamp, nonce);
    if ApplyBlock(s.ledger, b).Ok? {
      MineKeepsInv(cfg, s, tip, candidates, miner, timestamp, nonce);
      ExtendHonest(cfg, s, b, ApplyBlock(s.ledger, b).value, Mined);
    }
  }

  /** After every run the journal tells the truth about the store. */
  lemma {:induction false} RunIsHonest(cfg: Config, maxPool: nat, events: seq<Event>)
    requires Runnable(cfg, events)
    ensures JournalHonest(cfg, Run(cfg, maxPool, events))
  {
    hide Inv, HashBinds, Usable, Ingest, MineTick, Restarted, StoredByHeight, EntryHonest;
    if events != [] {
      var n := |events| - 1;
      RunIsHonest(cfg, maxPool, events[..n]);
      assert events[..n] + [events[n]] == events;
      RunStep(cfg, maxPool, events[..n], events[n]);
      var s := Run(cfg, maxPool, events[..n]);
      match events[n]
      case Receive(block) => IngestHonest(cfg, s, block);
      case Mine(candidates, miner, timestamp, nonce) => MineHonest(cfg, s, candidates, miner, timestamp, nonce);
      case Restart(stored, maxSize) => SameStoreHonest(cfg, s, Run(cfg, maxPool, events));
    }
  }

  lemma {:induction false} SameStoreHonest(cfg: Config, s: NodeState, s': NodeState)
    requires JournalHonest(cfg, s) && s'.store == s.store && s'.journal == s.journal
    ensures JournalHonest(cfg, s')
  {
    forall i | 0 <= i < |s'.journal| ensures EntryHonest(cfg, s', s'.journal[i].0, s'.journal[i].1) {
      assert EntryHonest(cfg, s, s.journal[i].0, s.journal[i].1);
    }
  }
}
