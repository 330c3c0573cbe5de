/** What runs and restarts do to the target. */
module Retargeting {
  import opened Types
  import opened Dag
  import opened ForkChoice
  import opened LinearOrder
  import opened LedgerRules
  import opened Difficulty
  import opened Replay
  import opened Validation
  import opened NodeRules
  import opened Mining
  import opened Restart
  import opened Runs
  import opened Scenario

  /** Nothing is left of the target's high half. */
  ghost predicate Spent(s: NodeState) {
    FromBytes(s.target[..16]) == 0
  }

  lemma {:induction false} ExtendKeepsSpent(cfg: Config, s: NodeState, b: VeloBlock, applied: Ledger)
    requires Inv(cfg, s) && Insertable(GraphOf(s.store), cfg.hashOf(b), b.header.parents) && Spent(s)
    ensures Spent(Extend(cfg, s, b, applied))
  {
    hide RecomputeLedger, CanonicalTip, LinearSort, BlocksOf, FromBytes, Inv;
    InvParts(cfg, s);
    ExtendKeepsConsistent(s.store, cfg.k, s.cache, cfg.hashOf(b), b);
    var s' := Extend(cfg, s, b, applied);
    var tip := CanonicalTip(s'.cache);
    var canonical := if tip.Some? then tip.value else cfg.hashOf(b);
    ZeroHighHalfIsFinal(cfg.daa, BlocksOf(s'.store, LinearSort(s'.cache, canonical)), s.target);
  }

  lemma {:induction false} IngestKeepsSpent(cfg: Config, s: NodeState, b: VeloBlock)
    requires Inv(cfg, s) && Spent(s)
    ensures Spent(Ingest(cfg, s, b))
    decreases s.pool.currentSize, 1, 0
  {
    hide Check, Inv, Extend, ApplyBlock, FromBytes;
    TickKeepsInv(cfg, s);
    var s1, now := Tick(s), cfg.clock(s.calls);
    if Check(cfg, s1, b, now) == Admit {
      AdmittedIsPlaced(cfg, s1, b, now);
      InvParts(cfg, s1);
      var (s2, ready) := Accept(cfg, s1, b, now);
      ExtendKeepsSpent(cfg, s1, b, ApplyBlock(s1.ledger, b).value);
      ReplayKeepsSpent(cfg, s2, ready);
    }
  }

  lemma {:induction false} ReplayKeepsSpent(cfg: Config, s: NodeState, ready: seq<VeloBlock>)
    requires Inv(cfg, s) && s.pool.currentSize + |ready| <= s.pool.maxSize && Spent(s)
    ensures Spent(ReplayOrphans(cfg, s, ready))
    decreases s.pool.currentSize + |ready|, 0, |ready|
  {
    hide Inv, Ingest, Spent;
    if ready != [] {
      IngestKeepsSpent(cfg, s, ready[0]);
      ReplayKeepsSpent(cfg, Ingest(cfg, s, ready[0]), ready[1..]);
    }
  }

  lemma {:induction false} MineKeepsSpent(
      cfg: Config, s: NodeState, candidates: seq<Transaction>, miner: Address, timestamp: u64, nonce: u64)
    requires Inv(cfg, s) && HashBinds(cfg) && Spent(s)
    ensures Spent(MineTick(cfg, s, candidates, miner, timestamp, nonce))
  {
    hide ApplyBlock, Inv, Extend, HashBinds, MinedBlock, FromBytes;
    TipExists(cfg, s);
    var tip := CanonicalTip(s.cache).value;
    var b := MinedBlock(s, tip, candidates, miner, timestamp, nonce);
    if ApplyBlock(s.ledger, b).Ok? {
      MineKeepsInv(cfg, s, tip, candidates, miner, timestamp, nonce);
      ExtendKeepsSpent(cfg, s, b, ApplyBlock(s.ledger, b).value);
    }
  }

  /** A spent target stays spent through every run, orphan replay and mining included, until a restart; and through a
      restart exactly when the last stored block by height declares a spent target itself. */
  lemma {:induction false} SpentIsFinal(cfg: Config, s: NodeState, e: Event)
    requires Inv(cfg, s) && (e.Mine? ==> HashBinds(cfg)) && Spent(s)
    ensures !e.Restart? ==> Spent(Apply(cfg, s, e))
    ensures e.Restart? && StoredByHeight(cfg, s.store, e.stored) ==>
              e.stored != []
              && (Spent(Apply(cfg, s, e)) <==>
                    FromBytes(e.stored[|e.stored| - 1].header.difficultyTarget[..16]) == 0)
  {
    hide Inv, HashBinds, Ingest, MineTick, StoredByHeight, FromBytes;
    match e
    case Receive(block) => IngestKeepsSpent(cfg, s, block);
    case Mine(candidates, miner, timestamp, nonce) => MineKeepsSpent(cfg, s, candidates, miner, timestamp, nonce);
    case Restart(stored, maxPool) =>
      if StoredByHeight(cfg, s.store, stored) {
        var r := Restarted(cfg, s, stored, Some(s.ledger), maxPool);
      }
  }

  lemma {:induction false} SpentRun(cfg: Config, maxPool: nat, events: seq<Event>, later: seq<Event>)
    requires Runnable(cfg, events + later) && forall e :: e in later ==> !e.Restart?
    ensures Runnable(cfg, events)
    ensures Spent(Run(cfg, maxPool, events)) ==> Spent(Run(cfg, maxPool, events + later))
    decreases |later|
  {
    hide Inv, HashBinds, Usable, Apply, Spent, Run;
    assert forall x :: x in events ==> x in events + later;
    if later == [] {
      assert events + later == events;
    } else {
      var n := |later| - 1;
      assert events + later == (events + later[..n]) + [later[n]];
      RunStep(cfg, maxPool, events + later[..n], later[n]);
      SpentRun(cfg, maxPool, events, later[..n]);
      assert later[n] in later;
      if Spent(Run(cfg, maxPool, events)) {
        SpentIsFinal(cfg, Run(cfg, maxPool, events + later[..n]), later[n]);
      }
    }
  }

  /** A restart right after a block was stored, when that block is the last by height, keeps the target exactly when
      storing the block did not change it. */
  lemma {:induction false} RestartKeepsTargetIff(
      cfg: Config, s: NodeState, s': NodeState, b: VeloBlock, stored: seq<VeloBlock>,
      persisted: Option<Ledger>, maxPool: nat)
    requires Adopted(cfg, s, s', b) && b.header.difficultyTarget == s.target
    requires StoredByHeight(cfg, s'.store, stored) && stored != [] && stored[|stored| - 1] == b
    ensures Restarted(cfg, s', stored, persisted, maxPool).target == s'.target <==> s'.target == s.target
    ensures var tip := CanonicalTip(s'.cache).value;
            s'.target == cfg.daa.CalculateNextTarget(BlocksOf(s'.store, LinearSort(s'.cache, tip)), s.target)
  {
    hide StoredByHeight, BlocksOf, LinearSort, RecomputeLedger;
  }
}
