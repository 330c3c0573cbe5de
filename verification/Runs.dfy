/** Whole runs of a node: received and mined blocks and restarts in any order. */
module Runs {
  import opened Types
  import opened Validation
  import opened NodeRules
  import opened NodeRuns
  import opened Mining
  import opened Restart

  datatype Event =
    | Receive(block: VeloBlock)
    | Mine(candidates: seq<Transaction>, miner: Address, timestamp: u64, nonce: u64)
    | Restart(stored: seq<VeloBlock>, maxPool: nat)

  /** A restart reads what the storage holds, by height, and the ledger last held; a list the storage does not hold is
      no event. */
  ghost function Apply(cfg: Config, s: NodeState, e: Event): (r: NodeState)
    requires Inv(cfg, s) && (e.Mine? ==> HashBinds(cfg))
    ensures Inv(cfg, r)
  {
    match e
    case Receive(block) => Ingest(cfg, s, block)
    case Mine(candidates, miner, timestamp, nonce) => MineTick(cfg, s, candidates, miner, timestamp, nonce)
    case Restart(stored, maxPool) =>
      if StoredByHeight(cfg, s.store, stored) then Restarted(cfg, s, stored, Some(s.ledger), maxPool)
      else s
  }

  /** Only mining needs hashes that bind headers. */
  ghost predicate Runnable(cfg: Config, events: seq<Event>) {
    Usable(cfg) && (HashBinds(cfg) || forall e :: e in events ==> !e.Mine?)
  }

  /** The state after any sequence of events: the invariant holds in all of them. */
  ghost function Run(cfg: Config, maxPool: nat, events: seq<Event>): (r: NodeState)
    requires Runnable(cfg, events)
    ensures Inv(cfg, r)
  {
    if events == [] then
      StartKeepsInv(cfg, maxPool);
      Start(cfg, maxPool)
    else
      var n := |events| - 1;
      Apply(cfg, Run(cfg, maxPool, events[..n]), events[n])
  }

  lemma {:induction false} RunStep(cfg: Config, maxPool: nat, events: seq<Event>, e: Event)
    requires Runnable(cfg, events + [e])
    ensures Runnable(cfg, events) && (e.Mine? ==> HashBinds(cfg))
    ensures Run(cfg, maxPool, events + [e]) == Apply(cfg, Run(cfg, maxPool, events), e)
  {
    hide Inv, HashBinds, Usable, Apply;
    assert forall x :: x in events ==> x in events + [e];
    assert e in events + [e];
    assert (events + [e])[..|events|] == events;
  }

  /** Runs without mined blocks, restarts included, keep timestamps ordered along every path and nobody waiting
      in vain, whatever the hash. */
  lemma {:induction false} ReceivingRunKeepsGossip(cfg: Config, maxPool: nat, events: seq<Event>)
    requires Usable(cfg) && forall e :: e in events ==> !e.Mine?
    ensures GossipInv(Run(cfg, maxPool, events))
  {
    hide Inv, Usable, Ingest, Restarted, StoredByHeight;
    if events == [] {
      StartKeepsInv(cfg, maxPool);
    } else {
      var n := |events| - 1;
      ReceivingRunKeepsGossip(cfg, maxPool, events[..n]);
      var s := Run(cfg, maxPool, events[..n]);
      assert events[n] in events;
      if events[n].Receive? {
        IngestKeepsGossip(cfg, s, events[n].block);
      }
    }
  }
}
