/** A node's state and the checks a block passes before it is stored. */
module Validation {
  import opened Types
  import opened Colouring
  import opened Emission
  import opened LedgerRules
  import opened Merkle
  import opened Difficulty
  import opened Replay
  import opened Orphans

  /** What a node is started with. Hashing, signature checks and the clock are arbitrary functions; the
      clock answers the n-th call of the block check. */
  datatype Config = Config(
    k: nat,
    hashOf: VeloBlock -> Hash,
    signatureOk: Transaction -> bool,
    clock: nat -> u64,
    daa: DifficultyManager,
    genesis: VeloBlock)

  const GENESIS_TARGET: Target := [
    0x0f, 0x0f, 0x0f, 0x0f, 0x0f, 0x0f, 0x0f, 0x0f, 0x0f, 0x0f, 0x0f, 0x0f, 0x0f, 0x0f, 0x0f, 0x0f,
    0x0f, 0x0f, 0x0f, 0x0f, 0x0f, 0x0f, 0x0f, 0x0f, 0x0f, 0x0f, 0x0f, 0x0f, 0x0f, 0x0f, 0x0f, 0x0f]

  /** The fixed genesis block; networks differ in its timestamp only. */
  function FixedGenesisBlock(timestamp: u64): VeloBlock {
    VeloBlock(BlockHeader(timestamp, [], Zero, 0, 0, GENESIS_TARGET), [], 0, 0, DEV_TREASURY_ADDRESS, 0)
  }

  predicate Usable(cfg: Config) {
    cfg.daa.Usable() && cfg.genesis == FixedGenesisBlock(cfg.genesis.header.timestamp)
  }

  function GenesisHash(cfg: Config): Hash {
    cfg.hashOf(cfg.genesis)
  }

  datatype Reason =
    | TooManyTransactions
    | BadCoinbaseSplit
    | CommitmentMismatch
    | InvalidSignature
    | UnexpectedTarget
    | InsufficientWork
    | GenesisWithParents
    | NoParents
    | WrongHeight(expected: u64)
    | BeforeItsParent
    | TooFarInFuture
    | InvalidLedgerState(error: LedgerError)

  datatype Verdict = AlreadyKnown | Refuse(reason: Reason) | MissingParent(parent: Hash) | Admit

  datatype Outcome = Known | Rejected(reason: Reason) | Accepted | PoolFull | Mined

  /** Everything the node mutates. `journal` is its log of finished blocks, kept across restarts;
      `calls` counts block checks. */
  datatype NodeState = NodeState(
    store: Store,
    cache: Cache,
    history: seq<VeloBlock>,
    ledger: Ledger,
    target: Target,
    pool: Pool,
    calls: nat,
    journal: seq<(VeloBlock, Outcome)>)

  /** A hash meets a target when, read as a number, it is not above it. */
  predicate VerifyPow(hash: Hash, target: Target) {
    hash <= FromBytes(target)
  }

  // The checks, in the order they are made

  /** Size, coinbase, commitment, signatures, declared target and work. */
  function ContentFault(cfg: Config, target: Target, b: VeloBlock): Option<Reason> {
    if |b.transactions| > MAX_TRANSACTIONS_PER_BLOCK then Some(TooManyTransactions)
    else if !VerifyCoinbaseRewards(b) then Some(BadCoinbaseSplit)
    else if !VerifyTransactionMerkleRoot(b) then Some(CommitmentMismatch)
    else if exists tx :: tx in b.transactions && !cfg.signatureOk(tx) then Some(InvalidSignature)
    else if b.header.height > 0 && b.header.difficultyTarget != target then Some(UnexpectedTarget)
    else if b.header.height > 0 && !VerifyPow(cfg.hashOf(b), target) then Some(InsufficientWork)
    else None
  }

  /** The first parent that is not stored. */
  function FirstMissing(parents: seq<Hash>, store: Store): (r: Option<Hash>)
    ensures r.None? <==> forall p :: p in parents ==> p in store
    ensures r.Some? ==> r.value in parents && r.value !in store
  {
    if parents == [] then None
    else if parents[0] !in store then Some(parents[0])
    else FirstMissing(parents[1..], store)
  }

  function Max(a: u64, b: u64): u64 {
    if a < b then b else a
  }

  function MaxParentHeight(parents: seq<Hash>, store: Store): (r: u64)
    requires parents != [] && forall p :: p in parents ==> p in store
    ensures forall p :: p in parents ==> store[p].header.height <= r
  {
    var n := |parents| - 1;
    var last := store[parents[n]].header.height;
    if n == 0 then last
    else
      assert forall p :: p in parents ==> p in parents[..n] || p == parents[n];
      Max(MaxParentHeight(parents[..n], store), last)
  }

  lemma {:induction false} TallestParent(parents: seq<Hash>, store: Store) returns (p: Hash)
    requires parents != [] && forall q :: q in parents ==> q in store
    ensures p in parents && store[p].header.height == MaxParentHeight(parents, store)
  {
    var n := |parents| - 1;
    p := parents[n];
    if n > 0 {
      var q := TallestParent(parents[..n], store);
      if store[p].header.height < store[q].header.height {
        p := q;
      }
    }
  }

  function MaxParentTimestamp(parents: seq<Hash>, store: Store): (r: u64)
    requires parents != [] && forall p :: p in parents ==> p in store
    ensures forall p :: p in parents ==> store[p].header.timestamp <= r
  {
    var n := |parents| - 1;
    var last := store[parents[n]].header.timestamp;
    if n == 0 then last
    else
      assert forall p :: p in parents ==> p in parents[..n] || p == parents[n];
      Max(MaxParentTimestamp(parents[..n], store), last)
  }

  lemma {:induction false} LatestParent(parents: seq<Hash>, store: Store) returns (p: Hash)
    requires parents != [] && forall q :: q in parents ==> q in store
    ensures p in parents && store[p].header.timestamp == MaxParentTimestamp(parents, store)
  {
    var n := |parents| - 1;
    p := parents[n];
    if n > 0 {
      var q := LatestParent(parents[..n], store);
      if MaxParentTimestamp(parents, store) != store[p].header.timestamp {
        p := q;
      }
    }
  }

  function SaturatingAdd(a: u64, b: u64): u64 {
    if a + b >= TWO_TO_THE_64 then TWO_TO_THE_64 - 1 else a + b
  }

  /** Height and timestamps against the (known) parents; the height successor wraps at 64 bits. */
  function PlacementFault(b: VeloBlock, store: Store, now: u64): Option<Reason>
    requires forall p :: p in b.header.parents ==> p in store
  {
    var parents := b.header.parents;
    if b.header.height == 0 then if parents != [] then Some(GenesisWithParents) else None
    else if parents == [] then Some(NoParents)
    else
      var expected: u64 := (MaxParentHeight(parents, store) + 1) % TWO_TO_THE_64;
      if b.header.height != expected then Some(WrongHeight(expected))
      else if b.header.timestamp < MaxParentTimestamp(parents, store) then Some(BeforeItsParent)
      else if b.header.timestamp > SaturatingAdd(now, MAX_FUTURE_DRIFT_SECS) then Some(TooFarInFuture)
      else None
  }

  function Check(cfg: Config, s: NodeState, b: VeloBlock, now: u64): Verdict {
    if cfg.hashOf(b) in s.store then AlreadyKnown
    else
      var content := ContentFault(cfg, s.target, b);
      if content.Some? then Refuse(content.value)
      else
        var missing := FirstMissing(b.header.parents, s.store);
        if missing.Some? then MissingParent(missing.value)
        else
          var placement := PlacementFault(b, s.store, now);
          if placement.Some? then Refuse(placement.value)
          else
            var applied := ApplyBlock(s.ledger, b);
            if applied.Err? then Refuse(InvalidLedgerState(applied.error)) else Admit
  }

  /** The coinbase check and the ledger's rule for height 0 exclude each other. */
  lemma {:induction false} NoSecondGenesis(l: Ledger, b: VeloBlock)
    requires VerifyCoinbaseRewards(b) && ApplyBlock(l, b).Ok?
    ensures b.header.height > 0
  {
    RewardAtZero();
  }

  lemma {:induction false} AdmittedPasses(cfg: Config, s: NodeState, b: VeloBlock, now: u64)
    requires Check(cfg, s, b, now) == Admit
    ensures cfg.hashOf(b) !in s.store && ApplyBlock(s.ledger, b).Ok? && VerifyCoinbaseRewards(b)
    ensures VerifyTransactionMerkleRoot(b) && forall tx :: tx in b.transactions ==> cfg.signatureOk(tx)
    ensures forall p :: p in b.header.parents ==> p in s.store
    ensures PlacementFault(b, s.store, now) == None
  {
  }

  /** A block without parents or at height 0 never passes, and the height check cannot have wrapped. */
  lemma {:induction false} AdmittedIsPlaced(cfg: Config, s: NodeState, b: VeloBlock, now: u64)
    requires Check(cfg, s, b, now) == Admit
    ensures b.header.height > 0 && b.header.parents != []
    ensures forall p :: p in b.header.parents ==> p in s.store
    ensures b.header.height == MaxParentHeight(b.header.parents, s.store) + 1
    ensures forall p :: p in b.header.parents ==> s.store[p].header.timestamp <= b.header.timestamp
    ensures cfg.hashOf(b) !in s.store && ApplyBlock(s.ledger, b).Ok?
  {
    hide Check, ApplyBlock, ContentFault;
    AdmittedPasses(cfg, s, b, now);
    NoSecondGenesis(s.ledger, b);
  }

  /** All an admitted block satisfies, in one place. */
  ghost predicate Acceptable(cfg: Config, s: NodeState, b: VeloBlock, now: u64) {
    var parents := b.header.parents;
    && cfg.hashOf(b) !in s.store
    && |b.transactions| <= MAX_TRANSACTIONS_PER_BLOCK
    && (forall tx :: tx in b.transactions ==> cfg.signatureOk(tx))
    && VerifyTransactionMerkleRoot(b)
    && b.header.difficultyTarget == s.target && VerifyPow(cfg.hashOf(b), s.target)
    && parents != [] && (forall p :: p in parents ==> p in s.store)
    && b.header.height == MaxParentHeight(parents, s.store) + 1
    && MaxParentTimestamp(parents, s.store) <= b.header.timestamp <= now + MAX_FUTURE_DRIFT_SECS
    && ApplyBlock(s.ledger, b).Ok?
  }

  /** The checks admit exactly the acceptable blocks. */
  lemma {:induction false} AdmittedIff(cfg: Config, s: NodeState, b: VeloBlock, now: u64)
    ensures Check(cfg, s, b, now) == Admit <==> Acceptable(cfg, s, b, now)
  {
    if Acceptable(cfg, s, b, now) {
      assert b.header.height > 0 && VerifyCoinbaseRewards(b);
    } else if Check(cfg, s, b, now) == Admit {
      AdmittedIsPlaced(cfg, s, b, now);
    }
  }

  /** `p` is unknown and every parent named before it is known. */
  ghost predicate FirstUnknown(store: Store, parents: seq<Hash>, p: Hash) {
    exists j :: 0 <= j < |parents| && parents[j] == p && p !in store && forall i :: 0 <= i < j ==> parents[i] in store
  }

  lemma {:induction false} FirstMissingIff(parents: seq<Hash>, store: Store, p: Hash)
    ensures FirstMissing(parents, store) == Some(p) <==> FirstUnknown(store, parents, p)
  {
    if parents != [] {
      var rest := parents[1..];
      FirstMissingIff(rest, store, p);
      if parents[0] in store {
        if FirstUnknown(store, rest, p) {
          var j :| 0 <= j < |rest| && rest[j] == p && p !in store && forall i :: 0 <= i < j ==> rest[i] in store;
          assert parents[j + 1] == p && forall i :: 0 <= i < j + 1 ==> parents[i] in store;
        }
        if FirstUnknown(store, parents, p) {
          var j :| 0 <= j < |parents| && parents[j] == p && p !in store
            && forall i :: 0 <= i < j ==> parents[i] in store;
          assert rest[j - 1] == p && forall i :: 0 <= i < j - 1 ==> rest[i] == parents[i + 1];
        }
      }
    }
  }

  /** Nothing is wrong with the block by itself: size, reward, commitment, signatures, target and work. */
  ghost predicate Sound(cfg: Config, target: Target, b: VeloBlock) {
    && |b.transactions| <= MAX_TRANSACTIONS_PER_BLOCK
    && (b.coinbaseMinerOutput, b.coinbaseDevOutput) == CalculateSubsidySplit(b.header.height)
    && b.header.txMerkleRoot == MerkleRoot(Ids(b.transactions))
    && (forall tx :: tx in b.transactions ==> cfg.signatureOk(tx))
    && (b.header.height > 0 ==> b.header.difficultyTarget == target && VerifyPow(cfg.hashOf(b), target))
  }

  /** The verdict exactly: known, waiting for its first unknown parent, or admitted; everything else is refused. */
  lemma {:induction false} VerdictIff(cfg: Config, s: NodeState, b: VeloBlock, now: u64, p: Hash)
    ensures var verdict := Check(cfg, s, b, now);
            && (verdict == AlreadyKnown <==> cfg.hashOf(b) in s.store)
            && (verdict == MissingParent(p) <==>
                  cfg.hashOf(b) !in s.store && Sound(cfg, s.target, b) && FirstUnknown(s.store, b.header.parents, p))
            && (verdict == Admit <==> Acceptable(cfg, s, b, now))
            && (verdict.Refuse? <==>
                  && cfg.hashOf(b) !in s.store && !Acceptable(cfg, s, b, now)
                  && (Sound(cfg, s.target, b) ==> forall q :: q in b.header.parents ==> q in s.store))
  {
    hide ApplyBlock, PlacementFault, FirstMissing, FirstUnknown, Acceptable, Sound;
    FirstMissingIff(b.header.parents, s.store, p);
    AdmittedIff(cfg, s, b, now);
    SoundIff(cfg, s.target, b);
  }

  lemma {:induction false} SoundIff(cfg: Config, target: Target, b: VeloBlock)
    ensures ContentFault(cfg, target, b) == None <==> Sound(cfg, target, b)
  {
  }

  /** What each reason for a refusal says of the block. */
  ghost predicate Wrong(cfg: Config, s: NodeState, b: VeloBlock, now: u64, reason: Reason)
    requires forall p :: p in b.header.parents ==> p in s.store
  {
    var height, parents := b.header.height, b.header.parents;
    match reason
    case TooManyTransactions => |b.transactions| > MAX_TRANSACTIONS_PER_BLOCK
    case BadCoinbaseSplit => (b.coinbaseMinerOutput, b.coinbaseDevOutput) != CalculateSubsidySplit(height)
    case CommitmentMismatch => b.header.txMerkleRoot != MerkleRoot(Ids(b.transactions))
    case InvalidSignature => exists tx :: tx in b.transactions && !cfg.signatureOk(tx)
    case UnexpectedTarget => height > 0 && b.header.difficultyTarget != s.target
    case InsufficientWork => height > 0 && !VerifyPow(cfg.hashOf(b), s.target)
    case GenesisWithParents => height == 0 && parents != []
    case NoParents => height > 0 && parents == []
    case WrongHeight(expected) =>
      height > 0 && parents != [] && height != expected
      && expected == (MaxParentHeight(parents, s.store) + 1) % TWO_TO_THE_64
    case BeforeItsParent => height > 0 && parents != [] && b.header.timestamp < MaxParentTimestamp(parents, s.store)
    case TooFarInFuture => height > 0 && b.header.timestamp > now + MAX_FUTURE_DRIFT_SECS
    case InvalidLedgerState(error) => ApplyBlock(s.ledger, b) == Err(error)
  }

  function Rank(reason: Reason): nat {
    match reason
    case TooManyTransactions => 0
    case BadCoinbaseSplit => 1
    case CommitmentMismatch => 2
    case InvalidSignature => 3
    case UnexpectedTarget => 4
    case InsufficientWork => 5
    case GenesisWithParents => 6
    case NoParents => 7
    case WrongHeight(_) => 8
    case BeforeItsParent => 9
    case TooFarInFuture => 10
    case InvalidLedgerState(_) => 11
  }

  /** A refusal names the first thing that is wrong with the block, in the order of the checks. */
  lemma {:induction false} RefusedForFirst(cfg: Config, s: NodeState, b: VeloBlock, now: u64, other: Reason)
    requires Check(cfg, s, b, now).Refuse? && forall p :: p in b.header.parents ==> p in s.store
    ensures var reason := Check(cfg, s, b, now).reason;
            Wrong(cfg, s, b, now, reason) && (Rank(other) < Rank(reason) ==> !Wrong(cfg, s, b, now, other))
  {
    hide ApplyBlock, MaxParentHeight, MaxParentTimestamp, VerifyPow, CalculateSubsidySplit;
  }

  /** The work check compares the hash with the target byte by byte. */
  lemma {:induction false} WorkIsByteOrder(hash: Hash, target: Target)
    requires hash < Pow256(32)
    ensures VerifyPow(hash, target) <==> !LexLess(target, ToBytes(hash, 32))
  {
    BytesRoundTrip(hash, 32);
    LexOrderIsNumeric(target, ToBytes(hash, 32));
  }

  lemma {:induction false} MissingIsUnknown(cfg: Config, s: NodeState, b: VeloBlock, now: u64)
    requires Check(cfg, s, b, now).MissingParent?
    ensures Check(cfg, s, b, now).parent !in s.store && Check(cfg, s, b, now).parent in b.header.parents
  {
  }

  lemma {:induction false} RewardAtZero()
    ensures CalculateSubsidySplit(0) == (79_077, 4_161)
  {
    assert ShiftRight(INITIAL_BLOCK_REWARD, 0) == 83_238;
  }
}
