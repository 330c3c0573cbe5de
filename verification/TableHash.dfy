/** A block hash that binds headers and gives chosen blocks chosen small hashes: with it runs can be exhibited. */
module TableHash {
  import opened Types
  import opened Validation
  import opened Difficulty
  import opened Mining

  // An injective numbering of headers

  function TriangleSum(n: nat): nat {
    if n == 0 then 0 else TriangleSum(n - 1) + n
  }

  lemma {:induction false} TriangleSumGrows(m: nat, n: nat)
    requires m < n
    ensures TriangleSum(m) + m < TriangleSum(n)
    decreases n
  {
    if m < n - 1 {
      TriangleSumGrows(m, n - 1);
    }
  }

  function PairNumber(a: nat, b: nat): nat {
    TriangleSum(a + b) + b
  }

  lemma {:induction false} PairNumberInjective(a: nat, b: nat, a': nat, b': nat)
    requires PairNumber(a, b) == PairNumber(a', b')
    ensures a == a' && b == b'
  {
    if a + b < a' + b' {
      TriangleSumGrows(a + b, a' + b');
    } else if a' + b' < a + b {
      TriangleSumGrows(a' + b', a + b);
    }
  }

  function ListNumber(xs: seq<nat>): nat {
    if xs == [] then 0 else PairNumber(xs[0], ListNumber(xs[1..])) + 1
  }

  lemma {:induction false} ListNumberInjective(xs: seq<nat>, ys: seq<nat>)
    requires ListNumber(xs) == ListNumber(ys)
    ensures xs == ys
  {
    if xs != [] && ys != [] {
      PairNumberInjective(xs[0], ListNumber(xs[1..]), ys[0], ListNumber(ys[1..]));
      ListNumberInjective(xs[1..], ys[1..]);
      assert xs == [xs[0]] + xs[1..] && ys == [ys[0]] + ys[1..];
    }
  }

  function FieldsNumber(sender: Address, recipient: Address, amount: u64, nonce: u64, proof: seq<byte>): nat {
    ListNumber([sender, recipient, amount, nonce, ListNumber(proof)])
  }

  lemma {:induction false} FieldsNumberInjective(
      s: Address, r: Address, a: u64, n: u64, p: seq<byte>, s': Address, r': Address, a': u64, n': u64, p': seq<byte>)
    requires FieldsNumber(s, r, a, n, p) == FieldsNumber(s', r', a', n', p')
    ensures s == s' && r == r' && a == a' && n == n' && p == p'
  {
    var xs: seq<nat>, ys: seq<nat> := [s, r, a, n, ListNumber(p)], [s', r', a', n', ListNumber(p')];
    hide ListNumber;
    ListNumberInjective(xs, ys);
    assert xs[0] == ys[0] && xs[1] == ys[1] && xs[2] == ys[2] && xs[3] == ys[3] && xs[4] == ys[4];
    ListNumberInjective(p, p');
  }

  function DigestNumber(d: Digest): nat {
    match d
    case Zero => 0
    case TxId(sender, recipient, amount, nonce, proof) =>
      2 * FieldsNumber(sender, recipient, amount, nonce, proof) + 1
    case Pair(left, right) => 2 * PairNumber(DigestNumber(left), DigestNumber(right)) + 2
  }

  lemma {:induction false} DigestNumberInjective(d: Digest, e: Digest)
    requires DigestNumber(d) == DigestNumber(e)
    ensures d == e
    decreases d
  {
    hide PairNumber, FieldsNumber;
    match d
    case Zero =>
    case TxId(s, r, a, n, p) =>
      FieldsNumberInjective(s, r, a, n, p, e.sender, e.recipient, e.amount, e.nonce, e.proof);
    case Pair(left, right) =>
      PairNumberInjective(DigestNumber(left), DigestNumber(right), DigestNumber(e.left), DigestNumber(e.right));
      DigestNumberInjective(left, e.left);
      DigestNumberInjective(right, e.right);
  }

  function IdentityList(b: VeloBlock): seq<nat> {
    [b.header.timestamp, ListNumber(b.header.parents), DigestNumber(b.header.txMerkleRoot), b.header.nonce,
     b.header.height, ListNumber(b.header.difficultyTarget), b.coinbaseMinerAddress, b.coinbaseDevAddress]
  }

  /** What the block hash covers. */
  predicate SameIdentity(a: VeloBlock, b: VeloBlock) {
    && a.header == b.header
    && a.coinbaseMinerAddress == b.coinbaseMinerAddress && a.coinbaseDevAddress == b.coinbaseDevAddress
  }

  lemma {:induction false} IdentityListInjective(a: VeloBlock, b: VeloBlock)
    requires ListNumber(IdentityList(a)) == ListNumber(IdentityList(b))
    ensures SameIdentity(a, b)
  {
    var xs, ys := IdentityList(a), IdentityList(b);
    ListNumberInjective(xs, ys);
    assert xs[0] == ys[0] && xs[1] == ys[1] && xs[2] == ys[2] && xs[3] == ys[3];
    assert xs[4] == ys[4] && xs[5] == ys[5] && xs[6] == ys[6] && xs[7] == ys[7];
    ListNumberInjective(a.header.parents, b.header.parents);
    DigestNumberInjective(a.header.txMerkleRoot, b.header.txMerkleRoot);
    ListNumberInjective(a.header.difficultyTarget, b.header.difficultyTarget);
  }

  // The table

  ghost predicate Listed(known: seq<VeloBlock>, b: VeloBlock) {
    exists i :: 0 <= i < |known| && SameIdentity(known[i], b)
  }

  /** Listed blocks hash to their place in the list, all others above it. */
  ghost function TableHash(known: seq<VeloBlock>, b: VeloBlock): Hash {
    if Listed(known, b) then
      var i :| 0 <= i < |known| && SameIdentity(known[i], b);
      i
    else |known| + ListNumber(IdentityList(b))
  }

  /** The node's parameters around a table hash: every signature passes, and the clock stands at genesis. */
  ghost function TableConfig(k: nat, known: seq<VeloBlock>): Config
    requires known != []
  {
    Config(k, b => TableHash(known, b), tx => true, n => known[0].header.timestamp, DifficultyManager(1, 4), known[0])
  }

  ghost predicate AllDifferent(known: seq<VeloBlock>) {
    forall i, j :: 0 <= i < j < |known| ==> !SameIdentity(known[i], known[j])
  }

  lemma {:induction false} TableConfigFits(k: nat, known: seq<VeloBlock>)
    requires known != [] && AllDifferent(known) && known[0] == FixedGenesisBlock(known[0].header.timestamp)
    ensures var cfg := TableConfig(k, known);
            && Usable(cfg) && HashBinds(cfg)
            && cfg.k == k && cfg.daa == DifficultyManager(1, 4) && cfg.genesis == known[0]
            && (forall tx :: cfg.signatureOk(tx)) && (forall n :: cfg.clock(n) == known[0].header.timestamp)
            && forall i :: 0 <= i < |known| ==> cfg.hashOf(known[i]) == i
  {
    var cfg := TableConfig(k, known);
    forall i | 0 <= i < |known| ensures cfg.hashOf(known[i]) == i {
      assert SameIdentity(known[i], known[i]);
      assert Listed(known, known[i]);
    }
    forall a: VeloBlock, b: VeloBlock | cfg.hashOf(a) == cfg.hashOf(b) ensures SameIdentity(a, b) {
      assert TableHash(known, a) == TableHash(known, b);
      if !Listed(known, a) && !Listed(known, b) {
        IdentityListInjective(a, b);
      }
    }
  }
}
