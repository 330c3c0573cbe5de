/** The transaction commitment in the block header and what it binds. */
module Merkle {
  import opened Types
  import opened Sequences
  import opened LedgerRules

  /** Hashes neighbours together; a last odd one is paired with itself. */
  function NextLayer(layer: seq<Digest>): (next: seq<Digest>)
    ensures |next| == (|layer| + 1) / 2
  {
    seq((|layer| + 1) / 2, i requires 0 <= i < (|layer| + 1) / 2 => PairAt(layer, i))
  }

  function PairAt(layer: seq<Digest>, i: nat): Digest
    requires 2 * i < |layer|
  {
    Pair(layer[2 * i], if 2 * i + 1 < |layer| then layer[2 * i + 1] else layer[2 * i])
  }

  function MerkleRoot(layer: seq<Digest>): Digest
    decreases |layer|
  {
    if layer == [] then Zero
    else if |layer| == 1 then layer[0]
    else MerkleRoot(NextLayer(layer))
  }

  /** Builds the tree layer by layer. */
  method TransactionMerkleRoot(transactions: seq<Transaction>) returns (root: Digest)
    ensures root == MerkleRoot(Ids(transactions))
  {
    if transactions == [] {
      return Zero;
    }
    var layer := [];
    for i := 0 to |transactions|
      invariant layer == Ids(transactions)[..i]
    {
      layer := layer + [TransactionId(transactions[i])];
    }
    assert layer == Ids(transactions);
    while |layer| > 1
      invariant layer != [] && MerkleRoot(layer) == MerkleRoot(Ids(transactions))
      decreases |layer|
    {
      var next, i := [], 0;
      while i < |layer|
        invariant i <= |layer| + 1 && i == 2 * |next|
        invariant next == NextLayer(layer)[..|next|]
      {
        var right := if i + 1 < |layer| then layer[i + 1] else layer[i];
        next := next + [Pair(layer[i], right)];
        i := i + 2;
      }
      assert next == NextLayer(layer);
      layer := next;
    }
    root := layer[0];
  }

  predicate VerifyTransactionMerkleRoot(b: VeloBlock) {
    b.header.txMerkleRoot == MerkleRoot(Ids(b.transactions))
  }

  // Binding

  function Depth(d: Digest): nat {
    match d
    case Pair(left, _) => Depth(left) + 1
    case _ => 0
  }

  /** A layer of a tree: hashed values of one depth. */
  ghost predicate IsLayer(layer: seq<Digest>, depth: nat) {
    forall i :: 0 <= i < |layer| ==> layer[i] != Zero && Depth(layer[i]) == depth
  }

  lemma {:induction false} NextIsLayer(layer: seq<Digest>, depth: nat)
    requires IsLayer(layer, depth)
    ensures IsLayer(NextLayer(layer), depth + 1)
    ensures NoDup(layer) ==> NoDup(NextLayer(layer))
  {
  }

  lemma {:induction false} RootDepth(layer: seq<Digest>, depth: nat)
    requires IsLayer(layer, depth) && layer != []
    ensures MerkleRoot(layer) != Zero && Depth(MerkleRoot(layer)) >= depth
    ensures |layer| > 1 ==> Depth(MerkleRoot(layer)) > depth
    decreases |layer|
  {
    if |layer| > 1 {
      NextIsLayer(layer, depth);
      RootDepth(NextLayer(layer), depth + 1);
    }
  }

  lemma {:induction false} PairsEqual(xs: seq<Digest>, ys: seq<Digest>, i: nat)
    requires NextLayer(xs) == NextLayer(ys) && 2 * i < |xs|
    ensures 2 * i < |ys| && PairAt(xs, i) == PairAt(ys, i)
  {
    assert |NextLayer(xs)| == |NextLayer(ys)|;
    assert NextLayer(xs)[i] == PairAt(xs, i) && NextLayer(ys)[i] == PairAt(ys, i);
  }

  /** If two layers hash to the same next one and one is longer, it ends in a repetition. */
  lemma {:induction false} LongerRepeats(xs: seq<Digest>, ys: seq<Digest>)
    requires NextLayer(xs) == NextLayer(ys) && |xs| < |ys|
    ensures !NoDup(ys)
  {
    assert |NextLayer(xs)| == |NextLayer(ys)|;
    PairsEqual(ys, xs, |NextLayer(xs)| - 1);
    assert ys[|ys| - 2] == ys[|ys| - 1];
  }

  lemma {:induction false} NextLayerInjective(xs: seq<Digest>, ys: seq<Digest>)
    requires NoDup(xs) && NoDup(ys) && NextLayer(xs) == NextLayer(ys)
    ensures xs == ys
  {
    if |xs| < |ys| {
      LongerRepeats(xs, ys);
    } else if |ys| < |xs| {
      LongerRepeats(ys, xs);
    } else {
      forall i | 0 <= i < |xs| ensures xs[i] == ys[i] {
        PairsEqual(xs, ys, i / 2);
      }
    }
  }

  /** Duplicate-free lists with one root are one list, whatever their lengths. */
  lemma {:induction false} MerkleBinding(xs: seq<Digest>, ys: seq<Digest>, depth: nat)
    requires IsLayer(xs, depth) && IsLayer(ys, depth) && NoDup(xs) && NoDup(ys)
    requires MerkleRoot(xs) == MerkleRoot(ys)
    ensures xs == ys
    decreases |xs|
  {
    if xs == [] {
      if ys != [] {
        RootDepth(ys, depth);
      }
    } else {
      RootDepth(xs, depth);
      if |xs| == 1 || |ys| <= 1 {
        if ys != [] {
          RootDepth(ys, depth);
        }
      } else {
        NextIsLayer(xs, depth);
        NextIsLayer(ys, depth);
        MerkleBinding(NextLayer(xs), NextLayer(ys), depth + 1);
        NextLayerInjective(xs, ys);
      }
    }
  }

  /** Repeating the last of an odd number of identifiers (three or more) never changes the root. */
  lemma {:induction false} OddTailCollides(xs: seq<Digest>)
    requires |xs| > 1 && |xs| % 2 == 1
    ensures var longer := xs + [xs[|xs| - 1]];
            longer != xs && MerkleRoot(longer) == MerkleRoot(xs)
  {
    var longer := xs + [xs[|xs| - 1]];
    assert NextLayer(longer) == NextLayer(xs);
  }

  /** The hashed values a digest was made from, left to right. */
  function Leaves(d: Digest): seq<Digest> {
    match d
    case Pair(left, right) => Leaves(left) + Leaves(right)
    case _ => [d]
  }

  ghost function LayerLeaves(layer: seq<Digest>): seq<Digest> {
    if layer == [] then [] else Leaves(layer[0]) + LayerLeaves(layer[1..])
  }

  lemma {:induction false} NextLayerFront(layer: seq<Digest>)
    requires |layer| >= 2
    ensures NextLayer(layer) == [Pair(layer[0], layer[1])] + NextLayer(layer[2..])
  {
    var next, rest := NextLayer(layer), layer[2..];
    assert next[0] == PairAt(layer, 0);
    forall i | 1 <= i < |next| ensures next[i] == NextLayer(rest)[i - 1] {
      assert next[i] == PairAt(layer, i) && NextLayer(rest)[i - 1] == PairAt(rest, i - 1);
    }
  }

  /** The next layer lists the same leaves in the same order, and may repeat the last few. */
  lemma {:induction false} NextLayerLeaves(layer: seq<Digest>)
    ensures LayerLeaves(layer) <= LayerLeaves(NextLayer(layer))
    ensures Elems(LayerLeaves(NextLayer(layer))) == Elems(LayerLeaves(layer))
    decreases |layer|
  {
    if |layer| == 1 {
      var x := layer[0];
      assert NextLayer(layer) == [Pair(x, x)] && [Pair(x, x)][1..] == [] && layer[1..] == [];
      assert LayerLeaves(layer) == Leaves(x) && LayerLeaves(NextLayer(layer)) == Leaves(x) + Leaves(x);
      ElemsConcat(Leaves(x), Leaves(x));
    } else if |layer| >= 2 {
      var x, y, rest := layer[0], layer[1], layer[2..];
      NextLayerFront(layer);
      NextLayerLeaves(rest);
      assert layer[1..][1..] == rest && layer[1..][0] == y;
      var pair := Pair(x, y);
      assert ([pair] + NextLayer(rest))[1..] == NextLayer(rest);
      assert LayerLeaves(layer) == Leaves(x) + (Leaves(y) + LayerLeaves(rest));
      assert LayerLeaves(layer) == Leaves(pair) + LayerLeaves(rest);
      assert LayerLeaves(NextLayer(layer)) == Leaves(pair) + LayerLeaves(NextLayer(rest));
      ElemsConcat(Leaves(pair), LayerLeaves(rest));
      ElemsConcat(Leaves(pair), LayerLeaves(NextLayer(rest)));
    }
  }

  lemma {:induction false} LayerOfLeaves(layer: seq<Digest>)
    requires IsLayer(layer, 0)
    ensures LayerLeaves(layer) == layer
    decreases |layer|
  {
    if layer != [] {
      assert !layer[0].Pair?;
      LayerOfLeaves(layer[1..]);
    }
  }

  lemma {:induction false} RootLeaves(layer: seq<Digest>)
    requires layer != []
    ensures LayerLeaves(layer) <= Leaves(MerkleRoot(layer))
    ensures Elems(Leaves(MerkleRoot(layer))) == Elems(LayerLeaves(layer))
    decreases |layer|
  {
    if |layer| == 1 {
      assert layer[1..] == [];
      assert LayerLeaves(layer) == Leaves(layer[0]);
    } else {
      NextLayerLeaves(layer);
      RootLeaves(NextLayer(layer));
    }
  }

  /** Read left to right, the leaves of a block's root begin with its transactions' identifiers and hold no other. */
  lemma {:induction false} RootListsIds(b: VeloBlock)
    requires VerifyTransactionMerkleRoot(b) && b.transactions != []
    ensures Ids(b.transactions) <= Leaves(b.header.txMerkleRoot)
    ensures Elems(Leaves(b.header.txMerkleRoot)) == Elems(Ids(b.transactions))
  {
    var ids := Ids(b.transactions);
    RootLeaves(ids);
    LayerOfLeaves(ids);
  }

  /** Two transactions share an identifier exactly when sender, recipient, amount, nonce and proof agree. */
  lemma {:induction false} IdBinds(a: Transaction, b: Transaction)
    ensures TransactionId(a) == TransactionId(b) <==>
            && a.sender == b.sender && a.recipient == b.recipient && a.amount == b.amount && a.nonce == b.nonce
            && a.publicKey + a.signature == b.publicKey + b.signature
  {
  }

  /** `xs` is the only list of identifiers with its root. */
  ghost predicate RootBinds(xs: seq<Digest>) {
    forall ys {:trigger IsLayer(ys, 0)} :: IsLayer(ys, 0) && MerkleRoot(ys) == MerkleRoot(xs) ==> ys == xs
  }

  predicate PowerOfTwo(n: nat) {
    n == 1 || (n > 1 && n % 2 == 0 && PowerOfTwo(n / 2))
  }

  lemma {:induction false} FullTreeBinds(xs: seq<Digest>, ys: seq<Digest>, depth: nat)
    requires IsLayer(xs, depth) && IsLayer(ys, depth) && NoDup(xs) && PowerOfTwo(|xs|)
    requires MerkleRoot(xs) == MerkleRoot(ys)
    ensures xs == ys
    decreases |xs|
  {
    RootDepth(xs, depth);
    if ys != [] {
      RootDepth(ys, depth);
      if |xs| > 1 {
        NextIsLayer(xs, depth);
        NextIsLayer(ys, depth);
        FullTreeBinds(NextLayer(xs), NextLayer(ys), depth + 1);
        if |ys| < |xs| {
          LongerRepeats(ys, xs);
        }
        forall i | 0 <= i < |xs| ensures xs[i] == ys[i] {
          PairsEqual(xs, ys, i / 2);
        }
      }
    }
  }

  function Unpair(layer: seq<Digest>): seq<Digest>
    requires forall d :: d in layer ==> d.Pair?
  {
    seq(2 * |layer|, k requires 0 <= k < 2 * |layer| =>
      if k % 2 == 0 then layer[k / 2].left else layer[k / 2].right)
  }

  lemma {:induction false} UnpairUndone(layer: seq<Digest>)
    requires forall d :: d in layer ==> d.Pair?
    ensures NextLayer(Unpair(layer)) == layer
  {
    var flat := Unpair(layer);
    forall i | 0 <= i < |layer| ensures NextLayer(flat)[i] == layer[i] {
      assert NextLayer(flat)[i] == PairAt(flat, i) && layer[i].Pair?;
    }
  }

  /** Any other number of identifiers leaves room for a longer list of the same ones: an odd layer of the
      tree, if not its root, pairs its last entry with itself. */
  lemma {:induction false} PartialTreeCollides(xs: seq<Digest>) returns (ys: seq<Digest>)
    requires xs != [] && !PowerOfTwo(|xs|)
    ensures |ys| > |xs| && MerkleRoot(ys) == MerkleRoot(xs) && forall y :: y in ys ==> y in xs
    decreases |xs|
  {
    if |xs| % 2 == 1 {
      OddTailCollides(xs);
      ys := xs + [xs[|xs| - 1]];
    } else {
      var next := NextLayer(xs);
      var longer := PartialTreeCollides(next);
      forall d | d in longer ensures d.Pair? && d.left in xs && d.right in xs {
        var i :| 0 <= i < |next| && next[i] == d;
        assert d == PairAt(xs, i);
      }
      ys := Unpair(longer);
      UnpairUndone(longer);
      forall y | y in ys ensures y in xs {
        var k :| 0 <= k < |ys| && ys[k] == y;
        assert longer[k / 2] in longer;
      }
    }
  }

  /** The root of different identifiers binds the list exactly when the list is empty or its length is a
      power of two. */
  lemma {:induction false} RootBindsIffFullTree(xs: seq<Digest>)
    requires IsLayer(xs, 0) && NoDup(xs)
    ensures RootBinds(xs) <==> xs == [] || PowerOfTwo(|xs|)
  {
    if xs == [] || PowerOfTwo(|xs|) {
      forall ys | IsLayer(ys, 0) && MerkleRoot(ys) == MerkleRoot(xs) ensures ys == xs {
        if xs == [] {
          if ys != [] {
            RootDepth(ys, 0);
          }
        } else {
          FullTreeBinds(xs, ys, 0);
        }
      }
    } else {
      var ys := PartialTreeCollides(xs);
      assert IsLayer(ys, 0) by {
        forall i | 0 <= i < |ys| ensures ys[i] != Zero && Depth(ys[i]) == 0 {
          assert ys[i] in xs;
        }
      }
    }
  }

  /** Two blocks with one commitment that both pass the root check and that some ledger accepts carry
      the same transaction identifiers in the same order. */
  lemma {:induction false} CommitmentBindsTransactions(a: VeloBlock, la: Ledger, b: VeloBlock, lb: Ledger)
    requires a.header.txMerkleRoot == b.header.txMerkleRoot
    requires VerifyTransactionMerkleRoot(a) && VerifyTransactionMerkleRoot(b)
    requires ApplyBlock(la, a).Ok? && ApplyBlock(lb, b).Ok?
    ensures Ids(a.transactions) == Ids(b.transactions)
  {
    AcceptedIds(a, la);
    AcceptedIds(b, lb);
    MerkleBinding(Ids(a.transactions), Ids(b.transactions), 0);
  }

  lemma {:induction false} AcceptedIds(b: VeloBlock, l: Ledger)
    requires ApplyBlock(l, b).Ok?
    ensures NoDup(Ids(b.transactions)) && IsLayer(Ids(b.transactions), 0)
  {
    if b.header.height > 0 {
      AppliedIdsFresh(ScratchOf(l), b.transactions, b.coinbaseMinerAddress, b.coinbaseDevAddress);
    }
  }
}
