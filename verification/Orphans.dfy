/** Blocks waiting for a missing parent. */
module Orphans {
  import opened Types

  type Waiting = map<Hash, seq<VeloBlock>>

  datatype Pool = Pool(waitingOn: Waiting, maxSize: nat, currentSize: nat)

  function WaitingFor(w: Waiting, parent: Hash): seq<VeloBlock> {
    if parent in w then w[parent] else []
  }

  function SaturatingSub(a: nat, b: nat): nat {
    if b <= a then a - b else 0
  }

  /** Buffers a block under its missing parent unless the pool is full. */
  function PoolInsert(p: Pool, missingParent: Hash, block: VeloBlock): Pool {
    if p.currentSize >= p.maxSize then p
    else p.(waitingOn := p.waitingOn[missingParent := WaitingFor(p.waitingOn, missingParent) + [block]],
            currentSize := p.currentSize + 1)
  }

  /** Removes and returns the blocks waiting for a hash; the counter saturates at 0. */
  function PoolTake(p: Pool, resolved: Hash): (Pool, seq<VeloBlock>) {
    if resolved !in p.waitingOn then (p, [])
    else
      var ready := p.waitingOn[resolved];
      (p.(waitingOn := p.waitingOn - {resolved},
          currentSize := SaturatingSub(p.currentSize, |ready|)), ready)
  }

  // What is buffered

  ghost function Bag(w: Waiting, keys: set<Hash>): multiset<VeloBlock>
    requires keys <= w.Keys
  {
    if keys == {} then multiset{}
    else
      var k :| k in keys;
      multiset(w[k]) + Bag(w, keys - {k})
  }

  ghost function Buffered(p: Pool): multiset<VeloBlock> {
    Bag(p.waitingOn, p.waitingOn.Keys)
  }

  lemma {:induction false} BagRemove(w: Waiting, keys: set<Hash>, k: Hash)
    requires keys <= w.Keys && k in keys
    ensures Bag(w, keys) == multiset(w[k]) + Bag(w, keys - {k})
    decreases |keys|
  {
    var pick :| pick in keys && Bag(w, keys) == multiset(w[pick]) + Bag(w, keys - {pick});
    if pick != k {
      BagRemove(w, keys - {pick}, k);
      BagRemove(w, keys - {k}, pick);
      assert keys - {pick} - {k} == keys - {k} - {pick};
    }
  }

  lemma {:induction false} BagAgree(w: Waiting, w': Waiting, keys: set<Hash>)
    requires keys <= w.Keys && keys <= w'.Keys && forall k :: k in keys ==> w[k] == w'[k]
    ensures Bag(w, keys) == Bag(w', keys)
    decreases |keys|
  {
    if keys == {} {
    } else {
      var k :| k in keys;
      BagAgree(w, w', keys - {k});
      BagRemove(w, keys, k);
      BagRemove(w', keys, k);
    }
  }

  lemma {:induction false} BagAppend(w: Waiting, k: Hash, block: VeloBlock)
    ensures var w' := w[k := WaitingFor(w, k) + [block]];
            Bag(w', w'.Keys) == Bag(w, w.Keys) + multiset{block}
  {
    var w' := w[k := WaitingFor(w, k) + [block]];
    var others := w.Keys - {k};
    BagRemove(w', w'.Keys, k);
    assert w'.Keys - {k} == others;
    BagAgree(w, w', others);
    assert multiset(WaitingFor(w, k) + [block]) == multiset(WaitingFor(w, k)) + multiset{block};
    if k in w {
      BagRemove(w, w.Keys, k);
    } else {
      assert others == w.Keys;
    }
  }

  lemma {:induction false} BagWithout(w: Waiting, k: Hash)
    requires k in w
    ensures Bag(w, w.Keys) == multiset(w[k]) + Bag(w - {k}, (w - {k}).Keys)
  {
    BagRemove(w, w.Keys, k);
    assert (w - {k}).Keys == w.Keys - {k};
    BagAgree(w, w - {k}, w.Keys - {k});
  }

  /** The counter is the number of buffered blocks and stays within the capacity. */
  ghost predicate PoolValid(p: Pool) {
    p.currentSize == |Buffered(p)| && p.currentSize <= p.maxSize
  }

  /** Insertion keeps the counter exact and loses the block only when the pool is full. */
  lemma {:induction false} InsertKeepsPool(p: Pool, parent: Hash, block: VeloBlock)
    requires PoolValid(p)
    ensures PoolValid(PoolInsert(p, parent, block))
    ensures Buffered(PoolInsert(p, parent, block)) ==
            Buffered(p) + if p.currentSize < p.maxSize then multiset{block} else multiset{}
  {
    if p.currentSize < p.maxSize {
      BagAppend(p.waitingOn, parent, block);
    }
  }

  /** A block that finds room waits last in line for its parent, and no other line changes. */
  lemma {:induction false} InsertQueues(p: Pool, parent: Hash, block: VeloBlock, other: Hash)
    ensures WaitingFor(PoolInsert(p, parent, block).waitingOn, other) ==
            WaitingFor(p.waitingOn, other) + if other == parent && p.currentSize < p.maxSize then [block] else []
  {
  }

  /** Taking keeps the counter exact; what is taken and what stays are what was there. */
  lemma {:induction false} TakeKeepsPool(p: Pool, resolved: Hash)
    requires PoolValid(p)
    ensures var (p', ready) := PoolTake(p, resolved);
            && PoolValid(p')
            && Buffered(p') + multiset(ready) == Buffered(p)
            && p'.currentSize + |ready| == p.currentSize
            && resolved !in p'.waitingOn
            && ready == WaitingFor(p.waitingOn, resolved)
            && (forall k :: k != resolved ==> WaitingFor(p'.waitingOn, k) == WaitingFor(p.waitingOn, k))
  {
    if resolved in p.waitingOn {
      BagWithout(p.waitingOn, resolved);
    }
  }

  /** The pool as the object the node updates in place. */
  class OrphanPool {
    var waitingOn: Waiting
    const maxSize: nat
    var currentSize: nat

    constructor (maxSize: nat)
      ensures Value() == Pool(map[], maxSize, 0)
      ensures PoolValid(Value())
    {
      this.waitingOn := map[];
      this.maxSize := maxSize;
      this.currentSize := 0;
    }

    ghost function Value(): Pool
      reads this
    {
      Pool(waitingOn, maxSize, currentSize)
    }

    method Insert(missingParent: Hash, block: VeloBlock)
      requires PoolValid(Value())
      modifies this
      ensures Value() == PoolInsert(old(Value()), missingParent, block)
      ensures PoolValid(Value())
      ensures Buffered(Value()) ==
              old(Buffered(Value())) + if old(currentSize) < maxSize then multiset{block} else multiset{}
    {
      InsertKeepsPool(Value(), missingParent, block);
      if currentSize >= maxSize {
        return;
      }
      waitingOn := waitingOn[missingParent := WaitingFor(waitingOn, missingParent) + [block]];
      currentSize := currentSize + 1;
    }

    method TakeReady(resolvedHash: Hash) returns (ready: seq<VeloBlock>)
      requires PoolValid(Value())
      modifies this
      ensures (Value(), ready) == PoolTake(old(Value()), resolvedHash)
      ensures PoolValid(Value()) && resolvedHash !in waitingOn
      ensures Buffered(Value()) + multiset(ready) == old(Buffered(Value()))
    {
      TakeKeepsPool(Value(), resolvedHash);
      ready := [];
      if resolvedHash in waitingOn {
        ready := waitingOn[resolvedHash];
        waitingOn := waitingOn - {resolvedHash};
        currentSize := SaturatingSub(currentSize, |ready|);
      }
    }
  }
}
