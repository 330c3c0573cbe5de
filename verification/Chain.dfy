/** Stores in which every block names one parent, as the mining loop builds them. */
module Chain {
  import opened Types
  import opened Sequences
  import opened Sums
  import opened Dag
  import opened Colouring
  import opened ForkChoice
  import opened Emission
  import opened Replay

  function HeightOf(store: Store, h: Hash): nat
    requires h in store
  {
    store[h].header.height
  }

  ghost predicate ChainLink(store: Store, h: Hash)
    requires h in store
  {
    var ps := store[h].header.parents;
    if ps == [] then HeightOf(store, h) == 0
    else |ps| == 1 && ps[0] in store && HeightOf(store, h) == HeightOf(store, ps[0]) + 1
  }

  /** One parent per block and heights in steps of one; forks are allowed. */
  ghost predicate SingleParent(store: Store) {
    forall h {:trigger ChainLink(store, h)} :: h in store ==> ChainLink(store, h)
  }

  lemma {:induction false} OneParentPast(g: Graph, p: Hash)
    ensures Below(g, [p]) == Past(g, p) + {p}
    ensures p !in Past(g, p) ==> Merged(g, [p], p) == {}
  {
    forall a ensures a in Below(g, [p]) <==> a in Past(g, p) + {p} {
      BelowStep(g, [p], a);
      assert p in [p];
    }
  }

  /** A block at height n has its n ancestors as blues, no red anywhere below it, and score n(n+1)/2. */
  lemma {:induction false} ChainColours(store: Store, k: nat, c: Cache, h: Hash)
    requires Consistent(GraphOf(store), k, c) && ScoreFalls(c) && SingleParent(store) && h in store
    ensures h in c && |c[h].blues| == HeightOf(store, h)
    ensures c[h].reds == [] && ChainReds(c, h) == {}
    ensures 2 * c[h].blueScore == Triangle(HeightOf(store, h))
    decreases |Past(GraphOf(store), h)|
  {
    var g := GraphOf(store);
    assert ChainLink(store, h);
    ConsistentColours(g, k, c, h);
    if g[h] == [] {
      RootColours(c, h);
    } else {
      hide ScoreFalls, ChainReds, Triangle;
      var p := g[h][0];
      assert g[h] == [p];
      PastShrinks(g, h, p);
      ChainColours(store, k, c, p);
      ChainStep(g, k, c, p, c[h]);
      ChainRedsStep(c, h, p);
      TriangleNext(HeightOf(store, p));
    }
  }

  lemma {:induction false} RootColours(c: Cache, h: Hash)
    requires ScoreFalls(c) && h in c && c[h] == GhostdagData(0, None, [], [])
    ensures ChainReds(c, h) == {} && Triangle(0) == 0
  {
  }

  lemma {:induction false} ChainRedsStep(c: Cache, h: Hash, sp: Hash)
    requires ScoreFalls(c) && h in c && c[h].selectedParent == Some(sp)
    ensures ChainReds(c, h) == Elems(c[h].reds) + ChainReds(c, sp)
  {
  }

  lemma {:induction false} ChainStep(g: Graph, k: nat, c: Cache, p: Hash, d: GhostdagData)
    requires WellColoured(g, k, c, [p], d) && p !in Past(g, p)
    ensures d.selectedParent == Some(p) && p in c
    ensures |d.blues| == |c[p].blues| + 1 && d.reds == []
    ensures NoDup(d.blues) && Elems(d.blues) == {p} + Elems(c[p].blues)
    ensures d.blueScore == c[p].blueScore + |d.blues|
  {
    OneParentPast(g, p);
    OnlyInherited(d.blues, d.reds, p, c[p].blues);
  }

  lemma {:induction false} OnlyInherited(blues: seq<Hash>, reds: seq<Hash>, p: Hash, inherited: seq<Hash>)
    requires NoDup(blues) && Elems(blues) !! Elems(reds) && [p] + inherited <= blues
    requires Elems(blues) + Elems(reds) == {p} + Elems(inherited)
    ensures |blues| == |inherited| + 1 && reds == [] && Elems(blues) == {p} + Elems(inherited)
  {
    var own := [p] + inherited;
    assert own == blues[..|own|];
    ElemsConcat([p], inherited);
    assert Elems([p]) == {p};
    assert forall x :: x in own ==> x in blues;
    assert Elems(own) <= Elems(blues);
    ElemsEmpty(reds);
    NoDupSize(blues);
    NoDupSize(own);
  }

  lemma {:induction false} TriangleNext(n: nat)
    ensures Triangle(n + 1) == Triangle(n) + 2 * (n + 1)
  {
  }

  /** On such stores the fork choice is the longest chain, lowest hash on ties. */
  lemma {:induction false} LongestChainRule(store: Store, k: nat, c: Cache, a: Hash, b: Hash)
    requires Consistent(GraphOf(store), k, c) && SingleParent(store) && a in store && b in store
    ensures Better(c, a, b) <==>
            HeightOf(store, a) > HeightOf(store, b) || (HeightOf(store, a) == HeightOf(store, b) && a < b)
  {
    ConsistentFalls(GraphOf(store), k, c);
    ChainColours(store, k, c, a);
    ChainColours(store, k, c, b);
    var m, n := HeightOf(store, a), HeightOf(store, b);
    if m < n {
      TriangleStep(m, n);
    } else if n < m {
      TriangleStep(n, m);
    }
  }

  lemma {:induction false} GenesisMints(store: Store, h: Hash)
    requires h in store && Past(GraphOf(store), h) == {} && HeightOf(store, h) == 0
    ensures SetSum(Past(GraphOf(store), h) + {h}, Mints(store)) == Issuance(0)
  {
    assert Past(GraphOf(store), h) + {h} == {} + {h};
    SumInsert({}, Mints(store), h);
  }

  lemma {:induction false} ChildMints(store: Store, below: set<Hash>, h: Hash, height: nat)
    requires below <= store.Keys && h in store && h !in below && HeightOf(store, h) == height + 1
    requires SetSum(below, Mints(store)) == Issuance(height)
    ensures SetSum(below + {h}, Mints(store)) == Issuance(height + 1)
  {
    SumInsert(below, Mints(store), h);
  }

  /** A block and its ancestors mint what heights 1 to its own pay. */
  lemma {:induction false} ChainMints(store: Store, h: Hash)
    requires IsDag(GraphOf(store)) && SingleParent(store) && h in store
    ensures Past(GraphOf(store), h) <= store.Keys
    ensures SetSum(Past(GraphOf(store), h) + {h}, Mints(store)) == Issuance(HeightOf(store, h))
    decreases |Past(GraphOf(store), h)|
  {
    hide SetSum, Issuance, Mints;
    var g := GraphOf(store);
    assert ChainLink(store, h);
    PastKnown(g, g[h]);
    if g[h] == [] {
      BelowLeast(g, [], {});
      GenesisMints(store, h);
    } else {
      var p := g[h][0];
      assert g[h] == [p];
      PastShrinks(g, h, p);
      ChainMints(store, p);
      OneParentPast(g, p);
      ChildMints(store, Past(g, h), h, HeightOf(store, p));
    }
  }

  /** Replaying any single-parent chain, with whatever transactions, leaves at most 20,999,065,452,762
      base units in circulation. */
  lemma {:induction false} ChainSupplyCap(store: Store, k: nat, c: Cache, tip: Hash)
    requires Consistent(GraphOf(store), k, c) && ScoreFalls(c) && SingleParent(store) && tip in store
    requires RecomputeLedger(store, c, tip).Ok?
    ensures MapSum(RecomputeLedger(store, c, tip).value.balances) <= Issuance(HeightOf(store, tip)) <= SUPPLY_LIMIT
  {
    SupplyEquation(store, k, c, tip);
    ChainMints(store, tip);
    var blocks := Past(GraphOf(store), tip) + {tip};
    SumNonNegative(blocks, TransactionCounts(store));
    SupplyCap(HeightOf(store, tip));
  }

  /** On any single-parent chain a tip with a transaction cannot be recomputed. */
  lemma {:induction false} ChainTipWithTransactionFails(store: Store, k: nat, c: Cache, tip: Hash)
    requires Consistent(GraphOf(store), k, c) && ScoreFalls(c) && SingleParent(store) && tip in store
    requires store[tip].transactions != []
    ensures RecomputeLedger(store, c, tip).Err?
  {
    ChainColours(store, k, c, tip);
    TransactionInTipFails(store, k, c, tip);
  }
}
