/** Whether blue sets are k-clusters: only for k = 0. */
module Cluster {
  import opened Types
  import opened Sequences
  import opened Dag
  import opened Colouring
  import opened Chain

  ghost function UpTo(n: nat): (r: set<Hash>)
    ensures forall x: Hash :: x in r <==> x < n
  {
    if n == 0 then {} else UpTo(n - 1) + {n - 1}
  }

  lemma {:induction false} UpToSize(n: nat)
    ensures |UpTo(n)| == n
  {
    if n > 0 {
      UpToSize(n - 1);
    }
  }

  function LineParents(n: nat, h: Hash): seq<Hash> {
    if h == 0 then [] else if h <= n then [h - 1] else if h == n + 1 then [0] else [n, n + 1]
  }

  /** A line 0, 1, ..., n, a side block n+1 on block 0, and a block n+2 merging both. */
  ghost function LineWithSide(n: nat): Graph {
    var blocks := UpTo(n + 3);
    map h | h in blocks :: LineParents(n, h)
  }

  lemma {:induction false} LinePast(n: nat, i: nat)
    requires n >= 1 && i <= n
    ensures Past(LineWithSide(n), i) == UpTo(i)
  {
    var g := LineWithSide(n);
    if i == 0 {
      BelowLeast(g, [], {});
    } else {
      LinePast(n, i - 1);
      OneParentPast(g, i - 1);
      assert UpTo(i) == UpTo(i - 1) + {i - 1};
    }
  }

  lemma {:induction false} SidePast(n: nat)
    requires n >= 1
    ensures Past(LineWithSide(n), n + 1) == {0}
  {
    LinePast(n, 0);
    OneParentPast(LineWithSide(n), 0);
  }

  lemma {:induction false} MergedSide(n: nat)
    requires n >= 1
    ensures Merged(LineWithSide(n), [n, n + 1], n) == {n + 1}
  {
    var g, ps := LineWithSide(n), [n, n + 1];
    LinePast(n, n);
    SidePast(n);
    forall a ensures a in Below(g, ps) <==> a in UpTo(n + 2) {
      BelowStep(g, ps, a);
      assert forall p :: p in ps <==> p == n || p == n + 1;
    }
  }

  ghost predicate LineColoured(c: Cache, i: nat) {
    && i in c && NoDup(c[i].blues) && Elems(c[i].blues) == UpTo(i)
    && |c[i].blues| == i && 2 * c[i].blueScore == Triangle(i)
  }

  lemma {:induction false} OnTopOfLine(g: Graph, k: nat, c: Cache, i: nat, d: GhostdagData)
    requires i >= 1 && WellColoured(g, k, c, [i - 1], d) && i - 1 !in Past(g, i - 1) && LineColoured(c, i - 1)
    ensures NoDup(d.blues) && Elems(d.blues) == UpTo(i) && |d.blues| == i && 2 * d.blueScore == Triangle(i)
  {
    hide WellColoured;
    ChainStep(g, k, c, i - 1, d);
    TriangleNext(i - 1);
  }

  lemma {:induction false} LineStep(n: nat, k: nat, c: Cache, i: nat)
    requires 1 <= i <= n && Consistent(LineWithSide(n), k, c) && LineColoured(c, i - 1)
    ensures LineColoured(c, i)
  {
    hide WellColoured;
    var g := LineWithSide(n);
    assert i in g && g[i] == [i - 1];
    ConsistentColours(g, k, c, i);
    LinePast(n, i - 1);
    OnTopOfLine(g, k, c, i, c[i]);
  }

  lemma {:induction false} LineColours(n: nat, k: nat, c: Cache, i: nat)
    requires n >= 1 && i <= n && Consistent(LineWithSide(n), k, c)
    ensures LineColoured(c, i)
  {
    if i == 0 {
      ConsistentColours(LineWithSide(n), k, c, 0);
    } else {
      LineColours(n, k, c, i - 1);
      LineStep(n, k, c, i);
    }
  }

  lemma {:induction false} SideScore(n: nat, k: nat, c: Cache)
    requires n >= 1 && Consistent(LineWithSide(n), k, c)
    ensures n + 1 in c && c[n + 1].blueScore == 1
  {
    var g := LineWithSide(n);
    LinePast(n, 0);
    LineColours(n, k, c, 0);
    ConsistentColours(g, k, c, n + 1);
    ChainStep(g, k, c, 0, c[n + 1]);
  }

  lemma {:induction false} SideIsBlue(n: nat, k: nat, line: seq<Hash>)
    requires n >= 1 && k >= 1 && forall x :: x in line ==> x <= n
    ensures Colour(LineWithSide(n), k, Ascending({n + 1}), line, []) == (line + [n + 1], [])
  {
    var g := LineWithSide(n);
    forall b | b in line ensures AnticoneCount(g, line, b) == 0 {
      LineHasNoAnticone(n, line, b);
    }
    assert CanBeBlue(g, k, n + 1, line);
    AscendingSpec({n + 1});
    assert Elems([n + 1]) == {n + 1};
    AscendingUnique(Ascending({n + 1}), [n + 1]);
    assert [n + 1][1..] == [];
  }

  lemma {:induction false} LineIsSelected(n: nat, k: nat, c: Cache)
    requires n >= 2 && Consistent(LineWithSide(n), k, c)
    ensures SelectedParent([n, n + 1], c) == Some(n)
  {
    var ps := [n, n + 1];
    LineColours(n, k, c, n);
    SideScore(n, k, c);
    TriangleMonotone(2, n);
    assert n in ps && c[n].blueScore > c[n + 1].blueScore;
  }

  /** The merging block takes the whole line as blue and then the side block, whose check passes. */
  lemma {:induction false} MergeBlues(n: nat, k: nat, c: Cache)
    requires n >= 2 && k >= 1 && Consistent(LineWithSide(n), k, c)
    ensures n in c && n + 2 in c && c[n + 2].blues == ([n] + c[n].blues) + [n + 1]
  {
    var g := LineWithSide(n);
    assert n + 2 in UpTo(n + 3) && g[n + 2] == [n, n + 1];
    assert Coloured(g, k, c, n + 2);
    LineIsSelected(n, k, c);
    LineColours(n, k, c, n);
    assert forall x :: x in c[n].blues ==> x in Elems(c[n].blues);
    AppendNewDisjoint([n], c[n].blues);
    MergedSide(n);
    SideIsBlue(n, k, [n] + c[n].blues);
  }

  lemma {:induction false} LineHasNoAnticone(n: nat, line: seq<Hash>, b: Hash)
    requires n >= 1 && b in line && forall x :: x in line ==> x <= n
    ensures AnticoneCount(LineWithSide(n), line, b) == 0
  {
    var g := LineWithSide(n);
    forall y | y in line ensures !InAnticone(g, b, y) {
      LinePast(n, b);
      LinePast(n, y);
    }
    CountNone(g, line, b);
  }

  lemma {:induction false} CountAllBut(g: Graph, xs: seq<Hash>, x: Hash, z: Hash)
    requires NoDup(xs) && forall y :: y in xs && y != z ==> InAnticone(g, x, y)
    ensures AnticoneCount(g, xs, x) >= |xs| - 1
    ensures z !in xs ==> AnticoneCount(g, xs, x) == |xs|
  {
    if xs == [] {
    } else {
      CountAllBut(g, xs[..|xs| - 1], x, z);
    }
  }

  /** Whatever k >= 1, a side block beside a line of k+1 blocks is coloured blue with k+1 blue blocks in
      its anticone. */
  lemma {:induction false} ClusterFails(k: nat, c: Cache)
    requires k >= 1 && Consistent(LineWithSide(k + 1), k, c)
    ensures k + 3 in c && !KCluster(LineWithSide(k + 1), k, c[k + 3].blues)
  {
    var n := k + 1;
    var g, line := LineWithSide(n), [n] + c[n].blues;
    MergeBlues(n, k, c);
    LineColours(n, k, c, n);
    assert forall x :: x in c[n].blues ==> x in Elems(c[n].blues);
    assert n !in c[n].blues;
    forall y | y in line && y != 0 ensures InAnticone(g, n + 1, y) {
      LinePast(n, y);
      SidePast(n);
    }
    CountAllBut(g, line, n + 1, 0);
    CountSnoc(g, line, n + 1, n + 1);
    assert n + 1 in line + [n + 1];
  }

  lemma {:induction false} OrderedZeroIsCluster(g: Graph, xs: seq<Hash>)
    requires OrderedBound(g, 0, xs)
    ensures KCluster(g, 0, xs)
  {
    forall x | x in xs ensures AnticoneCount(g, xs, x) <= 0 {
      var i :| 0 <= i < |xs| && xs[i] == x;
      forall y | y in xs ensures !InAnticone(g, x, y) {
        var j :| 0 <= j < |xs| && xs[j] == y;
        if i < j {
          NoneLater(g, xs, i, j);
        } else if j < i {
          NoneLater(g, xs, j, i);
        }
      }
      CountNone(g, xs, x);
    }
  }

  lemma {:induction false} NoneLater(g: Graph, xs: seq<Hash>, i: nat, j: nat)
    requires OrderedBound(g, 0, xs) && i < j < |xs|
    ensures !InAnticone(g, xs[i], xs[j]) && !InAnticone(g, xs[j], xs[i])
  {
    CountPositive(g, xs[i + 1..], xs[i], j - i - 1);
  }

  lemma {:induction false} CountPositive(g: Graph, xs: seq<Hash>, x: Hash, i: nat)
    requires i < |xs|
    ensures InAnticone(g, x, xs[i]) ==> AnticoneCount(g, xs, x) >= 1
  {
    if i < |xs| - 1 {
      CountPositive(g, xs[..|xs| - 1], x, i);
    }
  }

  ghost predicate AllClusters(k: nat) {
    forall g: Graph, c: Cache, h: Hash :: Consistent(g, k, c) && h in g ==> KCluster(g, k, c[h].blues)
  }

  /** The colouring keeps every blue set a k-cluster exactly when k is 0. */
  lemma {:induction false} ClustersIffZero(k: nat)
    ensures AllClusters(k) <==> k == 0
  {
    if k == 0 {
      forall g: Graph, c: Cache, h: Hash | Consistent(g, k, c) && h in g ensures KCluster(g, k, c[h].blues) {
        ConsistentColours(g, k, c, h);
        OrderedZeroIsCluster(g, c[h].blues);
      }
    } else {
      var g := LineWithSide(k + 1);
      SmallerParentsDag(g);
      ConsistentExists(g, k);
      var c :| Consistent(g, k, c);
      ClusterFails(k, c);
    }
  }

  // When a block's blue set is a k-cluster

  /** Every candidate the greedy pass accepts has at most `k` blue blocks in its anticone at that moment. */
  ghost predicate AcceptsNarrow(g: Graph, k: nat, candidates: seq<Hash>, blues: seq<Hash>)
    decreases |candidates|
  {
    candidates == [] ||
    if CanBeBlue(g, k, candidates[0], blues)
    then AnticoneCount(g, blues, candidates[0]) <= k
         && AcceptsNarrow(g, k, candidates[1..], blues + [candidates[0]])
    else AcceptsNarrow(g, k, candidates[1..], blues)
  }

  lemma {:induction false} PrefixCluster(g: Graph, k: nat, xs: seq<Hash>, ys: seq<Hash>)
    requires KCluster(g, k, xs + ys)
    ensures KCluster(g, k, xs)
  {
    forall x | x in xs ensures AnticoneCount(g, xs, x) <= k {
      assert x in xs + ys;
      CountSplit(g, xs, ys, x);
    }
  }

  /** The greedy pass starts with the blues it is given. */
  lemma {:induction false} ColourExtends(
      g: Graph, k: nat, candidates: seq<Hash>, blues: seq<Hash>, reds: seq<Hash>)
    ensures blues <= Colour(g, k, candidates, blues, reds).0
    decreases |candidates|
  {
    if candidates != [] {
      ColourExtends(g, k, candidates[1..], blues + [candidates[0]], reds);
      ColourExtends(g, k, candidates[1..], blues, reds + [candidates[0]]);
    }
  }

  /** The greedy pass ends in a k-cluster exactly when it starts with one and accepts narrow candidates only. */
  lemma {:induction false} ColourClusterIff(
      g: Graph, k: nat, candidates: seq<Hash>, blues: seq<Hash>, reds: seq<Hash>)
    requires NoDup(candidates) && forall x :: x in candidates ==> x !in blues
    ensures KCluster(g, k, Colour(g, k, candidates, blues, reds).0) <==>
            KCluster(g, k, blues) && AcceptsNarrow(g, k, candidates, blues)
    decreases |candidates|
  {
    hide KCluster, CanBeBlue, AnticoneCount;
    if candidates != [] {
      var x, rest := candidates[0], candidates[1..];
      assert x in candidates && forall y :: y in rest ==> y in candidates && y != x;
      if CanBeBlue(g, k, x, blues) {
        ColourClusterIff(g, k, rest, blues + [x], reds);
        AcceptedClusterIff(g, k, x, blues);
      } else {
        ColourClusterIff(g, k, rest, blues, reds + [x]);
      }
    }
  }

  lemma {:induction false} AcceptedClusterIff(g: Graph, k: nat, x: Hash, blues: seq<Hash>)
    requires CanBeBlue(g, k, x, blues) && x !in blues
    ensures KCluster(g, k, blues + [x]) <==> KCluster(g, k, blues) && AnticoneCount(g, blues, x) <= k
  {
    hide CanBeBlue;
    if KCluster(g, k, blues + [x]) {
      PrefixCluster(g, k, blues, [x]);
    }
    if KCluster(g, k, blues) {
      AcceptKeepsCluster(g, k, x, blues);
    }
  }

  /** The selected parent is in nobody's anticone among its own blues. */
  lemma {:induction false} InheritedClusterIff(g: Graph, k: nat, sp: Hash, blues: seq<Hash>)
    requires Elems(blues) <= Past(g, sp)
    ensures KCluster(g, k, [sp] + blues) <==> KCluster(g, k, blues)
  {
    forall x ensures AnticoneCount(g, [sp] + blues, x) ==
                     AnticoneCount(g, blues, x) + if InAnticone(g, x, sp) then 1 else 0
    {
      CountSplit(g, [sp], blues, x);
      assert [sp][..0] == [];
      assert AnticoneCount(g, [sp], x) == if InAnticone(g, x, sp) then 1 else 0;
    }
    NoneBelow(g, sp, blues);
    forall x | x in blues ensures !InAnticone(g, x, sp) {
      assert x in Elems(blues);
    }
  }

  /** What the block accepts beside its inheritance is narrow. */
  ghost predicate NarrowAt(g: Graph, k: nat, c: Cache, h: Hash) {
    h in g && h in c && (c[h].selectedParent.Some? ==>
      var sp := c[h].selectedParent.value;
      sp in c && AcceptsNarrow(g, k, Ascending(Merged(g, g[h], sp)), [sp] + c[sp].blues))
  }

  lemma {:induction false} BlockClusterStep(g: Graph, k: nat, c: Cache, h: Hash)
    requires Consistent(g, k, c) && h in g
    ensures c[h].selectedParent.None? ==> KCluster(g, k, c[h].blues) && NarrowAt(g, k, c, h)
    ensures c[h].selectedParent.Some? ==>
              var sp := c[h].selectedParent.value;
              && sp in g && |Past(g, sp)| < |Past(g, h)|
              && (KCluster(g, k, c[h].blues) <==> KCluster(g, k, c[sp].blues) && NarrowAt(g, k, c, h))
  {
    hide AcceptsNarrow, KCluster, OrderedBound, Colour;
    assert Coloured(g, k, c, h);
    if g[h] == [] {
      NothingClusters(g, k);
    } else {
      StepInputs(g, k, c, h);
      var sp := StepShape(g, k, g[h], c);
      PastShrinks(g, h, sp);
      ConsistentColours(g, k, c, sp);
      var candidates, inherited := Ascending(Merged(g, g[h], sp)), [sp] + c[sp].blues;
      AscendingSpec(Merged(g, g[h], sp));
      assert forall y :: y in c[sp].blues ==> y in Elems(c[sp].blues);
      forall x | x in candidates ensures x !in inherited {
        assert x in Elems(candidates);
      }
      AscendingIsNoDup(candidates);
      ColourClusterIff(g, k, candidates, inherited, []);
      InheritedClusterIff(g, k, sp, c[sp].blues);
    }
  }

  lemma {:induction false} AscendingIsNoDup(xs: seq<Hash>)
    requires StrictlyAscending(xs)
    ensures NoDup(xs)
  {
  }

  lemma {:induction false} NothingClusters(g: Graph, k: nat)
    ensures KCluster(g, k, [])
  {
  }

  ghost predicate NarrowBelow(g: Graph, k: nat, c: Cache, h: Hash)
    requires ScoreFalls(c)
  {
    forall a :: OnChain(c, h, a) ==> NarrowAt(g, k, c, a)
  }

  lemma {:induction false} ChainSplits(c: Cache, h: Hash, a: Hash)
    requires ScoreFalls(c) && h in c
    ensures OnChain(c, h, a) <==>
            a == h || (c[h].selectedParent.Some? && OnChain(c, c[h].selectedParent.value, a))
  {
  }

  /** A block's blue set is a k-cluster exactly when, at the block and at every block of its selected chain, each
      accepted candidate had at most k blue blocks in its anticone when it was accepted. */
  lemma {:induction false} BlueSetClusterIff(g: Graph, k: nat, c: Cache, h: Hash)
    requires Consistent(g, k, c) && ScoreFalls(c) && h in g
    ensures h in c && (KCluster(g, k, c[h].blues) <==> NarrowBelow(g, k, c, h))
    decreases |Past(g, h)|
  {
    hide Consistent, ScoreFalls, KCluster, NarrowAt, OnChain, Past;
    InCache(g, k, c, h);
    BlockClusterStep(g, k, c, h);
    forall a ensures OnChain(c, h, a) <==>
                     a == h || (c[h].selectedParent.Some? && OnChain(c, c[h].selectedParent.value, a))
    {
      ChainSplits(c, h, a);
    }
    if c[h].selectedParent.Some? {
      BlueSetClusterIff(g, k, c, c[h].selectedParent.value);
    }
  }

  lemma {:induction false} InCache(g: Graph, k: nat, c: Cache, h: Hash)
    requires Consistent(g, k, c) && h in g
    ensures h in c
  {
  }
}
