/** The linear order in which a tip's blocks are replayed. */
module LinearOrder {
  import opened Types
  import opened Sequences
  import opened Dag
  import opened Colouring

  /** One chain block's contribution: its blues and reds sorted by hash, then the block itself. */
  function WalkStep(c: Cache, h: Hash, order: seq<Hash>): seq<Hash>
    requires h in c
  {
    AppendNew(AppendNew(order, Sort(c[h].blues + c[h].reds)), [h])
  }

  /** The walk down the selected chain. */
  ghost function Walk(c: Cache, current: Option<Hash>, order: seq<Hash>): seq<Hash>
    requires ScoreFalls(c)
    decreases ChainMeasure(c, current)
  {
    if current.None? || current.value !in c then order
    else
      assert FallsAt(c, current.value);
      Walk(c, c[current.value].selectedParent, WalkStep(c, current.value, order))
  }

  function ChainMeasure(c: Cache, current: Option<Hash>): nat {
    if current.None? || current.value !in c then 0 else c[current.value].blueScore + 1
  }

  ghost function LinearSort(c: Cache, tip: Hash): seq<Hash>
    requires ScoreFalls(c)
  {
    Reverse(Walk(c, Some(tip), []))
  }

  lemma {:induction false} WalkStepElems(c: Cache, h: Hash, order: seq<Hash>)
    requires h in c
    ensures Elems(WalkStep(c, h, order)) == Elems(order) + Elems(c[h].blues) + Elems(c[h].reds) + {h}
    ensures NoDup(order) ==> NoDup(WalkStep(c, h, order))
  {
    var local := Sort(c[h].blues + c[h].reds);
    ElemsConcat(c[h].blues, c[h].reds);
    AppendNewElems(order, local);
    AppendNewElems(AppendNew(order, local), [h]);
    assert Elems([h]) == {h};
  }

  lemma {:induction false} WalkUnfold(c: Cache, h: Hash, order: seq<Hash>)
    requires ScoreFalls(c) && h in c
    ensures Walk(c, Some(h), order) == Walk(c, c[h].selectedParent, WalkStep(c, h, order))
  {
  }

  lemma {:induction false} WalkElems(g: Graph, k: nat, c: Cache, h: Hash, order: seq<Hash>)
    requires Consistent(g, k, c) && ScoreFalls(c) && h in g
    ensures Elems(Walk(c, Some(h), order)) == Elems(order) + Past(g, h) + {h}
    decreases |Past(g, h)|
  {
    ConsistentColours(g, k, c, h);
    WalkStepElems(c, h, order);
    WalkUnfold(c, h, order);
    if g[h] == [] {
      BelowLeast(g, [], {});
    } else {
      var sp := c[h].selectedParent.value;
      PastShrinks(g, h, sp);
      WalkElems(g, k, c, sp, WalkStep(c, h, order));
      ColoursCoverPast(g, c, h, sp);
    }
  }

  lemma {:induction false} WalkNoDup(c: Cache, current: Option<Hash>, order: seq<Hash>)
    requires ScoreFalls(c) && NoDup(order)
    ensures NoDup(Walk(c, current, order))
    decreases ChainMeasure(c, current)
  {
    if current.Some? && current.value in c {
      assert FallsAt(c, current.value);
      WalkStepElems(c, current.value, order);
      WalkNoDup(c, c[current.value].selectedParent, WalkStep(c, current.value, order));
    }
  }

  lemma {:induction false} ColoursCoverPast(g: Graph, c: Cache, h: Hash, sp: Hash)
    requires h in g && h in c && BuiltOn(g, c, g[h], c[h], sp)
    requires Elems(c[h].blues) <= Past(g, h) && Elems(c[h].reds) <= Past(g, h)
    ensures Past(g, h) == Elems(c[h].blues) + Elems(c[h].reds) + Past(g, sp) + {sp}
  {
    MergedCompletes(g, h, sp);
    assert Merged(g, g[h], sp) <= Elems(c[h].blues) + Elems(c[h].reds);
  }

  /** The order lists the tip and every block of its past exactly once, and nothing else. */
  lemma {:induction false} ExactlyOnce(g: Graph, k: nat, c: Cache, tip: Hash)
    requires Consistent(g, k, c) && tip in g
    ensures ScoreFalls(c)
    ensures NoDup(LinearSort(c, tip)) && Elems(LinearSort(c, tip)) == Past(g, tip) + {tip}
  {
    ConsistentFalls(g, k, c);
    WalkElems(g, k, c, tip, []);
    WalkNoDup(c, Some(tip), []);
    ReverseElems(Walk(c, Some(tip), []));
  }

  lemma {:induction false} WalkExtends(c: Cache, current: Option<Hash>, order: seq<Hash>)
    requires ScoreFalls(c)
    ensures order <= Walk(c, current, order)
    decreases ChainMeasure(c, current)
  {
    if current.Some? && current.value in c {
      assert FallsAt(c, current.value);
      WalkExtends(c, c[current.value].selectedParent, WalkStep(c, current.value, order));
    }
  }

  /** A chain block's first step lists its blues and reds, sorted, and then the block. */
  lemma {:induction false} FirstStep(c: Cache, tip: Hash) returns (local: seq<Hash>)
    requires tip in c && NoDup(c[tip].blues) && NoDup(c[tip].reds) && Elems(c[tip].blues) !! Elems(c[tip].reds)
    requires tip !in c[tip].blues && tip !in c[tip].reds
    ensures local == Ascending(Elems(c[tip].blues) + Elems(c[tip].reds))
    ensures Elems(local) == Elems(c[tip].blues) + Elems(c[tip].reds) && NoDup(local) && tip !in local
    ensures WalkStep(c, tip, []) == local + [tip]
  {
    var own := c[tip].blues + c[tip].reds;
    ElemsConcat(c[tip].blues, c[tip].reds);
    NoDupConcat(c[tip].blues, c[tip].reds);
    local := Sort(own);
    SortIsAscending(own);
    AscendingSpec(Elems(own));
    assert tip !in Elems(local);
    AppendNewDisjoint([], local);
    assert [] + local == local;
    AppendNewDisjoint(local, [tip]);
  }

  /** The walk begins with the tip's own blues and reds, sorted, and then the tip. */
  lemma {:induction false} WalkHead(g: Graph, k: nat, c: Cache, tip: Hash) returns (local: seq<Hash>)
    requires Consistent(g, k, c) && ScoreFalls(c) && tip in g
    ensures local == Ascending(Elems(c[tip].blues) + Elems(c[tip].reds))
    ensures Elems(local) == Elems(c[tip].blues) + Elems(c[tip].reds) && NoDup(local) && tip !in local
    ensures local + [tip] <= Walk(c, Some(tip), [])
  {
    ConsistentColours(g, k, c, tip);
    assert tip !in Past(g, tip);
    assert tip !in Elems(c[tip].blues) && tip !in Elems(c[tip].reds);
    local := FirstStep(c, tip);
    assert FallsAt(c, tip);
    WalkExtends(c, c[tip].selectedParent, local + [tip]);
  }

  lemma {:induction false} NoDupConcat<T>(xs: seq<T>, ys: seq<T>)
    requires NoDup(xs) && NoDup(ys) && Elems(xs) !! Elems(ys)
    ensures NoDup(xs + ys)
  {
    var r := xs + ys;
    forall i, j | 0 <= i < j < |r| ensures r[i] != r[j] {
      if i < |xs| <= j {
        assert r[i] in Elems(xs) && r[j] in Elems(ys);
      }
    }
  }

  // The order is not a topological one

  ghost predicate Before(order: seq<Hash>, a: Hash, b: Hash) {
    exists i, j :: 0 <= i < j < |order| && order[i] == a && order[j] == b
  }

  /** Every parent is listed before its child. */
  ghost predicate ParentsFirst(g: Graph, order: seq<Hash>) {
    forall j, p :: 0 <= j < |order| && p in ParentsOf(g, order[j]) ==> p in order[..j]
  }

  /** The tip is listed before everything it colours, its selected parent included. */
  lemma {:induction false} TipBeforeColoured(g: Graph, k: nat, c: Cache, tip: Hash, x: Hash)
    requires Consistent(g, k, c) && ScoreFalls(c) && tip in g && (x in c[tip].blues || x in c[tip].reds)
    ensures Before(LinearSort(c, tip), tip, x)
  {
    var local := WalkHead(g, k, c, tip);
    assert x in Elems(local);
    var i :| 0 <= i < |local| && local[i] == x;
    var w := Walk(c, Some(tip), []);
    var order := LinearSort(c, tip);
    assert (local + [tip])[i] == w[i] && (local + [tip])[|local|] == w[|local|];
    assert order[|w| - 1 - |local|] == tip && order[|w| - 1 - i] == x;
  }

  /** The order runs from genesis onwards, parents before children, only for a tip without parents:
      any other tip is listed before its own selected parent. */
  lemma {:induction false} ParentsFirstIffNoParents(g: Graph, k: nat, c: Cache, tip: Hash)
    requires Consistent(g, k, c) && tip in g
    ensures ScoreFalls(c)
    ensures ParentsFirst(g, LinearSort(c, tip)) <==> g[tip] == []
  {
    ExactlyOnce(g, k, c, tip);
    var order := LinearSort(c, tip);
    if g[tip] == [] {
      BelowLeast(g, [], {});
      assert forall j :: 0 <= j < |order| ==> order[j] in Elems(order);
    } else {
      ConsistentColours(g, k, c, tip);
      var sp := c[tip].selectedParent.value;
      assert ([sp] + c[sp].blues)[0] == c[tip].blues[0];
      TipBeforeColoured(g, k, c, tip, sp);
      var i, j :| 0 <= i < j < |order| && order[i] == tip && order[j] == sp;
      assert sp !in order[..i];
    }
  }

  // The order in closed form

  /** The reds of `current` and of every block on its selected chain, block by block, each in ascending order. */
  ghost function RedTail(c: Cache, current: Option<Hash>): seq<Hash>
    requires ScoreFalls(c)
    decreases ChainMeasure(c, current)
  {
    if current.None? || current.value !in c then []
    else
      assert FallsAt(c, current.value);
      Ascending(Elems(c[current.value].reds)) + RedTail(c, c[current.value].selectedParent)
  }

  /** A block's own reds lie beside its selected parent's past, so they are not red further down. */
  lemma {:induction false} OwnRedsAreNew(g: Graph, k: nat, c: Cache, h: Hash, sp: Hash)
    requires Consistent(g, k, c) && ScoreFalls(c) && h in g && c[h].selectedParent == Some(sp)
    ensures sp in g && |Past(g, sp)| < |Past(g, h)|
    ensures sp in c[h].blues && Elems(c[sp].blues) <= Elems(c[h].blues)
    ensures ChainReds(c, h) == Elems(c[h].reds) + ChainReds(c, sp) && Elems(c[h].reds) !! ChainReds(c, sp)
  {
    hide Consistent, AnticoneCount, OrderedBound;
    ConsistentColours(g, k, c, h);
    OwnParentKnown(g, k, c, h, sp);
    ColourPartition(g, k, c, sp);
    assert ([sp] + c[sp].blues)[0] == c[h].blues[0];
    forall x | x in c[sp].blues ensures x in c[h].blues {
      assert x in [sp] + c[sp].blues;
    }
    forall x | x in Elems(c[h].reds) ensures x in Merged(g, g[h], sp) {
      assert x !in Elems(c[h].blues);
    }
  }

  lemma {:induction false} OwnParentKnown(g: Graph, k: nat, c: Cache, h: Hash, sp: Hash)
    requires Consistent(g, k, c) && h in g && sp in g[h]
    ensures sp in g && |Past(g, sp)| < |Past(g, h)|
  {
    PastShrinks(g, h, sp);
  }

  lemma {:induction false} WalkTail(g: Graph, k: nat, c: Cache, h: Hash, order: seq<Hash>)
    requires Consistent(g, k, c) && ScoreFalls(c) && h in g
    requires h in order && Elems(c[h].blues) <= Elems(order) && Elems(order) !! ChainReds(c, h)
    ensures Walk(c, Some(h), order) == order + RedTail(c, Some(h))
    decreases |Past(g, h)|
  {
    hide Consistent, ScoreFalls, WalkStep, Walk, ChainReds, RedTail, Past, OrderedBound, Merged;
    ConsistentColours(g, k, c, h);
    TailStep(c, h, order);
    WalkUnfold(c, h, order);
    var next := order + Ascending(Elems(c[h].reds));
    if g[h] == [] {
      WalkEnds(c, next);
      TailEnds(c);
      assert RedTail(c, Some(h)) == Ascending(Elems(c[h].reds));
    } else {
      var sp := c[h].selectedParent.value;
      OwnRedsAreNew(g, k, c, h, sp);
      AscendingSpec(Elems(c[h].reds));
      ElemsConcat(order, Ascending(Elems(c[h].reds)));
      assert sp in Elems(order);
      WalkTail(g, k, c, sp, next);
    }
  }

  lemma {:induction false} WalkEnds(c: Cache, order: seq<Hash>)
    requires ScoreFalls(c)
    ensures Walk(c, None, order) == order
  {
  }

  lemma {:induction false} TailStep(c: Cache, h: Hash, order: seq<Hash>)
    requires ScoreFalls(c) && h in c && NoDup(c[h].blues) && NoDup(c[h].reds) && Elems(c[h].blues) !! Elems(c[h].reds)
    requires h in order && Elems(c[h].blues) <= Elems(order) && Elems(order) !! ChainReds(c, h)
    ensures WalkStep(c, h, order) == order + Ascending(Elems(c[h].reds))
    ensures RedTail(c, Some(h)) == Ascending(Elems(c[h].reds)) + RedTail(c, c[h].selectedParent)
  {
    var own := c[h].blues + c[h].reds;
    NoDupConcat(c[h].blues, c[h].reds);
    ElemsConcat(c[h].blues, c[h].reds);
    AppendNewSorted(order, own);
    assert Elems(c[h].reds) <= ChainReds(c, h);
    assert Elems(own) - Elems(order) == Elems(c[h].reds);
    AppendNewOne(order + Ascending(Elems(c[h].reds)), h);
  }

  /** From its end backwards, the order lists the tip's own blues and reds ascending, the tip, and then the reds of
      each lower block of the selected chain ascending, the chain block by block. */
  lemma {:induction false} OrderInClosedForm(g: Graph, k: nat, c: Cache, tip: Hash)
    requires Consistent(g, k, c) && ScoreFalls(c) && tip in g
    ensures LinearSort(c, tip) ==
            Reverse(Ascending(Elems(c[tip].blues) + Elems(c[tip].reds)) + [tip] + RedTail(c, c[tip].selectedParent))
  {
    hide Consistent, ScoreFalls, WalkStep, Walk, ChainReds, RedTail, Reverse;
    ConsistentColours(g, k, c, tip);
    NotBelowItself(g, k, c, tip);
    var local := FirstStep(c, tip);
    WalkUnfold(c, tip, []);
    if g[tip] == [] {
      WalkEnds(c, local + [tip]);
      TailEnds(c);
      assert local + [tip] + [] == local + [tip];
    } else {
      var sp := c[tip].selectedParent.value;
      OwnRedsAreNew(g, k, c, tip, sp);
      ColourPartition(g, k, c, tip);
      ElemsConcat(local, [tip]);
      assert sp in Elems(local);
      assert Elems([tip]) == {tip};
      WalkTail(g, k, c, sp, local + [tip]);
    }
  }

  lemma {:induction false} TailEnds(c: Cache)
    requires ScoreFalls(c)
    ensures RedTail(c, None) == []
  {
  }

  lemma {:induction false} NotBelowItself(g: Graph, k: nat, c: Cache, h: Hash)
    requires Consistent(g, k, c) && h in g && Elems(c[h].blues) <= Past(g, h) && Elems(c[h].reds) <= Past(g, h)
    ensures h !in Past(g, h) && h !in c[h].blues && h !in c[h].reds
  {
    assert h !in Elems(c[h].blues) && h !in Elems(c[h].reds);
  }

  /** With no red block below the tip, the order is the tip and then its past by descending hash. */
  lemma {:induction false} OrderWithoutReds(g: Graph, k: nat, c: Cache, tip: Hash)
    requires Consistent(g, k, c) && ScoreFalls(c) && tip in g && ChainReds(c, tip) == {}
    ensures LinearSort(c, tip) == [tip] + Reverse(Ascending(Past(g, tip)))
  {
    var local := WalkHead(g, k, c, tip);
    ColourPartition(g, k, c, tip);
    assert Elems(c[tip].reds) == {};
    assert Elems(local) == Past(g, tip);
    var w := Walk(c, Some(tip), []);
    ExactlyOnce(g, k, c, tip);
    ReverseElems(w);
    WalkElems(g, k, c, tip, []);
    WalkNoDup(c, Some(tip), []);
    NoDupSize(w);
    AscendingSpec(Past(g, tip));
    NoDupSize(local);
    assert tip !in Past(g, tip);
    assert |w| == |local| + 1;
    assert w == local + [tip];
    ReverseSnoc(local, tip);
  }

  lemma {:induction false} ReverseSnoc<T>(xs: seq<T>, x: T)
    ensures Reverse(xs + [x]) == [x] + Reverse(xs)
  {
  }
}
