/** Filling a store one block at a time: what depends on the order of arrival, and what does not. */
module Arrival {
  import opened Types
  import opened Sequences
  import opened Dag
  import opened Colouring
  import opened ForkChoice
  import opened LinearOrder
  import opened LedgerRules
  import opened Replay

  type Item = (Hash, VeloBlock)

  /** Colours and stores the blocks in the given order. */
  ghost function InsertAll(k: nat, items: seq<Item>, store: Store, c: Cache): (Store, Cache)
    decreases |items|
  {
    if items == [] then (store, c)
    else
      var (h, b) := items[0];
      InsertAll(k, items[1..], store[h := b], c[h := Step(GraphOf(store), k, b.header.parents, c)])
  }

  /** Every block is new and arrives after its parents. */
  ghost predicate ParentFirst(items: seq<Item>, store: Store)
    decreases |items|
  {
    items == [] ||
    (var (h, b) := items[0];
     Insertable(GraphOf(store), h, b.header.parents) && ParentFirst(items[1..], store[h := b]))
  }

  /** The store a list of blocks fills. */
  ghost predicate Holds(store: Store, items: seq<Item>) {
    && (forall i :: 0 <= i < |items| ==> items[i].0 in store && store[items[i].0] == items[i].1)
    && (forall h :: h in store ==> (h, store[h]) in items)
  }

  /** One step of a parent-first load. */
  lemma {:induction false} InsertAllStep(k: nat, items: seq<Item>, store: Store, c: Cache)
    requires Consistent(GraphOf(store), k, c) && items != [] && ParentFirst(items, store)
    ensures var (h, b) := items[0];
            var data := Step(GraphOf(store), k, b.header.parents, c);
            && Insertable(GraphOf(store), h, b.header.parents)
            && Consistent(GraphOf(store[h := b]), k, c[h := data])
            && ParentFirst(items[1..], store[h := b])
            && InsertAll(k, items, store, c) == InsertAll(k, items[1..], store[h := b], c[h := data])
  {
    var (h, b) := items[0];
    InsertKeepsConsistent(GraphOf(store), k, c, h, b.header.parents);
    GraphOfInsert(store, h, b);
  }

  lemma {:induction false} InsertAllKeeps(k: nat, items: seq<Item>, store: Store, c: Cache)
    requires Consistent(GraphOf(store), k, c) && ParentFirst(items, store)
    ensures var (store', c') := InsertAll(k, items, store, c);
            && Consistent(GraphOf(store'), k, c')
            && (forall h :: h in store ==> h in store' && store'[h] == store[h])
            && (forall i :: 0 <= i < |items| ==> items[i].0 in store' && store'[items[i].0] == items[i].1)
            && (forall h :: h in store' ==> h in store || (h, store'[h]) in items)
    decreases |items|
  {
    hide Consistent, Step;
    if items == [] {
    } else {
      var (h, b) := items[0];
      var rest := items[1..];
      InsertAllStep(k, items, store, c);
      InsertAllKeeps(k, rest, store[h := b], c[h := Step(GraphOf(store), k, b.header.parents, c)]);
      assert items == [(h, b)] + rest;
    }
  }

  lemma {:induction false} EmptyConsistent(k: nat)
    ensures GraphOf(map[]) == map[] && Consistent(GraphOf(map[]), k, map[])
  {
    assert GraphOf(map[]) == map[];
  }

  /** Blocks that arrive parents first build a consistent cache over exactly those blocks. */
  lemma {:induction false} LoadedConsistent(k: nat, items: seq<Item>)
    requires ParentFirst(items, map[])
    ensures var (store, c) := InsertAll(k, items, map[], map[]);
            Consistent(GraphOf(store), k, c) && Holds(store, items)
  {
    EmptyConsistent(k);
    InsertAllKeeps(k, items, map[], map[]);
  }

  /** Two parent-first orders of the same blocks give the same store, the same colouring of every block down
      to the order of its lists, the same canonical tip, and for every tip the same linear order and the
      same recomputed ledger. */
  lemma {:induction false} ArrivalOrderIndependence(k: nat, xs: seq<Item>, ys: seq<Item>)
    requires ParentFirst(xs, map[]) && ParentFirst(ys, map[]) && Elems(xs) == Elems(ys)
    ensures var (store, c) := InsertAll(k, xs, map[], map[]);
            var (store', c') := InsertAll(k, ys, map[], map[]);
            && store == store' && c == c'
            && CanonicalTip(c) == CanonicalTip(c')
            && ScoreFalls(c) && ScoreFalls(c')
            && forall tip :: LinearSort(c, tip) == LinearSort(c', tip)
                             && RecomputeLedger(store, c, tip) == RecomputeLedger(store', c', tip)
  {
    LoadedConsistent(k, xs);
    LoadedConsistent(k, ys);
    var (store, c) := InsertAll(k, xs, map[], map[]);
    var (store', c') := InsertAll(k, ys, map[], map[]);
    HoldSame(store, xs, store', ys);
    ConsistentUnique(GraphOf(store), k, c, c');
    ConsistentFalls(GraphOf(store), k, c);
  }

  lemma {:induction false} HoldSame(store: Store, xs: seq<Item>, store': Store, ys: seq<Item>)
    requires Holds(store, xs) && Holds(store', ys) && Elems(xs) == Elems(ys)
    ensures store == store'
  {
    forall h | h in store ensures h in store' && store'[h] == store[h] {
      assert (h, store[h]) in Elems(ys);
    }
    forall h | h in store' ensures h in store {
      assert (h, store'[h]) in Elems(xs);
    }
  }

  // Nodes that have seen different blocks

  /** The blocks both nodes share below and including `tip`. */
  ghost predicate SharePast(store: Store, store': Store, tip: Hash) {
    && tip in store && tip in store' && store[tip] == store'[tip]
    && forall x :: x in Past(GraphOf(store), tip) ==> x in store && x in store' && store[x] == store'[x]
  }

  lemma {:induction false} SharedAgree(store: Store, store': Store, tip: Hash)
    requires SharePast(store, store', tip)
    ensures AgreeOn(GraphOf(store), GraphOf(store'), Past(GraphOf(store), tip) + {tip})
  {
    var g := GraphOf(store);
    var d := Past(g, tip) + {tip};
    forall x | x in d ensures x in store && x in store' && store[x] == store'[x] && Elems(g[x]) <= d {
      forall p | p in g[x] ensures p in d {
        BelowParent(g, g[x], p);
        if x != tip {
          BelowTrans(g, g[tip], x);
        }
      }
    }
  }

  lemma {:induction false} WalkAgree(c: Cache, c': Cache, d: set<Hash>, current: Option<Hash>, order: seq<Hash>)
    requires ScoreFalls(c) && ScoreFalls(c')
    requires forall x :: x in d ==> x in c && x in c' && c[x] == c'[x]
    requires forall x :: x in d && c[x].selectedParent.Some? ==> c[x].selectedParent.value in d
    requires current.Some? ==> current.value in d
    ensures Walk(c, current, order) == Walk(c', current, order)
    decreases ChainMeasure(c, current)
  {
    if current.Some? {
      assert FallsAt(c, current.value);
      WalkAgree(c, c', d, c[current.value].selectedParent, WalkStep(c, current.value, order));
    }
  }

  lemma {:induction false} ReplayAgree(store: Store, store': Store, order: seq<Hash>, l: Ledger)
    requires forall h :: h in order ==> h in store && h in store' && store[h] == store'[h]
    ensures ReplayFrom(store, order, l) == ReplayFrom(store', order, l)
    decreases |order|
  {
    if order == [] {
    } else {
      var applied := ApplyBlock(l, store[order[0]]);
      if applied.Ok? {
        ReplayAgree(store, store', order[1..], applied.value);
      }
    }
  }

  /** Two nodes that share a tip and its past order it alike and recompute the same ledger from it,
      whatever else each of them holds. */
  lemma {:induction false} SameTipSameLedger(store: Store, c: Cache, store': Store, c': Cache, k: nat, tip: Hash)
    requires Consistent(GraphOf(store), k, c) && Consistent(GraphOf(store'), k, c')
    requires SharePast(store, store', tip)
    ensures ScoreFalls(c) && ScoreFalls(c')
    ensures LinearSort(c, tip) == LinearSort(c', tip)
    ensures RecomputeLedger(store, c, tip) == RecomputeLedger(store', c', tip)
  {
    var g, g' := GraphOf(store), GraphOf(store');
    var d := Past(g, tip) + {tip};
    SharedAgree(store, store', tip);
    ConsistentFalls(g, k, c);
    ConsistentFalls(g', k, c');
    forall x | x in d
      ensures x in c && x in c' && c[x] == c'[x]
      ensures c[x].selectedParent.Some? ==> c[x].selectedParent.value in d
    {
      PastDeterminesData(g, c, g', c', k, d, x);
      ConsistentColours(g, k, c, x);
      assert forall p :: p in g[x] ==> p in Elems(g[x]);
    }
    WalkAgree(c, c', d, Some(tip), []);
    ExactlyOnce(g, k, c, tip);
    assert forall h :: h in LinearSort(c, tip) ==> h in Elems(LinearSort(c, tip));
    ReplayAgree(store, store', LinearSort(c, tip), EMPTY_LEDGER);
  }
}
