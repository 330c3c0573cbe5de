/** Issuance over whole DAGs: when the halving schedule bounds it and when it does not. */
module SupplyBound {
  import opened Types
  import opened Sums
  import opened Dag
  import opened Emission
  import opened LedgerRules
  import opened Replay
  import opened Chain
  import opened Validation
  import opened NodeRules
  import opened NodeRuns

  // One block per paying height

  /** No two different blocks share a height that still pays a subsidy. */
  ghost predicate OnePerPayingHeight(store: Store, blocks: set<Hash>)
    requires blocks <= store.Keys
  {
    forall x, y :: x in blocks && y in blocks && x != y && HeightOf(store, x) == HeightOf(store, y) ==>
      Minted(store[x]) == 0
  }

  ghost predicate HasHeight(store: Store, path: set<Hash>, n: nat)
    requires path <= store.Keys
  {
    exists x :: x in path && HeightOf(store, x) == n
  }

  /** `path` holds exactly one block of every height up to `height`. */
  ghost predicate Ladder(store: Store, path: set<Hash>, height: nat)
    requires path <= store.Keys
  {
    && (forall x :: x in path ==> HeightOf(store, x) <= height)
    && (forall x, y :: x in path && y in path && HeightOf(store, x) == HeightOf(store, y) ==> x == y)
    && (forall n: nat :: n <= height ==> HasHeight(store, path, n))
  }

  /** A longest path to the genesis block: it mints what the heights up to the block pay. */
  lemma {:induction false} LongestPath(cfg: Config, store: Store, h: Hash) returns (path: set<Hash>)
    requires Usable(cfg) && Placed(cfg, store) && h in store
    ensures h in path && path <= Past(GraphOf(store), h) + {h} && path <= store.Keys
    ensures Ladder(store, path, HeightOf(store, h))
    ensures SetSum(path, Mints(store)) == Issuance(HeightOf(store, h))
    decreases HeightOf(store, h)
  {
    var g := GraphOf(store);
    assert PlacedOk(cfg, store, h);
    var parents := store[h].header.parents;
    if parents == [] {
      path := {h};
      SumInsert({}, Mints(store), h);
      assert {} + {h} == path;
    } else {
      var p := TallestParent(parents, store);
      var below := LongestPath(cfg, store, p);
      path := below + {h};
      BelowParent(g, g[h], p);
      LadderUp(store, below, h, HeightOf(store, p));
      ChildMints(store, below, h, HeightOf(store, p));
    }
  }

  lemma {:induction false} LadderUp(store: Store, below: set<Hash>, h: Hash, height: nat)
    requires below <= store.Keys && h in store && Ladder(store, below, height) && HeightOf(store, h) == height + 1
    ensures h !in below && Ladder(store, below + {h}, height + 1)
  {
    var path := below + {h};
    forall n: nat | n <= height + 1 ensures HasHeight(store, path, n) {
      if n <= height {
        assert HasHeight(store, below, n);
        var x :| x in below && HeightOf(store, x) == n;
        assert x in path;
      } else {
        assert h in path;
      }
    }
  }

  lemma {:induction false} SumZeroIff<K>(s: set<K>, w: map<K, int>)
    requires s <= w.Keys && forall k :: k in s ==> w[k] >= 0
    ensures SetSum(s, w) >= 0
    ensures SetSum(s, w) == 0 <==> forall k :: k in s ==> w[k] == 0
    decreases |s|
  {
    if s == {} {
    } else {
      var k :| k in s;
      SumZeroIff(s - {k}, w);
      SumRemove(s, w, k);
      assert forall x :: x in s ==> x == k || x in s - {k};
    }
  }

  lemma {:induction false} SumSplit<K>(s: set<K>, t: set<K>, w: map<K, int>)
    requires s !! t && s + t <= w.Keys
    ensures SetSum(s + t, w) == SetSum(s, w) + SetSum(t, w)
    decreases |t|
  {
    if t == {} {
      assert s + t == s;
    } else {
      var k :| k in t;
      SumRemove(t, w, k);
      SumSplit(s, t - {k}, w);
      SumInsert(s + (t - {k}), w, k);
      assert s + (t - {k}) + {k} == s + t;
    }
  }

  /** What a tip and its past mint is never less than what the heights up to the tip pay once, and it is
      exactly that if and only if no two of these blocks share a paying height. */
  lemma {:induction false} MintedIffOnePerHeight(cfg: Config, s: NodeState, tip: Hash)
    requires Inv(cfg, s) && tip in s.store
    ensures Past(GraphOf(s.store), tip) <= s.store.Keys
    ensures var blocks := Past(GraphOf(s.store), tip) + {tip};
            var minted, schedule := SetSum(blocks, Mints(s.store)), Issuance(HeightOf(s.store, tip));
            && minted >= schedule
            && (minted == schedule <==> OnePerPayingHeight(s.store, blocks))
  {
    hide Inv, Placed, HistoryOk, Issuance, SetSum;
    var store, g := s.store, GraphOf(s.store);
    InvParts(cfg, s);
    PastKnown(g, g[tip]);
    var blocks := Past(g, tip) + {tip};
    var path := LongestPath(cfg, store, tip);
    var rest := blocks - path;
    SumSplit(path, rest, Mints(store));
    assert path + rest == blocks;
    SumZeroIff(rest, Mints(store));
    forall x | x in rest
      ensures HasHeight(store, path, HeightOf(store, x))
    {
      LowerThanTip(cfg, s, tip, x);
    }
    RestPaysNothing(store, blocks, path, HeightOf(store, tip));
  }

  lemma {:induction false} LowerThanTip(cfg: Config, s: NodeState, tip: Hash, x: Hash)
    requires Inv(cfg, s) && tip in s.store && x in Past(GraphOf(s.store), tip) + {tip}
    ensures x in s.store && HeightOf(s.store, x) <= HeightOf(s.store, tip)
  {
    var g := GraphOf(s.store);
    PastMember(g, tip, x);
    var n: nat :| Reach(g, n, tip, x);
    PathBound(cfg, s.store, n, tip, x);
  }

  lemma {:induction false} RestPaysNothing(store: Store, blocks: set<Hash>, path: set<Hash>, height: nat)
    requires path <= blocks <= store.Keys && Ladder(store, path, height)
    requires forall x :: x in blocks - path ==> HasHeight(store, path, HeightOf(store, x))
    ensures OnePerPayingHeight(store, blocks) <==> forall x :: x in blocks - path ==> Mints(store)[x] == 0
  {
    if OnePerPayingHeight(store, blocks) {
      forall x | x in blocks - path ensures Mints(store)[x] == 0 {
        assert HasHeight(store, path, HeightOf(store, x));
        var y :| y in path && HeightOf(store, y) == HeightOf(store, x);
        assert x != y;
      }
    }
    if forall x :: x in blocks - path ==> Mints(store)[x] == 0 {
      forall x, y | x in blocks && y in blocks && x != y && HeightOf(store, x) == HeightOf(store, y)
        ensures Minted(store[x]) == 0
      {
        if x in path {
          assert y in blocks - path;
          assert Mints(store)[y] == 0;
        } else {
          assert Mints(store)[x] == 0;
        }
      }
    }
  }
}
