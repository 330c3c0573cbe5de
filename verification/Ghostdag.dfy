/** The GHOSTDAG manager: worklists over the block store, each proved against the graph functions. */
module Ghostdag {
  import opened Types
  import opened Sequences
  import opened Dag
  import opened Colouring
  import opened ForkChoice
  import opened LinearOrder
  import opened LedgerRules
  import opened LedgerObjects
  import opened Replay

  class GhostdagManager {
    const k: nat
    var blockStore: Store
    var ghostdagCache: Cache

    constructor (k: nat)
      ensures this.k == k && blockStore == map[] && ghostdagCache == map[]
      ensures Valid()
    {
      this.k := k;
      blockStore := map[];
      ghostdagCache := map[];
      new;
      assert GraphOf(blockStore) == map[];
    }

    ghost function Graph(): Graph
      reads this
    {
      GraphOf(blockStore)
    }

    ghost predicate Valid()
      reads this
    {
      Consistent(Graph(), k, ghostdagCache)
    }

    /** Breadth-first search along parent pointers. Parents that are not stored are listed too. */
    method GetPastSet(blockHash: Hash) returns (past: set<Hash>)
      ensures past == Past(Graph(), blockHash)
    {
      ghost var g := Graph();
      past := {};
      var queue := [blockHash];
      while queue != []
        invariant past <= Past(g, blockHash) && past <= Nodes(g)
        invariant forall x :: x in queue ==> x == blockHash || x in past
        invariant forall x :: x == blockHash || x in past ==> x in queue || Elems(ParentsOf(g, x)) <= past
        decreases Nodes(g) - past, |queue|
      {
        var hash := queue[0];
        ghost var before, waiting := past, queue;
        queue := queue[1..];
        assert waiting == [hash] + queue;
        if hash in blockStore {
          var parents := blockStore[hash].header.parents;
          for i := 0 to |parents|
            invariant before <= past <= Past(g, blockHash) && past <= Nodes(g)
            invariant past == before ==> |queue| == |waiting| - 1
            invariant forall x :: x in queue ==> x == blockHash || x in past
            invariant forall x :: x in waiting && x != hash ==> x in queue
            invariant forall x :: x in past ==> x in before || x in queue
            invariant forall j :: 0 <= j < i ==> parents[j] in past
          {
            var parent := parents[i];
            if parent !in past {
              KnownParent(g, blockHash, hash, parent);
              past := past + {parent};
              queue := queue + [parent];
            }
          }
        }
      }
      forall p | p in ParentsOf(g, blockHash) ensures p in past {
        assert p in Elems(ParentsOf(g, blockHash));
      }
      forall x, p | x in past && p in ParentsOf(g, x) ensures p in past {
        assert p in Elems(ParentsOf(g, x));
      }
      BelowLeast(g, ParentsOf(g, blockHash), past);
    }

    /** Blocks reachable from the block's other parents, not walking into the selected parent's past. */
    method FindAnticone(currentBlock: VeloBlock, selectedParent: Hash) returns (anticone: seq<Hash>)
      ensures NoDup(anticone)
      ensures Elems(anticone) == Merged(Graph(), currentBlock.header.parents, selectedParent)
    {
      ghost var g, ps := Graph(), currentBlock.header.parents;
      anticone := [];
      var queue, visited := [], {};
      var selectedParentPast := GetPastSet(selectedParent);
      ghost var excluded := selectedParentPast + {selectedParent};
      var parents := currentBlock.header.parents;
      for i := 0 to |parents|
        invariant forall x :: x in queue <==> x in visited
        invariant forall x :: x in visited ==> x in ps
        invariant forall j :: 0 <= j < i && parents[j] != selectedParent ==> parents[j] in visited
      {
        if parents[i] != selectedParent {
          queue := queue + [parents[i]];
          visited := visited + {parents[i]};
        }
      }
      forall x | x in visited ensures x in Below(g, ps) {
        BelowParent(g, ps, x);
      }
      while queue != []
        invariant NoDup(anticone) && Elems(anticone) <= visited - excluded
        invariant visited <= Below(g, ps) && visited <= Nodes(g) + Elems(ps)
        invariant forall p :: p in ps && p != selectedParent ==> p in visited
        invariant forall x :: x in queue ==> x in visited
        invariant forall x :: x in visited ==>
          x in queue || x in excluded || (x in anticone && Elems(ParentsOf(g, x)) <= visited)
        decreases Nodes(g) + Elems(ps) - visited, |queue|
      {
        var currentHash := queue[0];
        ghost var before, waiting := visited, queue;
        queue := queue[1..];
        assert waiting == [currentHash] + queue;
        if currentHash !in selectedParentPast && currentHash != selectedParent {
          if currentHash !in anticone {
            NoDupSnoc(anticone, currentHash);
            anticone := anticone + [currentHash];
          }
          if currentHash in blockStore {
            var grandparents := blockStore[currentHash].header.parents;
            for i := 0 to |grandparents|
              invariant before <= visited <= Below(g, ps) && visited <= Nodes(g) + Elems(ps)
              invariant visited == before ==> |queue| == |waiting| - 1
              invariant forall x :: x in queue ==> x in visited
              invariant forall x :: x in waiting && x != currentHash ==> x in queue
              invariant forall x :: x in visited ==> x in before || x in queue
              invariant forall j :: 0 <= j < i ==> grandparents[j] in visited
            {
              var parent := grandparents[i];
              if parent !in visited {
                BelowTrans(g, ps, currentHash);
                BelowParent(g, ParentsOf(g, currentHash), parent);
                visited := visited + {parent};
                queue := queue + [parent];
              }
            }
          }
        }
      }
      AnticoneComplete(g, ps, selectedParent, visited);
    }

    /** The k-bound on blue blocks in the candidate's anticone. */
    method CanBeBlue(candidate: Hash, currentBlues: seq<Hash>) returns (ok: bool)
      ensures ok <==> Colouring.CanBeBlue(Graph(), k, candidate, currentBlues)
    {
      ghost var g := Graph();
      var candidatePast := GetPastSet(candidate);
      for i := 0 to |currentBlues|
        invariant forall j :: 0 <= j < i && InAnticone(g, currentBlues[j], candidate) ==>
          AnticoneCount(g, currentBlues, currentBlues[j]) < k
      {
        var blue := currentBlues[i];
        var bluePast := GetPastSet(blue);
        if candidate !in bluePast && blue !in candidatePast && blue != candidate {
          var anticoneCount := 0;
          for j := 0 to |currentBlues|
            invariant anticoneCount == AnticoneCount(g, currentBlues[..j], blue)
          {
            var otherBlue := currentBlues[j];
            if otherBlue != blue {
              var otherPast := GetPastSet(otherBlue);
              if otherBlue !in bluePast && blue !in otherPast {
                anticoneCount := anticoneCount + 1;
              }
            }
            assert currentBlues[..j + 1] == currentBlues[..j] + [otherBlue];
            CountSnoc(g, currentBlues[..j], otherBlue, blue);
          }
          assert currentBlues[..|currentBlues|] == currentBlues;
          if anticoneCount >= k {
            assert blue in currentBlues && InAnticone(g, blue, candidate);
            return false;
          }
        }
      }
      ok := true;
    }

    /** The selected parent and then its blues, without repeating any. */
    method InheritBlues(sp: Hash) returns (blues: seq<Hash>)
      requires sp in ghostdagCache
      ensures blues == AppendNew([sp], ghostdagCache[sp].blues)
    {
      var inherited := ghostdagCache[sp].blues;
      blues := [sp];
      for i := 0 to |inherited|
        invariant AppendNew(blues, inherited[i..]) == AppendNew([sp], inherited)
      {
        assert inherited[i..][1..] == inherited[i + 1..];
        if inherited[i] !in blues {
          blues := blues + [inherited[i]];
        }
      }
    }

    /** The greedy pass: blue while the k-bound allows it, red otherwise. */
    method ColourCandidates(candidates: seq<Hash>, inherited: seq<Hash>) returns (blues: seq<Hash>, reds: seq<Hash>)
      ensures (blues, reds) == Colour(Graph(), k, candidates, inherited, [])
    {
      ghost var g := Graph();
      blues, reds := inherited, [];
      for i := 0 to |candidates|
        invariant Colour(g, k, candidates[i..], blues, reds) == Colour(g, k, candidates, inherited, [])
      {
        assert candidates[i..][1..] == candidates[i + 1..];
        var isBlue := CanBeBlue(candidates[i], blues);
        if isBlue {
          blues := blues + [candidates[i]];
        } else {
          reds := reds + [candidates[i]];
        }
      }
    }

    /** Colours a block whose parents are stored: selected parent, inherited blues, sorted anticone, score. */
    method CalculateGhostdagData(block: VeloBlock) returns (d: GhostdagData)
      ensures d == Step(Graph(), k, block.header.parents, ghostdagCache)
    {
      var parents := block.header.parents;
      if parents == [] {
        return GhostdagData(0, None, [], []);
      }
      var selectedParent := SelectedParent(parents, ghostdagCache);
      var blues, reds := [], [];
      if selectedParent.Some? {
        var sp := selectedParent.value;
        blues := InheritBlues(sp);
        var anticone := FindAnticone(block, sp);
        SortIsAscending(anticone);
        blues, reds := ColourCandidates(Sort(anticone), blues);
      }
      var parentBlueScore := if selectedParent.None? then 0 else ghostdagCache[selectedParent.value].blueScore;
      d := GhostdagData(parentBlueScore + |blues|, selectedParent, blues, reds);
    }

    /** The block is new, its parents are stored, and `d` is its own data. */
    ghost predicate Fits(hash: Hash, block: VeloBlock, d: GhostdagData)
      reads this
    {
      && Insertable(Graph(), hash, block.header.parents)
      && d == Step(Graph(), k, block.header.parents, ghostdagCache)
    }

    /** The two map insertions that follow a colouring. A fresh block with known parents and its own data keeps
        the cache consistent. */
    method Insert(hash: Hash, block: VeloBlock, d: GhostdagData)
      modifies this
      ensures blockStore == old(blockStore)[hash := block]
      ensures ghostdagCache == old(ghostdagCache)[hash := d]
      ensures old(Valid() && Fits(hash, block, d)) ==> Valid()
    {
      if Valid() && Fits(hash, block, d) {
        InsertKeepsConsistent(Graph(), k, ghostdagCache, hash, block.header.parents);
        GraphOfInsert(blockStore, hash, block);
      }
      blockStore := blockStore[hash := block];
      ghostdagCache := ghostdagCache[hash := d];
    }

    /** Follows the selected parents down from the tip, collecting each block's colours. */
    method GetLinearSort(tipHash: Hash) returns (order: seq<Hash>)
      requires ScoreFalls(ghostdagCache)
      ensures order == LinearSort(ghostdagCache, tipHash)
    {
      order := [];
      var current: Option<Hash> := Some(tipHash);
      while current.Some?
        invariant Walk(ghostdagCache, current, order) == Walk(ghostdagCache, Some(tipHash), [])
        decreases if current.Some? then 1 + ChainMeasure(ghostdagCache, current) else 0
      {
        var hash := current.value;
        if hash in ghostdagCache {
          assert FallsAt(ghostdagCache, hash);
          var data := ghostdagCache[hash];
          var localSet := Sort(data.blues + data.reds);
          ghost var start := order;
          for i := 0 to |localSet|
            invariant AppendNew(order, localSet[i..]) == AppendNew(start, localSet)
          {
            assert localSet[i..][1..] == localSet[i + 1..];
            if localSet[i] !in order {
              order := order + [localSet[i]];
            }
          }
          AppendNewOne(order, hash);
          if hash !in order {
            order := order + [hash];
          }
          current := data.selectedParent;
        } else {
          current := None;
        }
      }
      order := Reverse(order);
    }

    /** Replays the canonical order on an empty ledger; stops at the first block that does not apply. */
    method RecomputeLedger(tip: Hash) returns (ledger: LedgerState, error: Option<LedgerError>)
      requires ScoreFalls(ghostdagCache)
      ensures fresh(ledger)
      ensures match Replay.RecomputeLedger(blockStore, ghostdagCache, tip)
              case Ok(l) => error == None && ledger.Value() == l
              case Err(e) => error == Some(e)
    {
      ledger := new LedgerState();
      var order := GetLinearSort(tip);
      for i := 0 to |order|
        invariant fresh(ledger)
        invariant ReplayFrom(blockStore, order[i..], ledger.Value()) == ReplayFrom(blockStore, order, EMPTY_LEDGER)
      {
        assert order[i..][1..] == order[i + 1..];
        if order[i] !in blockStore {
          return ledger, Some(MissingBlock(order[i]));
        }
        error := ledger.ApplyBlock(blockStore[order[i]]);
        if error.Some? {
          return;
        }
      }
      error := None;
    }

    /** The canonical order as blocks. */
    method CanonicalBlockOrder(tip: Hash) returns (blocks: seq<VeloBlock>)
      requires ScoreFalls(ghostdagCache)
      ensures blocks == BlocksOf(blockStore, LinearSort(ghostdagCache, tip))
    {
      var order := GetLinearSort(tip);
      blocks := [];
      for i := 0 to |order|
        invariant blocks + BlocksOf(blockStore, order[i..]) == BlocksOf(blockStore, order)
      {
        assert order[i..][1..] == order[i + 1..];
        if order[i] in blockStore {
          blocks := blocks + [blockStore[order[i]]];
        }
      }
    }

    /** The tips, in whatever order the hash map yields them. */
    method ComputeTips() returns (tips: seq<Hash>)
      ensures NoDup(tips) && Elems(tips) == Tips(Graph())
    {
      var referenced := set h, p | h in blockStore.Keys && p in blockStore[h].header.parents :: p;
      var remaining := blockStore.Keys;
      tips := [];
      while remaining != {}
        invariant remaining <= blockStore.Keys && NoDup(tips)
        invariant Elems(tips) == (blockStore.Keys - remaining) - referenced
      {
        var h :| h in remaining;
        remaining := remaining - {h};
        assert h !in Elems(tips);
        if h !in referenced {
          NoDupSnoc(tips, h);
          tips := tips + [h];
        }
      }
      forall h | h in blockStore ensures h in referenced <==> h !in Tips(Graph()) {
        if h in referenced {
          var x :| x in blockStore && h in blockStore[x].header.parents;
          assert h in Graph()[x];
        } else {
          assert forall x :: x in Graph() ==> Graph()[x] == blockStore[x].header.parents;
        }
      }
    }

    /** The canonical tip: the best block of the store. */
    method SelectCanonicalTip() returns (tip: Option<Hash>)
      requires Valid()
      ensures tip == CanonicalTip(ghostdagCache)
    {
      var tips := ComputeTips();
      tip := SelectBestTip(tips, ghostdagCache);
      TipsDecide(Graph(), k, ghostdagCache, tips);
    }
  }

  lemma {:induction false} KnownParent(g: Graph, h: Hash, x: Hash, p: Hash)
    requires x == h || x in Past(g, h)
    requires p in ParentsOf(g, x)
    ensures p in Past(g, h) && p in Nodes(g)
  {
    BelowParent(g, ParentsOf(g, x), p);
    if x != h {
      BelowTrans(g, ParentsOf(g, h), x);
    }
  }

  /** Stopping at the selected parent's past loses nothing: whatever lies behind it is in that past. */
  lemma {:induction false} AnticoneComplete(g: Graph, ps: seq<Hash>, sp: Hash, visited: set<Hash>)
    requires forall p :: p in ps && p != sp ==> p in visited
    requires forall x :: x in visited ==> x in Past(g, sp) || x == sp || Elems(ParentsOf(g, x)) <= visited
    ensures Merged(g, ps, sp) <= visited
  {
    var all := visited + Past(g, sp) + {sp};
    forall x, p | x in all && p in ParentsOf(g, x) ensures p in all {
      if x in Past(g, sp) || x == sp {
        KnownParent(g, sp, x, p);
      } else {
        assert p in Elems(ParentsOf(g, x));
      }
    }
    BelowLeast(g, ps, all);
  }
}
