/** Reachability in the block graph: what the parent-following worklists compute. */
module Dag {
  import opened Types
  import opened Sequences

  /** Parent hashes of every stored block. */
  type Graph = map<Hash, seq<Hash>>

  function ParentsOf(g: Graph, h: Hash): seq<Hash> {
    if h in g then g[h] else []
  }

  /** `a` lies exactly `n` parent steps below `h`. */
  ghost predicate Reach(g: Graph, n: nat, h: Hash, a: Hash) {
    if n == 0 then h == a
    else exists p :: p in ParentsOf(g, h) && Reach(g, n - 1, p, a)
  }

  ghost predicate Reaches(g: Graph, h: Hash, a: Hash) {
    exists n: nat :: Reach(g, n, h, a)
  }

  /** Every hash the graph mentions. */
  ghost function Nodes(g: Graph): set<Hash> {
    g.Keys + (set h, p | h in g.Keys && p in g[h] :: p)
  }

  ghost predicate ReachesFrom(g: Graph, ps: seq<Hash>, a: Hash) {
    exists p :: p in ps && Reaches(g, p, a)
  }

  ghost predicate IsBelow(g: Graph, ps: seq<Hash>, s: set<Hash>) {
    forall a {:trigger ReachesFrom(g, ps, a)} :: ReachesFrom(g, ps, a) <==> a in s
  }

  /** The parents `ps` and everything reachable from them: the past of a block that names `ps`. */
  ghost function Below(g: Graph, ps: seq<Hash>): set<Hash> {
    BelowExists(g, ps);
    var s :| IsBelow(g, ps, s);
    s
  }

  ghost function Past(g: Graph, h: Hash): set<Hash> {
    Below(g, ParentsOf(g, h))
  }

  ghost predicate InAnticone(g: Graph, x: Hash, y: Hash) {
    x != y && x !in Past(g, y) && y !in Past(g, x)
  }

  ghost predicate Closed(g: Graph) {
    forall h, p :: h in g && p in g[h] ==> p in g
  }

  ghost predicate Acyclic(g: Graph) {
    forall h :: h in g ==> h !in Past(g, h)
  }

  ghost predicate IsDag(g: Graph) {
    Closed(g) && Acyclic(g)
  }

  // Reachability

  lemma {:induction false} ReachStays(g: Graph, n: nat, h: Hash, a: Hash)
    requires Reach(g, n, h, a)
    ensures a == h || a in Nodes(g)
  {
    if n > 0 {
      var p :| p in ParentsOf(g, h) && Reach(g, n - 1, p, a);
      ReachStays(g, n - 1, p, a);
    }
  }

  lemma {:induction false} ReachJoin(g: Graph, n: nat, m: nat, h: Hash, x: Hash, a: Hash)
    requires Reach(g, n, h, x) && Reach(g, m, x, a)
    ensures Reach(g, n + m, h, a)
  {
    if n > 0 {
      var p :| p in ParentsOf(g, h) && Reach(g, n - 1, p, x);
      ReachJoin(g, n - 1, m, p, x, a);
      assert Reach(g, n - 1 + m, p, a);
    }
  }

  lemma {:induction false} ReachesJoin(g: Graph, h: Hash, x: Hash, a: Hash)
    requires Reaches(g, h, x) && Reaches(g, x, a)
    ensures Reaches(g, h, a)
  {
    var n: nat :| Reach(g, n, h, x);
    var m: nat :| Reach(g, m, x, a);
    ReachJoin(g, n, m, h, x, a);
  }

  lemma {:induction false} ReachesSelf(g: Graph, h: Hash)
    ensures Reaches(g, h, h)
  {
    assert Reach(g, 0, h, h);
  }

  lemma {:induction false} BelowExists(g: Graph, ps: seq<Hash>)
    ensures exists s :: IsBelow(g, ps, s)
  {
    var s := set a | a in Nodes(g) + Elems(ps) && ReachesFrom(g, ps, a);
    forall a | ReachesFrom(g, ps, a) ensures a in s {
      var p :| p in ps && Reaches(g, p, a);
      var n: nat :| Reach(g, n, p, a);
      ReachStays(g, n, p, a);
    }
    assert IsBelow(g, ps, s);
  }

  lemma {:induction false} BelowMember(g: Graph, ps: seq<Hash>, a: Hash)
    ensures a in Below(g, ps) <==> exists p :: p in ps && Reaches(g, p, a)
  {
    BelowExists(g, ps);
    assert ReachesFrom(g, ps, a) <==> a in Below(g, ps);
  }

  lemma {:induction false} PastMember(g: Graph, h: Hash, a: Hash)
    ensures Reaches(g, h, a) <==> a == h || a in Past(g, h)
  {
    BelowMember(g, ParentsOf(g, h), a);
    if a == h {
      ReachesSelf(g, h);
    } else if Reaches(g, h, a) {
      var n: nat :| Reach(g, n, h, a);
      var p :| p in ParentsOf(g, h) && Reach(g, n - 1, p, a);
      assert Reaches(g, p, a);
    } else if a in Past(g, h) {
      var p :| p in ParentsOf(g, h) && Reaches(g, p, a);
      var n: nat :| Reach(g, n, p, a);
      assert Reach(g, n + 1, h, a);
    }
  }

  /** The past of a parent list, one parent at a time. */
  lemma {:induction false} BelowStep(g: Graph, ps: seq<Hash>, a: Hash)
    ensures a in Below(g, ps) <==> exists p :: p in ps && (a == p || a in Past(g, p))
  {
    BelowMember(g, ps, a);
    forall p | p in ps
      ensures Reaches(g, p, a) <==> a == p || a in Past(g, p)
    {
      PastMember(g, p, a);
    }
  }

  lemma {:induction false} BelowParent(g: Graph, ps: seq<Hash>, p: Hash)
    requires p in ps
    ensures p in Below(g, ps) && Past(g, p) <= Below(g, ps)
  {
    BelowStep(g, ps, p);
    forall a | a in Past(g, p) ensures a in Below(g, ps) {
      BelowStep(g, ps, a);
    }
  }

  /** The past is transitive. */
  lemma {:induction false} BelowTrans(g: Graph, ps: seq<Hash>, x: Hash)
    requires x in Below(g, ps)
    ensures Past(g, x) <= Below(g, ps)
  {
    BelowMember(g, ps, x);
    var p :| p in ps && Reaches(g, p, x);
    forall a | a in Past(g, x) ensures a in Below(g, ps) {
      PastMember(g, x, a);
      ReachesJoin(g, p, x, a);
      BelowMember(g, ps, a);
    }
  }

  /** Any set that holds the parents and is closed under parents holds the whole past. */
  lemma {:induction false} BelowLeast(g: Graph, ps: seq<Hash>, s: set<Hash>)
    requires forall p :: p in ps ==> p in s
    requires forall x, p :: x in s && p in ParentsOf(g, x) ==> p in s
    ensures Below(g, ps) <= s
  {
    forall a | a in Below(g, ps) ensures a in s {
      BelowMember(g, ps, a);
      var p :| p in ps && Reaches(g, p, a);
      var n: nat :| Reach(g, n, p, a);
      ReachIn(g, n, p, a, s);
    }
  }

  lemma {:induction false} ReachIn(g: Graph, n: nat, h: Hash, a: Hash, s: set<Hash>)
    requires Reach(g, n, h, a) && h in s
    requires forall x, p :: x in s && p in ParentsOf(g, x) ==> p in s
    ensures a in s
  {
    if n > 0 {
      var p :| p in ParentsOf(g, h) && Reach(g, n - 1, p, a);
      ReachIn(g, n - 1, p, a, s);
    }
  }

  // Acyclic, parent-closed graphs

  lemma {:induction false} PastKnown(g: Graph, ps: seq<Hash>)
    requires Closed(g) && forall p :: p in ps ==> p in g
    ensures Below(g, ps) <= g.Keys
  {
    BelowLeast(g, ps, g.Keys);
  }

  /** A parent has a strictly smaller past: the measure for recursion along parent edges. */
  lemma {:induction false} PastShrinks(g: Graph, h: Hash, p: Hash)
    requires IsDag(g) && h in g && p in g[h]
    ensures p in Past(g, h) && Past(g, p) < Past(g, h) && |Past(g, p)| < |Past(g, h)|
  {
    BelowParent(g, g[h], p);
    SubsetSize(Past(g, p), Past(g, h));
  }

  // Two graphs that agree on a parent-closed set

  /** Both graphs hold every block of `d` with the same parents, and `d` is closed under parents. */
  ghost predicate AgreeOn(g: Graph, g': Graph, d: set<Hash>) {
    forall x :: x in d ==> x in g && x in g' && g[x] == g'[x] && Elems(g[x]) <= d
  }

  lemma {:induction false} AgreeReach(g: Graph, g': Graph, d: set<Hash>, n: nat, h: Hash, a: Hash)
    requires AgreeOn(g, g', d) && h in d
    ensures Reach(g, n, h, a) <==> Reach(g', n, h, a)
    ensures Reach(g, n, h, a) ==> a in d
  {
    if n > 0 {
      assert ParentsOf(g, h) == ParentsOf(g', h);
      forall p | p in ParentsOf(g, h)
        ensures Reach(g, n - 1, p, a) <==> Reach(g', n - 1, p, a)
        ensures Reach(g, n - 1, p, a) ==> a in d
      {
        assert p in Elems(g[h]);
        AgreeReach(g, g', d, n - 1, p, a);
      }
    }
  }

  /** The past of a block depends only on the blocks below it. */
  lemma {:induction false} AgreeBelow(g: Graph, g': Graph, d: set<Hash>, ps: seq<Hash>)
    requires AgreeOn(g, g', d) && Elems(ps) <= d
    ensures Below(g, ps) == Below(g', ps) && Below(g, ps) <= d
  {
    forall a ensures a in Below(g, ps) <==> a in Below(g', ps)
             ensures a in Below(g, ps) ==> a in d
    {
      BelowMember(g, ps, a);
      BelowMember(g', ps, a);
      forall p | p in ps
        ensures Reaches(g, p, a) <==> Reaches(g', p, a)
        ensures Reaches(g, p, a) ==> a in d
      {
        assert p in Elems(ps);
        forall n: nat
          ensures Reach(g, n, p, a) <==> Reach(g', n, p, a)
          ensures Reach(g, n, p, a) ==> a in d
        {
          AgreeReach(g, g', d, n, p, a);
        }
      }
    }
  }

  lemma {:induction false} AgreePast(g: Graph, g': Graph, d: set<Hash>, h: Hash)
    requires AgreeOn(g, g', d) && h in d
    ensures Past(g, h) == Past(g', h) && Past(g, h) <= d
  {
    AgreeBelow(g, g', d, g[h]);
  }

  // Inserting a block

  ghost predicate Insertable(g: Graph, h: Hash, ps: seq<Hash>) {
    h !in g && forall p :: p in ps ==> p in g
  }

  lemma {:induction false} InsertAgrees(g: Graph, h: Hash, ps: seq<Hash>)
    requires Closed(g) && h !in g
    ensures AgreeOn(g, g[h := ps], g.Keys)
  {
    forall x | x in g ensures Elems(g[x]) <= g.Keys {
    }
  }

  /** Inserting a fresh block whose parents are known keeps the graph a DAG and changes nobody's past. */
  lemma {:induction false} InsertKeepsDag(g: Graph, h: Hash, ps: seq<Hash>)
    requires IsDag(g) && Insertable(g, h, ps)
    ensures IsDag(g[h := ps])
    ensures forall x :: x in g ==> Past(g[h := ps], x) == Past(g, x)
    ensures Past(g[h := ps], h) == Below(g, ps)
  {
    var g' := g[h := ps];
    InsertAgrees(g, h, ps);
    forall x | x in g ensures Past(g', x) == Past(g, x) {
      AgreePast(g, g', g.Keys, x);
    }
    AgreeBelow(g, g', g.Keys, ps);
  }

  ghost predicate SmallerParents(g: Graph) {
    forall h, p :: h in g && p in g[h] ==> p in g && p < h
  }

  /** A graph whose parents are all stored and carry smaller hashes is a DAG. */
  lemma {:induction false} SmallerParentsDag(g: Graph)
    requires SmallerParents(g)
    ensures IsDag(g)
  {
    forall h | h in g ensures h !in Past(g, h) {
      SmallerPast(g, h);
    }
  }

  lemma {:induction false} SmallerPast(g: Graph, h: Hash)
    requires SmallerParents(g) && h in g
    ensures h !in Past(g, h)
  {
    var smaller := set x | x in g.Keys && x < h;
    forall x, p | x in smaller && p in ParentsOf(g, x) ensures p in smaller {
      assert x in g && p in g[x];
      assert p in g && p < x;
    }
    forall p | p in g[h] ensures p in smaller {
      assert p in g && p < h;
    }
    BelowLeast(g, g[h], smaller);
  }
}
