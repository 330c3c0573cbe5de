/** GHOSTDAG colouring as a function of the block graph and of the data cached for the parents. */
module Colouring {
  import opened Types
  import opened Sequences
  import opened Dag

  /** `blueScore` is a 64-bit counter in the node; `ScoreBound` shows when it cannot wrap. */
  datatype GhostdagData = GhostdagData(
    blueScore: nat,
    selectedParent: Option<Hash>,
    blues: seq<Hash>,
    reds: seq<Hash>)

  type Cache = map<Hash, GhostdagData>

  /** The last cached parent of maximal blue score. */
  function SelectedParent(ps: seq<Hash>, c: Cache): (r: Option<Hash>)
    ensures r.None? <==> forall p :: p in ps ==> p !in c
    ensures r.Some? ==> r.value in ps && r.value in c
    ensures r.Some? ==> forall p :: p in ps && p in c ==> c[p].blueScore <= c[r.value].blueScore
  {
    if ps == [] then None
    else
      var n := |ps| - 1;
      var r, p := SelectedParent(ps[..n], c), ps[n];
      assert forall q :: q in ps ==> q in ps[..n] || q == p;
      if p in c && (r.None? || c[r.value].blueScore <= c[p].blueScore) then Some(p) else r
  }

  /** Among cached parents of equal, maximal score the one listed last is selected. */
  lemma {:induction false} SelectedParentIsLast(ps: seq<Hash>, c: Cache) returns (i: nat)
    requires SelectedParent(ps, c).Some?
    ensures i < |ps| && ps[i] == SelectedParent(ps, c).value
    ensures forall j :: i < j < |ps| && ps[j] in c ==> c[ps[j]].blueScore < c[ps[i]].blueScore
  {
    var n := |ps| - 1;
    var r := SelectedParent(ps[..n], c);
    if ps[n] in c && (r.None? || c[r.value].blueScore <= c[ps[n]].blueScore) {
      i := n;
    } else {
      i := SelectedParentIsLast(ps[..n], c);
    }
  }

  /** How many entries of `xs` lie in the anticone of `x`. */
  ghost function AnticoneCount(g: Graph, xs: seq<Hash>, x: Hash): nat {
    if xs == [] then 0
    else
      var n := |xs| - 1;
      AnticoneCount(g, xs[..n], x) + if InAnticone(g, x, xs[n]) then 1 else 0
  }

  /** No blue block in the candidate's anticone has `k` blue blocks in its own anticone already. */
  ghost predicate CanBeBlue(g: Graph, k: nat, candidate: Hash, blues: seq<Hash>) {
    forall b :: b in blues && InAnticone(g, b, candidate) ==> AnticoneCount(g, blues, b) < k
  }

  /** The greedy pass over the sorted candidates. */
  ghost function Colour(g: Graph, k: nat, candidates: seq<Hash>, blues: seq<Hash>, reds: seq<Hash>)
    : (seq<Hash>, seq<Hash>)
    decreases |candidates|
  {
    if candidates == [] then (blues, reds)
    else if CanBeBlue(g, k, candidates[0], blues)
    then Colour(g, k, candidates[1..], blues + [candidates[0]], reds)
    else Colour(g, k, candidates[1..], blues, reds + [candidates[0]])
  }

  /** The blocks a block with parents `ps` merges beside its selected parent. */
  ghost function Merged(g: Graph, ps: seq<Hash>, sp: Hash): set<Hash> {
    Below(g, ps) - Past(g, sp) - {sp}
  }

  /** The data of a block with parents `ps`. */
  ghost function Step(g: Graph, k: nat, ps: seq<Hash>, c: Cache): GhostdagData {
    var selected := SelectedParent(ps, c);
    if selected.None? then GhostdagData(0, None, [], [])
    else
      var sp := selected.value;
      var inherited := AppendNew([sp], c[sp].blues);
      var (blues, reds) := Colour(g, k, Ascending(Merged(g, ps, sp)), inherited, []);
      GhostdagData(c[sp].blueScore + |blues|, selected, blues, reds)
  }

  ghost predicate Coloured(g: Graph, k: nat, c: Cache, h: Hash) {
    h in g && h in c && c[h] == Step(g, k, g[h], c)
  }

  /** Every stored block is cached with exactly the data its parents determine. */
  ghost predicate Consistent(g: Graph, k: nat, c: Cache) {
    && IsDag(g)
    && c.Keys == g.Keys
    && forall h {:trigger Coloured(g, k, c, h)} :: h in g ==> Coloured(g, k, c, h)
  }

  // Counting anticones

  lemma {:induction false} CountSplit(g: Graph, xs: seq<Hash>, ys: seq<Hash>, x: Hash)
    ensures AnticoneCount(g, xs + ys, x) == AnticoneCount(g, xs, x) + AnticoneCount(g, ys, x)
    decreases |ys|
  {
    if ys == [] {
      assert xs + ys == xs;
    } else {
      var n := |ys| - 1;
      CountSplit(g, xs, ys[..n], x);
      assert (xs + ys)[..|xs + ys| - 1] == xs + ys[..n];
    }
  }

  lemma {:induction false} CountSnoc(g: Graph, xs: seq<Hash>, y: Hash, x: Hash)
    ensures AnticoneCount(g, xs + [y], x) == AnticoneCount(g, xs, x) + if InAnticone(g, x, y) then 1 else 0
  {
    assert (xs + [y])[..|xs|] == xs;
  }

  lemma {:induction false} CountNone(g: Graph, xs: seq<Hash>, x: Hash)
    requires forall y :: y in xs ==> !InAnticone(g, x, y)
    ensures AnticoneCount(g, xs, x) == 0
  {
    if xs == [] {
    } else {
      CountNone(g, xs[..|xs| - 1], x);
    }
  }

  /** Accepting a candidate never lifts an already blue block above `k` blue blocks in its anticone. */
  lemma {:induction false} AcceptKeepsBlueAnticones(g: Graph, k: nat, candidate: Hash, blues: seq<Hash>, b: Hash)
    requires CanBeBlue(g, k, candidate, blues) && b in blues
    ensures InAnticone(g, b, candidate) ==> AnticoneCount(g, blues + [candidate], b) <= k
    ensures !InAnticone(g, b, candidate) ==>
              AnticoneCount(g, blues + [candidate], b) == AnticoneCount(g, blues, b)
  {
    CountSnoc(g, blues, candidate, b);
  }

  // The ordered bound

  /** Every entry has at most `k` later entries in its anticone. */
  ghost predicate OrderedBound(g: Graph, k: nat, xs: seq<Hash>) {
    forall i :: 0 <= i < |xs| ==> AnticoneCount(g, xs[i + 1..], xs[i]) <= k
  }

  lemma {:induction false} OrderedBoundAccept(g: Graph, k: nat, candidate: Hash, blues: seq<Hash>)
    requires OrderedBound(g, k, blues) && CanBeBlue(g, k, candidate, blues)
    ensures OrderedBound(g, k, blues + [candidate])
  {
    var r := blues + [candidate];
    forall i | 0 <= i < |r| ensures AnticoneCount(g, r[i + 1..], r[i]) <= k {
      if i < |blues| {
        var later := blues[i + 1..];
        assert r[i + 1..] == later + [candidate];
        CountSnoc(g, later, candidate, r[i]);
        assert blues == blues[..i + 1] + later;
        CountSplit(g, blues[..i + 1], later, r[i]);
        assert r[i] in blues;
      } else {
        assert r[i + 1..] == [];
      }
    }
  }

  lemma {:induction false} ColourKeepsOrderedBound(
      g: Graph, k: nat, candidates: seq<Hash>, blues: seq<Hash>, reds: seq<Hash>)
    requires OrderedBound(g, k, blues)
    ensures OrderedBound(g, k, Colour(g, k, candidates, blues, reds).0)
    decreases |candidates|
  {
    if candidates == [] {
    } else if CanBeBlue(g, k, candidates[0], blues) {
      OrderedBoundAccept(g, k, candidates[0], blues);
      ColourKeepsOrderedBound(g, k, candidates[1..], blues + [candidates[0]], reds);
    } else {
      ColourKeepsOrderedBound(g, k, candidates[1..], blues, reds + [candidates[0]]);
    }
  }

  // What the greedy pass returns

  lemma {:induction false} ColourSplits(
      g: Graph, k: nat, candidates: seq<Hash>, blues: seq<Hash>, reds: seq<Hash>)
    requires NoDup(candidates) && NoDup(blues) && NoDup(reds)
    requires Elems(candidates) !! Elems(blues) && Elems(candidates) !! Elems(reds) && Elems(blues) !! Elems(reds)
    ensures var (b, r) := Colour(g, k, candidates, blues, reds);
            && blues <= b && reds <= r && NoDup(b) && NoDup(r) && Elems(b) !! Elems(r)
            && Elems(b) + Elems(r) == Elems(blues) + Elems(reds) + Elems(candidates)
    decreases |candidates|
  {
    if candidates == [] {
    } else {
      var x, rest := candidates[0], candidates[1..];
      assert candidates == [x] + rest;
      ElemsConcat([x], rest);
      assert x in Elems(candidates);
      assert x !in Elems(rest);
      assert Elems([x]) == {x};
      if CanBeBlue(g, k, x, blues) {
        NoDupSnoc(blues, x);
        ColourSplits(g, k, rest, blues + [x], reds);
      } else {
        NoDupSnoc(reds, x);
        ColourSplits(g, k, rest, blues, reds + [x]);
      }
    }
  }

  /** The parts of `Step` for a block whose parents are all cached, given what its selected parent keeps. */
  lemma {:induction false} StepShape(g: Graph, k: nat, ps: seq<Hash>, c: Cache) returns (sp: Hash)
    requires ps != [] && forall p :: p in ps ==> p in c
    requires forall p :: p in ps ==> NoDup(c[p].blues) && Elems(c[p].blues) <= Past(g, p) && p !in Past(g, p)
    ensures sp in ps
    ensures var d := Step(g, k, ps, c);
            && d.selectedParent == Some(sp)
            && [sp] + c[sp].blues <= d.blues
            && NoDup(d.blues) && NoDup(d.reds) && Elems(d.blues) !! Elems(d.reds)
            && Elems(d.blues) + Elems(d.reds) == {sp} + Elems(c[sp].blues) + Merged(g, ps, sp)
            && d.blueScore == c[sp].blueScore + |d.blues|
            && (d.blues, d.reds) == Colour(g, k, Ascending(Merged(g, ps, sp)), [sp] + c[sp].blues, [])
  {
    assert ps[0] in ps;
    sp := SelectedParent(ps, c).value;
    var inherited := c[sp].blues;
    assert forall x :: x in inherited ==> x in Elems(inherited);
    AppendNewDisjoint([sp], inherited);
    ElemsConcat([sp], inherited);
    assert Elems([sp]) == {sp};
    var m := Merged(g, ps, sp);
    AscendingSpec(m);
    ColourSplits(g, k, Ascending(m), [sp] + inherited, []);
  }

  /** All that the data `d` of a block with parents `ps` says about the blocks below it. */
  ghost predicate WellColoured(g: Graph, k: nat, c: Cache, ps: seq<Hash>, d: GhostdagData) {
    && NoDup(d.blues) && NoDup(d.reds) && Elems(d.blues) !! Elems(d.reds)
    && Elems(d.blues) <= Below(g, ps) && Elems(d.reds) <= Below(g, ps)
    && OrderedBound(g, k, d.blues)
    && (ps == [] ==> d == GhostdagData(0, None, [], []))
    && (ps != [] ==> d.selectedParent.Some? && BuiltOn(g, c, ps, d, d.selectedParent.value))
  }

  ghost predicate BuiltOn(g: Graph, c: Cache, ps: seq<Hash>, d: GhostdagData, sp: Hash) {
    && sp in ps && sp in c
    && [sp] + c[sp].blues <= d.blues
    && d.blueScore == c[sp].blueScore + |d.blues|
    && Elems(d.blues) + Elems(d.reds) == {sp} + Elems(c[sp].blues) + Merged(g, ps, sp)
    && forall p :: p in ps ==> p in c && c[p].blueScore <= c[sp].blueScore
  }

  ghost predicate ParentColoured(g: Graph, k: nat, c: Cache, p: Hash) {
    && p in c && p !in Past(g, p)
    && NoDup(c[p].blues) && Elems(c[p].blues) <= Past(g, p) && OrderedBound(g, k, c[p].blues)
  }

  lemma {:induction false} StepWellColoured(g: Graph, k: nat, ps: seq<Hash>, c: Cache)
    requires forall p :: p in ps ==> ParentColoured(g, k, c, p)
    ensures WellColoured(g, k, c, ps, Step(g, k, ps, c))
  {
    var d := Step(g, k, ps, c);
    if ps != [] {
      assert forall p :: p in ps ==> ParentColoured(g, k, c, p);
      var sp := StepShape(g, k, ps, c);
      BelowParent(g, ps, sp);
      InheritKeepsOrderedBound(g, k, sp, c[sp].blues);
      ColourKeepsOrderedBound(g, k, Ascending(Merged(g, ps, sp)), [sp] + c[sp].blues, []);
      assert SelectedParent(ps, c) == Some(sp);
      assert BuiltOn(g, c, ps, d, sp);
      assert Elems(d.blues) + Elems(d.reds) <= Below(g, ps);
    }
  }

  lemma {:induction false} ConsistentColours(g: Graph, k: nat, c: Cache, h: Hash)
    requires Consistent(g, k, c) && h in g
    ensures h in c && WellColoured(g, k, c, g[h], c[h])
    decreases |Past(g, h)|
  {
    forall p | p in g[h] ensures ParentColoured(g, k, c, p) {
      PastShrinks(g, h, p);
      ConsistentColours(g, k, c, p);
    }
    StepWellColoured(g, k, g[h], c);
    assert Coloured(g, k, c, h);
  }

  lemma {:induction false} StepInputs(g: Graph, k: nat, c: Cache, h: Hash)
    requires Consistent(g, k, c) && h in g
    ensures forall p :: p in g[h] ==>
      p in c && NoDup(c[p].blues) && Elems(c[p].blues) <= Past(g, p) && p !in Past(g, p)
  {
    hide OrderedBound;
    forall p | p in g[h] ensures p in c && NoDup(c[p].blues) && Elems(c[p].blues) <= Past(g, p) && p !in Past(g, p) {
      assert p in g;
      ConsistentColours(g, k, c, p);
    }
  }

  lemma {:induction false} InheritKeepsOrderedBound(g: Graph, k: nat, sp: Hash, blues: seq<Hash>)
    requires OrderedBound(g, k, blues) && Elems(blues) <= Past(g, sp)
    ensures OrderedBound(g, k, [sp] + blues)
  {
    var r := [sp] + blues;
    forall i | 0 <= i < |r| ensures AnticoneCount(g, r[i + 1..], r[i]) <= k {
      if i == 0 {
        assert r[1..] == blues;
        NoneBelow(g, sp, blues);
      } else {
        var j := i - 1;
        assert r[i] == blues[j] && r[i + 1..] == blues[j + 1..];
      }
    }
  }

  lemma {:induction false} NoneBelow(g: Graph, sp: Hash, blues: seq<Hash>)
    requires Elems(blues) <= Past(g, sp)
    ensures AnticoneCount(g, blues, sp) == 0
  {
    forall y | y in blues ensures !InAnticone(g, sp, y) {
      assert y in Elems(blues);
    }
    CountNone(g, blues, sp);
  }

  // A block's data depends on its past alone

  lemma {:induction false} AgreeColour(
      g: Graph, g': Graph, k: nat, d: set<Hash>, candidates: seq<Hash>, blues: seq<Hash>, reds: seq<Hash>)
    requires AgreeOn(g, g', d) && Elems(candidates) <= d && Elems(blues) <= d
    ensures Colour(g, k, candidates, blues, reds) == Colour(g', k, candidates, blues, reds)
    decreases |candidates|
  {
    if candidates == [] {
    } else {
      var x, rest := candidates[0], candidates[1..];
      assert x in Elems(candidates);
      assert Elems(rest) <= Elems(candidates);
      ElemsConcat(blues, [x]);
      assert forall b :: b in blues ==> b in Elems(blues);
      forall b | b in blues
        ensures InAnticone(g, b, x) <==> InAnticone(g', b, x)
        ensures AnticoneCount(g, blues, b) == AnticoneCount(g', blues, b)
      {
        AgreePast(g, g', d, b);
        AgreePast(g, g', d, x);
        AgreeCount(g, g', d, blues, b);
      }
      AgreeColour(g, g', k, d, rest, blues + [x], reds);
      AgreeColour(g, g', k, d, rest, blues, reds + [x]);
    }
  }

  lemma {:induction false} AgreeCount(g: Graph, g': Graph, d: set<Hash>, xs: seq<Hash>, x: Hash)
    requires AgreeOn(g, g', d) && Elems(xs) <= d && x in d
    ensures AnticoneCount(g, xs, x) == AnticoneCount(g', xs, x)
  {
    if xs == [] {
    } else {
      var n := |xs| - 1;
      assert xs[n] in Elems(xs);
      assert Elems(xs[..n]) <= Elems(xs);
      AgreePast(g, g', d, x);
      AgreePast(g, g', d, xs[n]);
      AgreeCount(g, g', d, xs[..n], x);
    }
  }

  lemma {:induction false} AgreeSelectedParent(ps: seq<Hash>, c: Cache, c': Cache)
    requires forall p :: p in ps ==> p in c && p in c' && c[p] == c'[p]
    ensures SelectedParent(ps, c) == SelectedParent(ps, c')
  {
    if ps == [] {
    } else {
      AgreeSelectedParent(ps[..|ps| - 1], c, c');
    }
  }

  lemma {:induction false} AgreeStep(g: Graph, g': Graph, k: nat, d: set<Hash>, ps: seq<Hash>, c: Cache, c': Cache)
    requires AgreeOn(g, g', d) && Elems(ps) <= d
    requires forall p :: p in ps ==> p in c && p in c' && c[p] == c'[p] && Elems(c[p].blues) <= d
    ensures Step(g, k, ps, c) == Step(g', k, ps, c')
  {
    AgreeSelectedParent(ps, c, c');
    var selected := SelectedParent(ps, c);
    if selected.Some? {
      var sp := selected.value;
      assert sp in Elems(ps);
      AgreePast(g, g', d, sp);
      AgreeBelow(g, g', d, ps);
      AscendingSpec(Merged(g, ps, sp));
      AppendNewElems([sp], c[sp].blues);
      AgreeColour(g, g', k, d, Ascending(Merged(g, ps, sp)), AppendNew([sp], c[sp].blues), []);
    }
  }

  /** Two consistent nodes give a block the same data as soon as they agree on what lies below it,
      whatever else either of them has seen and in whatever order. */
  lemma {:induction false} PastDeterminesData(
      g: Graph, c: Cache, g': Graph, c': Cache, k: nat, d: set<Hash>, h: Hash)
    requires Consistent(g, k, c) && Consistent(g', k, c')
    requires AgreeOn(g, g', d) && h in d
    ensures c[h] == c'[h]
    decreases |Past(g, h)|
  {
    var ps := g[h];
    forall p | p in ps
      ensures p in c && p in c' && c[p] == c'[p] && Elems(c[p].blues) <= d
    {
      assert p in Elems(ps);
      PastShrinks(g, h, p);
      PastDeterminesData(g, c, g', c', k, d, p);
      ConsistentColours(g, k, c, p);
      AgreePast(g, g', d, p);
    }
    AgreeStep(g, g', k, d, ps, c, c');
    assert Coloured(g, k, c, h) && Coloured(g', k, c', h);
  }

  /** A store has only one consistent cache. */
  lemma {:induction false} ConsistentUnique(g: Graph, k: nat, c: Cache, c': Cache)
    requires Consistent(g, k, c) && Consistent(g, k, c')
    ensures c == c'
  {
    forall h | h in g ensures c[h] == c'[h] {
      forall x | x in g ensures Elems(g[x]) <= g.Keys {
      }
      PastDeterminesData(g, c, g, c', k, g.Keys, h);
    }
  }

  /** Colouring a fresh block keeps the cache consistent: nothing already cached needs recolouring. */
  lemma {:induction false} InsertKeepsConsistent(g: Graph, k: nat, c: Cache, h: Hash, ps: seq<Hash>)
    requires Consistent(g, k, c) && Insertable(g, h, ps)
    ensures Consistent(g[h := ps], k, c[h := Step(g, k, ps, c)])
  {
    var g', c' := g[h := ps], c[h := Step(g, k, ps, c)];
    InsertKeepsDag(g, h, ps);
    InsertAgrees(g, h, ps);
    forall x | x in g' ensures Coloured(g', k, c', x) {
      forall p | p in g'[x]
        ensures p in c && p in c' && c[p] == c'[p] && Elems(c[p].blues) <= g.Keys
      {
        ConsistentColours(g, k, c, p);
        PastKnown(g, g[p]);
      }
      AgreeStep(g, g', k, g.Keys, g'[x], c, c');
      assert x in g ==> Coloured(g, k, c, x);
    }
  }

  lemma {:induction false} DeepestBlock(g: Graph, s: set<Hash>) returns (h: Hash)
    requires s != {}
    ensures h in s && forall x :: x in s ==> |Past(g, x)| <= |Past(g, h)|
  {
    var y :| y in s;
    var rest := s - {y};
    if rest == {} {
      h := y;
      assert s == {y};
    } else {
      var other := DeepestBlock(g, rest);
      h := if |Past(g, other)| < |Past(g, y)| then y else other;
      forall x | x in s ensures |Past(g, x)| <= |Past(g, h)| {
        assert x == y || x in rest;
      }
    }
  }

  lemma {:induction false} RemoveDeepest(g: Graph, h: Hash)
    requires IsDag(g) && h in g && forall x :: x in g ==> |Past(g, x)| <= |Past(g, h)|
    ensures IsDag(g - {h}) && Insertable(g - {h}, h, g[h]) && (g - {h})[h := g[h]] == g
  {
    var g' := g - {h};
    forall x, p | x in g && p in g[x] ensures p in g' {
      PastShrinks(g, x, p);
    }
    forall x | x in g' ensures Elems(g'[x]) <= g'.Keys {
    }
    assert AgreeOn(g', g, g'.Keys);
    forall x | x in g' ensures x !in Past(g', x) {
      AgreePast(g', g, g'.Keys, x);
    }
  }

  /** Every DAG has a consistent cache, and by `ConsistentUnique` only one. */
  lemma {:induction false} ConsistentExists(g: Graph, k: nat)
    requires IsDag(g)
    ensures exists c :: Consistent(g, k, c)
    decreases |g|
  {
    if g == map[] {
      assert Consistent(g, k, map[]);
    } else {
      assert g.Keys != {};
      var h := DeepestBlock(g, g.Keys);
      RemoveDeepest(g, h);
      assert |(g - {h}).Keys| < |g.Keys| by {
        SubsetSize((g - {h}).Keys, g.Keys);
      }
      ConsistentExists(g - {h}, k);
      var c :| Consistent(g - {h}, k, c);
      InsertKeepsConsistent(g - {h}, k, c, h, g[h]);
    }
  }

  // Blue scores

  /** The blue score grows strictly along every parent edge. */
  lemma {:induction false} ScoreGrows(g: Graph, k: nat, c: Cache, h: Hash, p: Hash)
    requires Consistent(g, k, c) && h in g && p in g[h]
    ensures p in g && c[p].blueScore < c[h].blueScore
  {
    ConsistentColours(g, k, c, h);
  }

  /** ... and hence along every path. */
  lemma {:induction false} ScoreGrowsDeep(g: Graph, k: nat, c: Cache, h: Hash, a: Hash)
    requires Consistent(g, k, c) && h in g && a in Past(g, h)
    ensures a in g && c[a].blueScore < c[h].blueScore
    decreases |Past(g, h)|
  {
    BelowStep(g, g[h], a);
    var p :| p in g[h] && (a == p || a in Past(g, p));
    ScoreGrows(g, k, c, h, p);
    if a != p {
      PastShrinks(g, h, p);
      ScoreGrowsDeep(g, k, c, p, a);
    }
  }

  /** A block with `n` blocks in its past scores at most n(n+1)/2. */
  lemma {:induction false} ScoreBound(g: Graph, k: nat, c: Cache, h: Hash)
    requires Consistent(g, k, c) && h in g
    ensures 2 * c[h].blueScore <= Triangle(|Past(g, h)|)
    decreases |Past(g, h)|
  {
    ConsistentColours(g, k, c, h);
    if g[h] != [] {
      var sp := c[h].selectedParent.value;
      PastShrinks(g, h, sp);
      ScoreBound(g, k, c, sp);
      NoDupSize(c[h].blues);
      SubsetSize(Elems(c[h].blues), Past(g, h));
      TriangleStep(|Past(g, sp)|, |Past(g, h)|);
    }
  }

  function Triangle(n: nat): nat {
    n * (n + 1)
  }

  lemma {:induction false} TriangleStep(m: nat, n: nat)
    requires m < n
    ensures Triangle(m) + 2 * n <= Triangle(n)
  {
    assert Triangle(n) == (n - 1) * n + 2 * n;
    TriangleMonotone(m, n - 1);
  }

  lemma {:induction false} TriangleMonotone(m: nat, n: nat)
    requires m <= n
    ensures Triangle(m) <= Triangle(n)
  {
    assert m * (m + 1) <= n * (m + 1) <= n * (n + 1);
  }

  /** The node's 64-bit score cannot wrap before a block has more than 6 x 10^9 blocks in its past. */
  lemma {:induction false} ScoreFitsU64(g: Graph, k: nat, c: Cache, h: Hash)
    requires Consistent(g, k, c) && h in g && |Past(g, h)| <= 6_000_000_000
    ensures c[h].blueScore < TWO_TO_THE_64
  {
    ScoreBound(g, k, c, h);
    TriangleMonotone(|Past(g, h)|, 6_000_000_000);
  }

  /** What a block merges is exactly the part of its past in the anticone of the selected parent:
      nothing merged is the selected parent, an ancestor of it, or a descendant of it. */
  lemma {:induction false} MergedIsAnticone(g: Graph, k: nat, c: Cache, ps: seq<Hash>, sp: Hash)
    requires Consistent(g, k, c) && (forall p :: p in ps ==> p in g) && SelectedParent(ps, c) == Some(sp)
    ensures Merged(g, ps, sp) == set a | a in Below(g, ps) && InAnticone(g, sp, a)
  {
    forall a | a in Below(g, ps) && a != sp ensures sp !in Past(g, a) {
      BelowStep(g, ps, a);
      var p :| p in ps && (a == p || a in Past(g, p));
      if sp in Past(g, a) {
        if a != p {
          ScoreGrowsDeep(g, k, c, p, a);
        }
        ScoreGrowsDeep(g, k, c, a, sp);
        assert false;
      }
    }
  }

  // The two colours

  ghost predicate FallsAt(c: Cache, h: Hash) {
    h in c && c[h].selectedParent.Some? && c[h].selectedParent.value in c ==>
      c[c[h].selectedParent.value].blueScore < c[h].blueScore
  }

  /** Scores fall along selected parents, so every selected chain is finite. */
  ghost predicate ScoreFalls(c: Cache) {
    forall h {:trigger FallsAt(c, h)} :: FallsAt(c, h)
  }

  lemma {:induction false} ConsistentFalls(g: Graph, k: nat, c: Cache)
    requires Consistent(g, k, c)
    ensures ScoreFalls(c)
  {
    forall h ensures FallsAt(c, h) {
      if h in c {
        ConsistentColours(g, k, c, h);
      }
    }
  }

  /** The reds of `h` and of every block on its selected chain. */
  ghost function ChainReds(c: Cache, h: Hash): set<Hash>
    requires ScoreFalls(c)
    decreases if h in c then c[h].blueScore + 1 else 0
  {
    if h !in c then {}
    else
      assert FallsAt(c, h);
      Elems(c[h].reds) +
      if c[h].selectedParent.None? then {} else ChainReds(c, c[h].selectedParent.value)
  }

  ghost predicate OnChain(c: Cache, h: Hash, a: Hash)
    requires ScoreFalls(c)
    decreases if h in c then c[h].blueScore + 1 else 0
  {
    assert FallsAt(c, h);
    h == a || (h in c && c[h].selectedParent.Some? && OnChain(c, c[h].selectedParent.value, a))
  }

  /** The set algebra of one step of the partition. */
  lemma {:induction false} PartitionStep<T>(
      below: set<T>, merged: set<T>, inherited: seq<T>, chainReds: set<T>, blues: seq<T>, reds: seq<T>)
    requires inherited <= blues && below == Elems(inherited) + chainReds
    requires Elems(inherited) !! chainReds && merged !! below
    requires Elems(blues) !! Elems(reds) && Elems(blues) + Elems(reds) == Elems(inherited) + merged
    ensures below + merged == Elems(blues) + (Elems(reds) + chainReds)
    ensures Elems(blues) !! Elems(reds) + chainReds
  {
    assert forall x :: x in inherited ==> x in blues;
    assert Elems(inherited) <= Elems(blues);
  }

  ghost predicate Partitioned(g: Graph, c: Cache, h: Hash)
    requires h in c && ScoreFalls(c)
  {
    Past(g, h) == Elems(c[h].blues) + ChainReds(c, h) && Elems(c[h].blues) !! ChainReds(c, h)
  }

  lemma {:induction false} MergedCompletes(g: Graph, h: Hash, sp: Hash)
    requires h in g && sp in g[h]
    ensures Past(g, h) == (Past(g, sp) + {sp}) + Merged(g, g[h], sp)
  {
    BelowParent(g, g[h], sp);
    var past, inherited := Past(g, h), Past(g, sp) + {sp};
    assert inherited <= past;
    assert Merged(g, g[h], sp) == past - inherited;
  }

  lemma {:induction false} PartitionUp(g: Graph, c: Cache, h: Hash, sp: Hash)
    requires h in g && h in c && ScoreFalls(c) && c[h].selectedParent == Some(sp)
    requires BuiltOn(g, c, g[h], c[h], sp) && Elems(c[h].blues) !! Elems(c[h].reds)
    requires Past(g, h) == (Past(g, sp) + {sp}) + Merged(g, g[h], sp) && sp !in Past(g, sp)
    requires Partitioned(g, c, sp)
    ensures Partitioned(g, c, h)
  {
    var inherited := [sp] + c[sp].blues;
    ElemsConcat([sp], c[sp].blues);
    assert Elems([sp]) == {sp};
    assert sp !in ChainReds(c, sp);
    PartitionStep(Past(g, sp) + {sp}, Merged(g, g[h], sp), inherited, ChainReds(c, sp), c[h].blues, c[h].reds);
  }

  /** Blue and red split the past of every block exactly. */
  lemma {:induction false} ColourPartition(g: Graph, k: nat, c: Cache, h: Hash)
    requires Consistent(g, k, c) && ScoreFalls(c) && h in g
    ensures Partitioned(g, c, h)
    decreases |Past(g, h)|
  {
    ConsistentColours(g, k, c, h);
    if g[h] == [] {
      BelowLeast(g, [], {});
    } else {
      var sp := c[h].selectedParent.value;
      PastShrinks(g, h, sp);
      ColourPartition(g, k, c, sp);
      MergedCompletes(g, h, sp);
      PartitionUp(g, c, h, sp);
    }
  }

  lemma {:induction false} KeepsColours(g: Graph, c: Cache, h: Hash, sp: Hash)
    requires h in c && sp in c && ScoreFalls(c) && c[h].selectedParent == Some(sp)
    requires Partitioned(g, c, h) && Partitioned(g, c, sp) && [sp] + c[sp].blues <= c[h].blues
    ensures sp in c[h].blues
    ensures forall x :: x in Past(g, sp) ==> (x in c[sp].blues <==> x in c[h].blues)
  {
    var inherited := [sp] + c[sp].blues;
    assert sp == inherited[0] == c[h].blues[0];
    assert ChainReds(c, sp) <= ChainReds(c, h);
    forall x | x in Past(g, sp) ensures x in c[sp].blues <==> x in c[h].blues {
      assert x in Elems(c[sp].blues) || x in ChainReds(c, sp);
      assert x in c[sp].blues ==> x in inherited;
      assert x in c[h].blues ==> x in Elems(c[h].blues);
    }
  }

  /** A block sees its selected parent's past in the same colours. */
  lemma {:induction false} ColourStep(g: Graph, k: nat, c: Cache, h: Hash)
    requires Consistent(g, k, c) && ScoreFalls(c) && h in g && c[h].selectedParent.Some?
    ensures var sp := c[h].selectedParent.value;
            && sp in g && sp in Past(g, h) && sp in c[h].blues && Past(g, sp) < Past(g, h)
            && |Past(g, sp)| < |Past(g, h)|
            && forall x :: x in Past(g, sp) ==> (x in c[sp].blues <==> x in c[h].blues)
  {
    ConsistentColours(g, k, c, h);
    var sp := c[h].selectedParent.value;
    PastShrinks(g, h, sp);
    ColourPartition(g, k, c, h);
    ColourPartition(g, k, c, sp);
    KeepsColours(g, c, h, sp);
  }

  /** A colour given at a chain block is kept by every block built on it. */
  lemma {:induction false} ColourStability(g: Graph, k: nat, c: Cache, h: Hash, a: Hash)
    requires Consistent(g, k, c) && ScoreFalls(c) && h in g && OnChain(c, h, a)
    ensures a in g && Past(g, a) <= Past(g, h) && (a == h || (a in Past(g, h) && a in c[h].blues))
    ensures forall x :: x in Past(g, a) ==> (x in c[a].blues <==> x in c[h].blues)
    decreases |Past(g, h)|
  {
    if a != h {
      ColourStep(g, k, c, h);
      ColourStability(g, k, c, c[h].selectedParent.value, a);
    }
  }

  // The bound the colouring does not keep

  /** Every entry has at most `k` entries of the list in its anticone. */
  ghost predicate KCluster(g: Graph, k: nat, xs: seq<Hash>) {
    forall x :: x in xs ==> AnticoneCount(g, xs, x) <= k
  }

  /** Accepting a candidate keeps a k-cluster exactly when the candidate itself has at most `k` blue
      blocks in its anticone, which the check never asks. */
  lemma {:induction false} AcceptKeepsCluster(g: Graph, k: nat, candidate: Hash, blues: seq<Hash>)
    requires KCluster(g, k, blues) && candidate !in blues && CanBeBlue(g, k, candidate, blues)
    ensures KCluster(g, k, blues + [candidate]) <==> AnticoneCount(g, blues, candidate) <= k
  {
    var r := blues + [candidate];
    assert candidate in r;
    CountSnoc(g, blues, candidate, candidate);
    forall b | b in blues ensures AnticoneCount(g, r, b) <= k {
      AcceptKeepsBlueAnticones(g, k, candidate, blues, b);
    }
  }
}
