/** Fork choice: highest blue score, lowest hash on ties. */
module ForkChoice {
  import opened Types
  import opened Sequences
  import opened Dag
  import opened Colouring

  /** `a` beats `b` in the order the fork choice maximises. */
  predicate Better(c: Cache, a: Hash, b: Hash)
    requires a in c && b in c
  {
    c[a].blueScore > c[b].blueScore || (c[a].blueScore == c[b].blueScore && a < b)
  }

  /** The best cached candidate. */
  function SelectBestTip(candidates: seq<Hash>, c: Cache): (r: Option<Hash>)
    ensures r.None? <==> forall p :: p in candidates ==> p !in c
    ensures r.Some? ==> r.value in candidates && r.value in c
    ensures r.Some? ==> forall p :: p in candidates && p in c && p != r.value ==> Better(c, r.value, p)
  {
    if candidates == [] then None
    else
      var n := |candidates| - 1;
      var r, p := SelectBestTip(candidates[..n], c), candidates[n];
      assert forall q :: q in candidates ==> q in candidates[..n] || q == p;
      if p in c && (r.None? || !Better(c, r.value, p)) then Some(p) else r
  }

  /** Stored blocks nobody names as a parent. */
  ghost function Tips(g: Graph): set<Hash> {
    set h | h in g.Keys && forall x :: x in g ==> h !in g[x]
  }

  /** `h` beats every other cached block. */
  ghost predicate IsBest(c: Cache, h: Hash) {
    h in c && forall x :: x in c && x != h ==> Better(c, h, x)
  }

  lemma {:induction false} BestAmong(c: Cache, s: set<Hash>) returns (b: Hash)
    requires s != {} && s <= c.Keys
    ensures b in s && forall x :: x in s && x != b ==> Better(c, b, x)
  {
    var y :| y in s;
    var rest := s - {y};
    if rest == {} {
      b := y;
      assert s == {y};
    } else {
      var other := BestAmong(c, rest);
      b := if Better(c, other, y) then other else y;
      forall x | x in s && x != b ensures Better(c, b, x) {
        assert x == y || x in rest;
      }
    }
  }

  lemma {:induction false} BestIsTip(g: Graph, k: nat, c: Cache, b: Hash)
    requires Consistent(g, k, c) && IsBest(c, b)
    ensures b in Tips(g)
  {
    forall x | x in g ensures b !in g[x] {
      if b in g[x] {
        ScoreGrows(g, k, c, x, b);
      }
    }
  }

  /** The best block of the whole store. */
  ghost function CanonicalTip(c: Cache): (r: Option<Hash>)
    ensures r.None? <==> c == map[]
    ensures r.Some? ==> IsBest(c, r.value)
  {
    if c == map[] then None
    else
      assert exists b :: IsBest(c, b) by {
        assert c.Keys != {};
        var b := BestAmong(c, c.Keys);
        assert IsBest(c, b);
      }
      var b :| IsBest(c, b);
      Some(b)
  }

  /** The canonical tip exactly: no stored block has a higher blue score, and none of the same score a lower hash. */
  lemma {:induction false} CanonicalTipIff(c: Cache, tip: Hash)
    ensures CanonicalTip(c) == Some(tip) <==>
            tip in c && forall x :: x in c ==>
              c[x].blueScore < c[tip].blueScore || (c[x].blueScore == c[tip].blueScore && tip <= x)
  {
    if CanonicalTip(c) == Some(tip) {
      forall x | x in c && x != tip
        ensures c[x].blueScore < c[tip].blueScore || (c[x].blueScore == c[tip].blueScore && tip < x)
      {
        assert Better(c, tip, x);
      }
    }
    if tip in c && forall x :: x in c ==>
      c[x].blueScore < c[tip].blueScore || (c[x].blueScore == c[tip].blueScore && tip <= x)
    {
      assert IsBest(c, tip);
      BestUnique(c, tip, CanonicalTip(c).value);
    }
  }

  lemma {:induction false} BestUnique(c: Cache, a: Hash, b: Hash)
    requires IsBest(c, a) && IsBest(c, b)
    ensures a == b
  {
    assert a != b ==> Better(c, a, b);
  }

  /** Choosing among the tips, listed in any order, chooses the best block of the whole store. */
  lemma {:induction false} TipsDecide(g: Graph, k: nat, c: Cache, tips: seq<Hash>)
    requires Consistent(g, k, c) && Elems(tips) == Tips(g)
    ensures SelectBestTip(tips, c) == CanonicalTip(c)
  {
    var r := SelectBestTip(tips, c);
    if c == map[] {
      forall p | p in tips ensures p !in c {
        assert p in Elems(tips);
      }
    } else {
      var b := CanonicalTip(c).value;
      BestIsTip(g, k, c, b);
      assert b in Elems(tips);
      assert r.value != b ==> Better(c, r.value, b);
    }
  }

  /** A new block either becomes the canonical tip or leaves it where it was; it takes over exactly
      when it beats the old one. */
  lemma {:induction false} InsertMovesTip(c: Cache, h: Hash, d: GhostdagData, tip: Hash)
    requires h !in c && CanonicalTip(c) == Some(tip)
    ensures var c' := c[h := d];
            CanonicalTip(c') == Some(if Better(c', h, tip) then h else tip)
  {
    var c' := c[h := d];
    var winner := if Better(c', h, tip) then h else tip;
    assert forall x :: x in c && x != tip ==> Better(c, tip, x);
    forall x | x in c' && x != winner ensures Better(c', winner, x) {
      if x in c && x != tip {
        assert Better(c, tip, x);
      }
    }
    assert IsBest(c', winner);
    BestUnique(c', winner, CanonicalTip(c').value);
  }
}
