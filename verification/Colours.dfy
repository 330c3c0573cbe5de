/** The colours of a block, stated by sets and hash order alone. */
module Colours {
  import opened Types
  import opened Sequences
  import opened Dag
  import opened Colouring

  /** The members of `s` in the anticone of `x`. */
  ghost function AnticoneIn(g: Graph, s: set<Hash>, x: Hash): set<Hash> {
    set y | y in s && InAnticone(g, x, y)
  }

  /** Some member of `s` in the anticone of `x` has `k` members of `s` in its own anticone. */
  ghost predicate Crowded(g: Graph, k: nat, s: set<Hash>, x: Hash) {
    exists b :: b in s && InAnticone(g, b, x) && |AnticoneIn(g, s, b)| >= k
  }

  lemma {:induction false} AnticoneInInsert(g: Graph, s: set<Hash>, x: Hash, y: Hash)
    requires y !in s
    ensures |AnticoneIn(g, s + {y}, x)| == |AnticoneIn(g, s, x)| + if InAnticone(g, x, y) then 1 else 0
  {
    hide InAnticone;
    assert AnticoneIn(g, s + {y}, x) == AnticoneIn(g, s, x) + if InAnticone(g, x, y) then {y} else {};
  }

  lemma {:induction false} SplitLast(xs: seq<Hash>)
    requires NoDup(xs) && xs != []
    ensures var n := |xs| - 1;
            NoDup(xs[..n]) && xs[n] !in Elems(xs[..n]) && Elems(xs) == Elems(xs[..n]) + {xs[n]}
  {
    var n := |xs| - 1;
    assert xs == xs[..n] + [xs[n]];
    ElemsConcat(xs[..n], [xs[n]]);
    ElemsOne(xs[n]);
  }

  lemma {:induction false} CountIsCardinality(g: Graph, xs: seq<Hash>, x: Hash)
    requires NoDup(xs)
    ensures AnticoneCount(g, xs, x) == |AnticoneIn(g, Elems(xs), x)|
  {
    hide InAnticone, NoDup, Elems;
    if xs == [] {
      NoElems(xs);
      assert AnticoneIn(g, Elems(xs), x) == {};
    } else {
      var n := |xs| - 1;
      SplitLast(xs);
      CountIsCardinality(g, xs[..n], x);
      AnticoneInInsert(g, Elems(xs[..n]), x, xs[n]);
    }
  }

  lemma {:induction false} BlueUnlessCrowded(g: Graph, k: nat, x: Hash, blues: seq<Hash>)
    requires NoDup(blues)
    ensures CanBeBlue(g, k, x, blues) <==> !Crowded(g, k, Elems(blues), x)
  {
    forall b ensures AnticoneCount(g, blues, b) == |AnticoneIn(g, Elems(blues), b)| {
      CountIsCardinality(g, blues, b);
    }
    if !CanBeBlue(g, k, x, blues) {
      var b :| b in blues && InAnticone(g, b, x) && AnticoneCount(g, blues, b) >= k;
      assert b in Elems(blues);
    }
  }

  /** The accepted candidates below `x`. */
  ghost function AcceptedBelow(accepted: set<Hash>, candidates: set<Hash>, x: Hash): set<Hash> {
    set y | y in accepted && y in candidates && y < x
  }

  /** The greedy pass over ascending candidates: each is judged by the given blues and the accepted ones below it. */
  lemma {:induction false} ColourJudges(g: Graph, k: nat, candidates: seq<Hash>, blues: seq<Hash>, reds: seq<Hash>)
    requires StrictlyAscending(candidates) && NoDup(blues) && NoDup(reds)
    requires Elems(candidates) !! Elems(blues) && Elems(candidates) !! Elems(reds) && Elems(blues) !! Elems(reds)
    ensures var (b, r) := Colour(g, k, candidates, blues, reds);
            forall x :: x in Elems(candidates) ==>
              (x in Elems(r) <==>
                 Crowded(g, k, Elems(blues) + AcceptedBelow(Elems(b), Elems(candidates), x), x))
    decreases |candidates|
  {
    hide CanBeBlue, Crowded, Elems, StrictlyAscending, NoDup;
    if candidates == [] {
      NoElems(candidates);
    } else {
      var x, rest := candidates[0], candidates[1..];
      var (b, r) := Colour(g, k, candidates, blues, reds);
      AscendingIsDistinct(candidates);
      ColourSplits(g, k, candidates, blues, reds);
      HeadIsLeast(candidates);
      AscendingIsDistinct(rest);
      BlueUnlessCrowded(g, k, x, blues);
      assert AcceptedBelow(Elems(b), Elems(candidates), x) == {};
      assert Elems(blues) + {} == Elems(blues);
      ElemsOne(x);
      if CanBeBlue(g, k, x, blues) {
        ElemsConcat(blues, [x]);
        InElems(blues, x);
        NoDupSnoc(blues, x);
        ColourSplits(g, k, rest, blues + [x], reds);
        ColourJudges(g, k, rest, blues + [x], reds);
        PrefixElems(blues + [x], b);
        forall y | y in Elems(rest)
          ensures Elems(blues + [x]) + AcceptedBelow(Elems(b), Elems(rest), y) ==
                  Elems(blues) + AcceptedBelow(Elems(b), Elems(candidates), y)
        {
        }
      } else {
        ElemsConcat(reds, [x]);
        InElems(reds, x);
        NoDupSnoc(reds, x);
        ColourSplits(g, k, rest, blues, reds + [x]);
        ColourJudges(g, k, rest, blues, reds + [x]);
        PrefixElems(reds + [x], r);
        forall y | y in Elems(rest)
          ensures AcceptedBelow(Elems(b), Elems(rest), y) == AcceptedBelow(Elems(b), Elems(candidates), y)
        {
        }
      }
    }
  }

  lemma {:induction false} NoElems<T>(xs: seq<T>)
    requires xs == []
    ensures Elems(xs) == {}
  {
  }

  lemma {:induction false} PrefixElems<T>(xs: seq<T>, ys: seq<T>)
    requires xs <= ys
    ensures Elems(xs) <= Elems(ys)
  {
    assert forall x :: x in xs ==> x in ys;
  }

  lemma {:induction false} AscendingIsDistinct(xs: seq<Hash>)
    requires StrictlyAscending(xs)
    ensures NoDup(xs)
  {
  }

  /** What the pass adds to blues and reds keeps the candidates' ascending order. */
  lemma {:induction false} ColourAppends(g: Graph, k: nat, candidates: seq<Hash>, blues: seq<Hash>, reds: seq<Hash>)
    returns (blue: seq<Hash>, red: seq<Hash>)
    requires StrictlyAscending(candidates)
    ensures Colour(g, k, candidates, blues, reds) == (blues + blue, reds + red)
    ensures StrictlyAscending(blue) && StrictlyAscending(red)
    ensures Elems(blue) + Elems(red) == Elems(candidates)
    decreases |candidates|
  {
    hide CanBeBlue, Elems, StrictlyAscending;
    if candidates == [] {
      blue, red := [], [];
      NoElems(candidates);
      NoElems(blue);
      NoneAscending();
      assert blues + [] == blues && reds + [] == reds;
    } else {
      var x, rest := candidates[0], candidates[1..];
      HeadIsLeast(candidates);
      if CanBeBlue(g, k, x, blues) {
        var more;
        more, red := ColourAppends(g, k, rest, blues + [x], reds);
        LeastInFront(x, more);
        blue := [x] + more;
        assert blues + blue == blues + [x] + more;
      } else {
        var more;
        blue, more := ColourAppends(g, k, rest, blues, reds + [x]);
        LeastInFront(x, more);
        red := [x] + more;
        assert reds + red == reds + [x] + more;
      }
    }
  }

  lemma {:induction false} NoneAscending()
    ensures StrictlyAscending([])
  {
  }

  /** The blues a block held when it judged `x`: everything inherited, and what it merged below `x`. */
  ghost function BluesBefore(g: Graph, c: Cache, h: Hash, sp: Hash, x: Hash): set<Hash>
    requires h in g && h in c
  {
    set y | y in Elems(c[h].blues) && (y in Merged(g, g[h], sp) ==> y < x)
  }

  lemma {:induction false} StepParts(g: Graph, k: nat, c: Cache, h: Hash) returns (sp: Hash)
    requires Consistent(g, k, c) && h in g && g[h] != []
    ensures h in c && sp in c && sp in g[h] && c[h].selectedParent == Some(sp)
    ensures NoDup([sp] + c[sp].blues) && Elems([sp] + c[sp].blues) == {sp} + Elems(c[sp].blues)
    ensures Elems([sp] + c[sp].blues) <= Past(g, sp) + {sp}
    ensures (c[h].blues, c[h].reds) == Colour(g, k, Ascending(Merged(g, g[h], sp)), [sp] + c[sp].blues, [])
  {
    hide OrderedBound, Colour;
    assert Coloured(g, k, c, h);
    StepInputs(g, k, c, h);
    sp := StepShape(g, k, g[h], c);
    ElemsOne(sp);
    ElemsConcat([sp], c[sp].blues);
    assert sp !in Elems(c[sp].blues);
    LeadDistinct(sp, c[sp].blues);
  }

  lemma {:induction false} LeadDistinct(x: Hash, xs: seq<Hash>)
    requires NoDup(xs) && x !in Elems(xs)
    ensures NoDup([x] + xs)
  {
    forall i, j | 0 <= i < j < |xs| + 1 ensures ([x] + xs)[i] != ([x] + xs)[j] {
      assert xs[j - 1] in Elems(xs);
    }
  }

  /** The colours of a block exactly. It inherits its selected parent and that parent's blues; of what it merges, in
      ascending hash order, a block is red exactly when some blue block held at that point lies in its anticone and has
      `k` blue blocks held at that point in its own. */
  lemma {:induction false} ColoursExactly(g: Graph, k: nat, c: Cache, h: Hash) returns (sp: Hash)
    requires Consistent(g, k, c) && h in g && g[h] != []
    ensures h in c && sp in c && c[h].selectedParent == Some(sp)
    ensures var merged := Merged(g, g[h], sp);
            && c[h].blues == [sp] + c[sp].blues + Ascending(Elems(c[h].blues) * merged)
            && c[h].reds == Ascending(Elems(c[h].reds)) && Elems(c[h].reds) <= merged
            && Elems(c[h].blues) !! Elems(c[h].reds)
            && forall x :: x in merged ==>
                 && (x in Elems(c[h].blues) <==> x !in Elems(c[h].reds))
                 && (x in Elems(c[h].reds) <==> Crowded(g, k, BluesBefore(g, c, h, sp, x), x))
  {
    hide Consistent, Colour, CanBeBlue, Crowded, Elems, NoDup, StrictlyAscending, Past;
    sp := StepParts(g, k, c, h);
    var merged, inherited := Merged(g, g[h], sp), [sp] + c[sp].blues;
    var candidates := Ascending(merged);
    AscendingSpec(merged);
    AscendingIsDistinct(candidates);
    NoneTwice();
    NoElems<Hash>([]);
    ColourSplits(g, k, candidates, inherited, []);
    ColourJudges(g, k, candidates, inherited, []);
    var blue, red := ColourAppends(g, k, candidates, inherited, []);
    ElemsConcat(inherited, blue);
    assert [] + red == red;
    assert Elems(c[h].blues) * merged == Elems(blue);
    AscendingSpec(Elems(blue));
    AscendingSpec(Elems(red));
    AscendingUnique(blue, Ascending(Elems(blue)));
    AscendingUnique(red, Ascending(Elems(red)));
    forall x | x in merged
      ensures BluesBefore(g, c, h, sp, x) == Elems(inherited) + AcceptedBelow(Elems(c[h].blues), merged, x)
    {
    }
  }

  lemma {:induction false} NoneTwice()
    ensures NoDup<Hash>([])
  {
  }

  /** Every red block has a blue one in its anticone that already counts `k` blue blocks in its own. */
  lemma {:induction false} RedHasReason(g: Graph, k: nat, c: Cache, h: Hash, r: Hash) returns (b: Hash)
    requires Consistent(g, k, c) && h in g && h in c && r in c[h].reds
    ensures b in c[h].blues && InAnticone(g, b, r) && AnticoneCount(g, c[h].blues, b) >= k
  {
    hide Past;
    RedsHaveParents(g, k, c, h, r);
    var sp := ColoursExactly(g, k, c, h);
    InElems(c[h].reds, r);
    var held := BluesBefore(g, c, h, sp, r);
    assert Crowded(g, k, held, r);
    b :| b in held && InAnticone(g, b, r) && |AnticoneIn(g, held, b)| >= k;
    InElems(c[h].blues, b);
    BluesDistinct(g, k, c, h);
    CountIsCardinality(g, c[h].blues, b);
    SubsetSize(AnticoneIn(g, held, b), AnticoneIn(g, Elems(c[h].blues), b));
  }

  lemma {:induction false} BluesDistinct(g: Graph, k: nat, c: Cache, h: Hash)
    requires Consistent(g, k, c) && h in g
    ensures h in c && NoDup(c[h].blues)
  {
    hide Consistent, OrderedBound;
    ConsistentColours(g, k, c, h);
  }

  lemma {:induction false} RedsHaveParents(g: Graph, k: nat, c: Cache, h: Hash, r: Hash)
    requires Consistent(g, k, c) && h in g && h in c && r in c[h].reds
    ensures g[h] != []
  {
    hide Consistent, OrderedBound;
    ConsistentColours(g, k, c, h);
  }
}
