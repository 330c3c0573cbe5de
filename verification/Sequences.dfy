/** Duplicate-free sequences, first-occurrence appending and sorting of hashes. */
module Sequences {
  import opened Types

  function Elems<T>(xs: seq<T>): set<T> {
    set x | x in xs
  }

  lemma {:induction false} ElemsConcat<T>(xs: seq<T>, ys: seq<T>)
    ensures Elems(xs + ys) == Elems(xs) + Elems(ys)
  {
  }

  lemma {:induction false} ElemsEmpty<T>(xs: seq<T>)
    ensures Elems(xs) == {} ==> xs == []
  {
    if |xs| > 0 {
      assert xs[0] in Elems(xs);
    }
  }

  ghost predicate NoDup<T>(xs: seq<T>) {
    forall i, j :: 0 <= i < j < |xs| ==> xs[i] != xs[j]
  }

  lemma {:induction false} NoDupSnoc<T>(xs: seq<T>, x: T)
    requires NoDup(xs) && x !in xs
    ensures NoDup(xs + [x]) && Elems(xs + [x]) == Elems(xs) + {x}
  {
  }

  lemma {:induction false} NoDupSize<T>(xs: seq<T>)
    requires NoDup(xs)
    ensures |Elems(xs)| == |xs|
  {
    if xs == [] {
    } else {
      var n := |xs| - 1;
      NoDupSize(xs[..n]);
      assert Elems(xs) == Elems(xs[..n]) + {xs[n]};
    }
  }

  lemma {:induction false} SubsetSize<T>(a: set<T>, b: set<T>)
    requires a <= b
    ensures |a| <= |b|
    ensures a != b ==> |a| < |b|
  {
    assert b == a + (b - a);
    assert a != b ==> b - a != {};
  }

  /** Appends the elements of `xs` that `acc` does not hold yet, in order. */
  function AppendNew<T(==)>(acc: seq<T>, xs: seq<T>): (r: seq<T>)
    ensures acc <= r
    decreases |xs|
  {
    if xs == [] then acc
    else if xs[0] in acc then AppendNew(acc, xs[1..])
    else AppendNew(acc + [xs[0]], xs[1..])
  }

  lemma {:induction false} AppendNewElems<T>(acc: seq<T>, xs: seq<T>)
    ensures Elems(AppendNew(acc, xs)) == Elems(acc) + Elems(xs)
    ensures NoDup(acc) ==> NoDup(AppendNew(acc, xs))
    decreases |xs|
  {
    if xs == [] {
    } else {
      assert xs == [xs[0]] + xs[1..];
      AppendNewElems(acc, xs[1..]);
      AppendNewElems(acc + [xs[0]], xs[1..]);
    }
  }

  lemma {:induction false} AppendNewDisjoint<T>(acc: seq<T>, xs: seq<T>)
    requires NoDup(xs) && forall x :: x in xs ==> x !in acc
    ensures AppendNew(acc, xs) == acc + xs
    decreases |xs|
  {
    if xs == [] {
    } else {
      assert xs == [xs[0]] + xs[1..];
      AppendNewDisjoint(acc + [xs[0]], xs[1..]);
      assert acc + xs == acc + [xs[0]] + xs[1..];
    }
  }

  lemma {:induction false} AppendNewKnown<T>(acc: seq<T>, xs: seq<T>)
    requires Elems(xs) <= Elems(acc)
    ensures AppendNew(acc, xs) == acc
    decreases |xs|
  {
    if xs == [] {
    } else {
      assert xs[0] in Elems(xs);
      assert Elems(xs[1..]) <= Elems(xs);
      AppendNewKnown(acc, xs[1..]);
    }
  }

  lemma {:induction false} AppendNewOne<T>(acc: seq<T>, x: T)
    ensures AppendNew(acc, [x]) == if x in acc then acc else acc + [x]
  {
    assert [x][1..] == [];
  }

  function Reverse<T>(xs: seq<T>): (r: seq<T>)
    ensures |r| == |xs|
    ensures forall i :: 0 <= i < |xs| ==> r[i] == xs[|xs| - 1 - i]
  {
    if xs == [] then [] else Reverse(xs[1..]) + [xs[0]]
  }

  lemma {:induction false} ReverseElems<T>(xs: seq<T>)
    ensures Elems(Reverse(xs)) == Elems(xs)
    ensures NoDup(xs) ==> NoDup(Reverse(xs))
  {
    forall x | x in xs ensures x in Reverse(xs) {
      var i :| 0 <= i < |xs| && xs[i] == x;
      assert Reverse(xs)[|xs| - 1 - i] == x;
    }
  }

  /** Ascending without repetition. */
  ghost predicate StrictlyAscending(xs: seq<Hash>) {
    forall i, j :: 0 <= i < j < |xs| ==> xs[i] < xs[j]
  }

  function InsertSorted(x: Hash, xs: seq<Hash>): (r: seq<Hash>)
    ensures Elems(r) == Elems(xs) + {x}
  {
    if xs == [] || x <= xs[0] then [x] + xs
    else
      assert xs == [xs[0]] + xs[1..];
      var rest := InsertSorted(x, xs[1..]);
      ElemsConcat([xs[0]], xs[1..]);
      ElemsConcat([xs[0]], rest);
      [xs[0]] + rest
  }

  function Sort(xs: seq<Hash>): (r: seq<Hash>)
    ensures Elems(r) == Elems(xs)
  {
    if xs == [] then []
    else
      assert xs == [xs[0]] + xs[1..];
      InsertSorted(xs[0], Sort(xs[1..]))
  }

  lemma {:induction false} InsertAscending(x: Hash, xs: seq<Hash>)
    requires StrictlyAscending(xs) && x !in xs
    ensures StrictlyAscending(InsertSorted(x, xs))
  {
    if xs == [] || x <= xs[0] {
    } else {
      InsertAscending(x, xs[1..]);
      var r := InsertSorted(x, xs[1..]);
      forall i | 0 <= i < |r| ensures xs[0] < r[i] {
        assert r[i] in Elems(r);
        assert Elems(r) == Elems(xs[1..]) + {x};
      }
    }
  }

  lemma {:induction false} SortAscending(xs: seq<Hash>)
    requires NoDup(xs)
    ensures StrictlyAscending(Sort(xs))
  {
    if xs == [] {
    } else {
      SortAscending(xs[1..]);
      assert xs[0] !in Elems(xs[1..]);
      InsertAscending(xs[0], Sort(xs[1..]));
    }
  }

  /** A strictly ascending sequence is determined by its elements. */
  lemma {:induction false} AscendingUnique(xs: seq<Hash>, ys: seq<Hash>)
    requires StrictlyAscending(xs) && StrictlyAscending(ys) && Elems(xs) == Elems(ys)
    ensures xs == ys
  {
    if xs == [] {
      ElemsEmpty(ys);
    } else {
      assert xs[0] in Elems(ys);
      assert ys[0] in Elems(xs);
      assert xs[0] == ys[0];
      assert Elems(xs[1..]) == Elems(xs) - {xs[0]};
      assert Elems(ys[1..]) == Elems(ys) - {ys[0]};
      AscendingUnique(xs[1..], ys[1..]);
    }
  }

  lemma {:induction false} LeastOf(s: set<Hash>) returns (m: Hash)
    requires s != {}
    ensures m in s && forall x :: x in s ==> m <= x
  {
    var y :| y in s;
    var rest := s - {y};
    if rest == {} {
      m := y;
      assert s == {y};
    } else {
      var other := LeastOf(rest);
      m := if other < y then other else y;
      forall x | x in s ensures m <= x {
        assert x == y || x in rest;
      }
    }
  }

  ghost function Least(s: set<Hash>): (m: Hash)
    requires s != {}
    ensures m in s && forall x :: x in s ==> m <= x
  {
    assert exists m :: m in s && forall x :: x in s ==> m <= x by {
      var m := LeastOf(s);
    }
    var m :| m in s && forall x :: x in s ==> m <= x;
    m
  }

  /** The ascending enumeration of a set of hashes. */
  ghost function Ascending(s: set<Hash>): seq<Hash>
    decreases |s|
  {
    if s == {} then [] else [Least(s)] + Ascending(s - {Least(s)})
  }

  lemma {:induction false} AscendingCons(m: Hash, rest: seq<Hash>)
    requires StrictlyAscending(rest) && forall x :: x in Elems(rest) ==> m < x
    ensures StrictlyAscending([m] + rest)
  {
    var r := [m] + rest;
    forall i, j | 0 <= i < j < |r| ensures r[i] < r[j] {
      assert r[j] == rest[j - 1] && r[j] in Elems(rest);
    }
  }

  lemma {:induction false} AscendingSpec(s: set<Hash>)
    ensures StrictlyAscending(Ascending(s)) && Elems(Ascending(s)) == s
    decreases |s|
  {
    if s == {} {
    } else {
      hide StrictlyAscending;
      var m, others := Least(s), s - {Least(s)};
      assert forall x :: x in others ==> m < x;
      AscendingSpec(others);
      AscendingCons(m, Ascending(others));
      ElemsConcat([m], Ascending(others));
      assert s == Elems([m]) + others;
    }
  }

  lemma {:induction false} SortIsAscending(xs: seq<Hash>)
    requires NoDup(xs)
    ensures Sort(xs) == Ascending(Elems(xs))
  {
    SortAscending(xs);
    AscendingSpec(Elems(xs));
    AscendingUnique(Sort(xs), Ascending(Elems(xs)));
  }

  lemma {:induction false} HeadIsLeast(xs: seq<Hash>)
    requires StrictlyAscending(xs) && xs != []
    ensures StrictlyAscending(xs[1..]) && Elems(xs) == {xs[0]} + Elems(xs[1..])
    ensures forall y :: y in Elems(xs[1..]) ==> xs[0] < y
  {
    assert xs == [xs[0]] + xs[1..] && Elems([xs[0]]) == {xs[0]};
    ElemsConcat([xs[0]], xs[1..]);
    forall y | y in Elems(xs[1..]) ensures xs[0] < y {
      var i :| 0 <= i < |xs| - 1 && xs[1..][i] == y;
      assert xs[i + 1] == y;
    }
  }

  lemma {:induction false} LeastInFront(x: Hash, xs: seq<Hash>)
    requires StrictlyAscending(xs) && forall y :: y in Elems(xs) ==> x < y
    ensures StrictlyAscending([x] + xs) && Elems([x] + xs) == {x} + Elems(xs)
  {
    ElemsConcat([x], xs);
    assert Elems([x]) == {x};
    forall i | 0 <= i < |xs| ensures x < xs[i] {
      assert xs[i] in Elems(xs);
    }
  }

  /** Appending the new ones of an ascending list appends an ascending list. */
  lemma {:induction false} AppendNewAscending(acc: seq<Hash>, xs: seq<Hash>) returns (added: seq<Hash>)
    requires StrictlyAscending(xs)
    ensures AppendNew(acc, xs) == acc + added
    ensures StrictlyAscending(added) && Elems(added) == Elems(xs) - Elems(acc)
    decreases |xs|
  {
    if xs == [] {
      added := [];
    } else {
      hide StrictlyAscending, Elems;
      var x, rest := xs[0], xs[1..];
      HeadIsLeast(xs);
      InElems(acc, x);
      if x in acc {
        added := AppendNewAscending(acc, rest);
      } else {
        ElemsConcat(acc, [x]);
        InElems([x], x);
        ElemsOne(x);
        var more := AppendNewAscending(acc + [x], rest);
        LeastInFront(x, more);
        added := [x] + more;
        assert acc + added == acc + [x] + more;
      }
    }
  }

  lemma {:induction false} InElems<T>(xs: seq<T>, x: T)
    ensures x in xs <==> x in Elems(xs)
  {
  }

  lemma {:induction false} ElemsOne<T>(x: T)
    ensures Elems([x]) == {x}
  {
  }

  /** Appending the new ones of a sorted duplicate-free list. */
  lemma {:induction false} AppendNewSorted(acc: seq<Hash>, xs: seq<Hash>)
    requires NoDup(xs)
    ensures AppendNew(acc, Sort(xs)) == acc + Ascending(Elems(xs) - Elems(acc))
  {
    hide StrictlyAscending, Sort;
    SortIsAscending(xs);
    AscendingSpec(Elems(xs));
    var added := AppendNewAscending(acc, Sort(xs));
    AscendingSpec(Elems(xs) - Elems(acc));
    AscendingUnique(added, Ascending(Elems(xs) - Elems(acc)));
  }
}
