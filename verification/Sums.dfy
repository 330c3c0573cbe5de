/** Sums over finite sets and maps. */
module Sums {
  ghost function SetSum<K>(s: set<K>, w: map<K, int>): int
    requires s <= w.Keys
  {
    if s == {} then 0
    else
      var k :| k in s;
      w[k] + SetSum(s - {k}, w)
  }

  ghost function MapSum<K>(m: map<K, int>): int {
    SetSum(m.Keys, m)
  }

  lemma {:induction false} SumRemove<K>(s: set<K>, w: map<K, int>, k: K)
    requires s <= w.Keys && k in s
    ensures SetSum(s, w) == w[k] + SetSum(s - {k}, w)
    decreases |s|
  {
    var pick :| pick in s && SetSum(s, w) == w[pick] + SetSum(s - {pick}, w);
    if pick != k {
      SumRemove(s - {pick}, w, k);
      SumRemove(s - {k}, w, pick);
      assert s - {pick} - {k} == s - {k} - {pick};
    }
  }

  lemma {:induction false} SumInsert<K>(s: set<K>, w: map<K, int>, k: K)
    requires s <= w.Keys && k in w && k !in s
    ensures SetSum(s + {k}, w) == SetSum(s, w) + w[k]
  {
    SumRemove(s + {k}, w, k);
    assert s + {k} - {k} == s;
  }

  lemma {:induction false} SumAgree<K>(s: set<K>, w: map<K, int>, w': map<K, int>)
    requires s <= w.Keys && s <= w'.Keys && forall k :: k in s ==> w[k] == w'[k]
    ensures SetSum(s, w) == SetSum(s, w')
    decreases |s|
  {
    if s == {} {
    } else {
      var k :| k in s;
      SumAgree(s - {k}, w, w');
      SumRemove(s, w, k);
      SumRemove(s, w', k);
    }
  }

  function ValueAt<K>(m: map<K, int>, k: K): int {
    if k in m then m[k] else 0
  }

  /** Overwriting one entry moves the sum by the change of that entry. */
  lemma {:induction false} MapSumUpdate<K>(m: map<K, int>, k: K, v: int)
    ensures MapSum(m[k := v]) == MapSum(m) - ValueAt(m, k) + v
  {
    var m' := m[k := v];
    var others := m.Keys - {k};
    assert m'.Keys == others + {k};
    SumInsert(others, m', k);
    SumAgree(others, m, m');
    if k in m {
      SumRemove(m.Keys, m, k);
    } else {
      assert others == m.Keys;
    }
  }

  lemma {:induction false} SumNonNegative<K>(s: set<K>, w: map<K, int>)
    requires s <= w.Keys && forall k :: k in s ==> w[k] >= 0
    ensures SetSum(s, w) >= 0
    decreases |s|
  {
    if s == {} {
    } else {
      var k :| k in s;
      SumNonNegative(s - {k}, w);
      SumRemove(s, w, k);
    }
  }

  /** No entry of a non-negative map exceeds the sum. */
  lemma {:induction false} EntryBelowSum<K>(m: map<K, int>, k: K)
    requires forall x :: x in m ==> m[x] >= 0
    ensures 0 <= ValueAt(m, k) <= MapSum(m)
  {
    SumNonNegative(m.Keys, m);
    if k in m {
      SumRemove(m.Keys, m, k);
      SumNonNegative(m.Keys - {k}, m);
    }
  }
}
