/** Which blocks the difficulty window holds. */
module Window {
  import opened Types
  import opened Sequences
  import opened Dag
  import opened Colouring
  import opened LinearOrder
  import opened Difficulty
  import opened Replay

  /** The tip's own blues and reds by ascending hash: the end of its order, read backwards. */
  ghost function OwnColours(c: Cache, tip: Hash): seq<Hash>
    requires tip in c
  {
    Ascending(Elems(c[tip].blues) + Elems(c[tip].reds))
  }

  lemma {:induction false} ColoursCounted(g: Graph, k: nat, c: Cache, tip: Hash)
    requires Consistent(g, k, c) && tip in g
    ensures tip in c && |OwnColours(c, tip)| == |c[tip].blues| + |c[tip].reds|
    ensures StrictlyAscending(OwnColours(c, tip))
    ensures Elems(OwnColours(c, tip)) == Elems(c[tip].blues) + Elems(c[tip].reds)
  {
    hide Consistent;
    ConsistentColours(g, k, c, tip);
    var blues, reds, own := Elems(c[tip].blues), Elems(c[tip].reds), OwnColours(c, tip);
    AscendingSpec(blues + reds);
    AscendingNoDup(own);
    NoDupSize(own);
    NoDupSize(c[tip].blues);
    NoDupSize(c[tip].reds);
    assert |blues + reds| == |blues| + |reds|;
  }

  lemma {:induction false} AscendingNoDup(xs: seq<Hash>)
    requires StrictlyAscending(xs)
    ensures NoDup(xs)
  {
  }

  lemma {:induction false} ReversedAt<T>(xs: seq<T>, i: nat)
    requires i < |xs|
    ensures |Reverse(xs)| == |xs| && Reverse(xs)[|xs| - 1 - i] == xs[i]
  {
  }

  /** The order of every tip ends, read backwards, with the tip's own colours by ascending hash and then the tip. */
  lemma {:induction false} OrderEnd(store: Store, k: nat, c: Cache, tip: Hash)
    requires Consistent(GraphOf(store), k, c) && ScoreFalls(c) && tip in store
    ensures tip in c && |OwnColours(c, tip)| < |LinearSort(c, tip)|
    ensures var order, own := LinearSort(c, tip), OwnColours(c, tip);
            && (forall i :: 0 <= i < |own| ==> order[|order| - 1 - i] == own[i])
            && order[|order| - 1 - |own|] == tip
  {
    hide *;
    TipKnown(store, k, c, tip);
    OrderInClosedForm(GraphOf(store), k, c, tip);
    EndOfClosedForm(c, tip);
  }

  lemma {:induction false} TipKnown(store: Store, k: nat, c: Cache, tip: Hash)
    requires Consistent(GraphOf(store), k, c) && tip in store
    ensures tip in GraphOf(store) && tip in c && GraphOf(store).Keys == store.Keys
  {
  }

  lemma {:induction false} EndOfClosedForm(c: Cache, tip: Hash)
    requires ScoreFalls(c) && tip in c
    requires LinearSort(c, tip) ==
             Reverse(Ascending(Elems(c[tip].blues) + Elems(c[tip].reds)) + [tip] + RedTail(c, c[tip].selectedParent))
    ensures |OwnColours(c, tip)| < |LinearSort(c, tip)|
    ensures var order, own := LinearSort(c, tip), OwnColours(c, tip);
            && (forall i :: 0 <= i < |own| ==> order[|order| - 1 - i] == own[i])
            && order[|order| - 1 - |own|] == tip
  {
    hide LinearSort, ScoreFalls, Reverse, RedTail;
    var order, own := LinearSort(c, tip), OwnColours(c, tip);
    var backwards := own + [tip] + RedTail(c, c[tip].selectedParent);
    ReversedAt(backwards, |own|);
    forall i | 0 <= i < |own| ensures order[|order| - 1 - i] == own[i] {
      ReversedAt(backwards, i);
    }
  }

  /** The last `m` blocks of the order hold the tip exactly when `m` exceeds the number of blocks it colours. */
  lemma {:induction false} TipInWindowIff(store: Store, k: nat, c: Cache, tip: Hash, m: nat)
    requires Consistent(GraphOf(store), k, c) && ScoreFalls(c) && tip in store && m <= |LinearSort(c, tip)|
    ensures tip in c
    ensures tip in LinearSort(c, tip)[|LinearSort(c, tip)| - m..] <==> m > |c[tip].blues| + |c[tip].reds|
  {
    hide Consistent, LinearSort, ScoreFalls, GraphOf;
    TipKnown(store, k, c, tip);
    OrderEnd(store, k, c, tip);
    ColoursCounted(GraphOf(store), k, c, tip);
    ExactlyOnce(GraphOf(store), k, c, tip);
    TailHolds(LinearSort(c, tip), |LinearSort(c, tip)| - 1 - |OwnColours(c, tip)|, m);
  }

  lemma {:induction false} TailHolds(order: seq<Hash>, at: nat, m: nat)
    requires NoDup(order) && at < |order| && m <= |order|
    ensures order[at] in order[|order| - m..] <==> at >= |order| - m
  {
    if at >= |order| - m {
      assert order[|order| - m..][at - (|order| - m)] == order[at];
    }
  }

  /** The time measured at a tip that colours at least as many blocks as the window holds runs between the lowest of
      these hashes and the highest in the window, and the tip's own timestamp does not enter. With exactly one block
      fewer coloured the window starts at the tip. */
  lemma {:induction false} MeasuredTime(store: Store, k: nat, c: Cache, tip: Hash, m: DifficultyManager)
    requires Consistent(GraphOf(store), k, c) && ScoreFalls(c) && tip in store
    requires tip in c && 1 <= m.windowSize <= |c[tip].blues| + |c[tip].reds| + 1
    ensures |OwnColours(c, tip)| == |c[tip].blues| + |c[tip].reds|
    ensures forall i :: 0 <= i < |OwnColours(c, tip)| ==> OwnColours(c, tip)[i] in store
    ensures var blocks, own := BlocksOf(store, LinearSort(c, tip)), OwnColours(c, tip) + [tip];
            && |blocks| >= m.windowSize
            && var latest, earliest := store[own[0]].header.timestamp, store[own[m.windowSize - 1]].header.timestamp;
               m.Elapsed(blocks) == if latest > earliest then latest - earliest else 1
  {
    hide *;
    TipKnown(store, k, c, tip);
    OrderIsStored(store, k, c, tip);
    OrderEnd(store, k, c, tip);
    ColoursCounted(GraphOf(store), k, c, tip);
    BlocksOfAt(store, LinearSort(c, tip));
    EndOfWindow(store, LinearSort(c, tip), OwnColours(c, tip), tip, m);
  }

  lemma {:induction false} EndOfWindow(
      store: Store, order: seq<Hash>, own: seq<Hash>, tip: Hash, m: DifficultyManager)
    requires |own| < |order| && 1 <= m.windowSize <= |own| + 1
    requires forall i :: 0 <= i < |own| ==> order[|order| - 1 - i] == own[i]
    requires order[|order| - 1 - |own|] == tip
    requires |BlocksOf(store, order)| == |order|
    requires forall i :: 0 <= i < |order| ==> order[i] in store && BlocksOf(store, order)[i] == store[order[i]]
    ensures forall i :: 0 <= i < |own| ==> own[i] in store
    ensures tip in store
    ensures var blocks, all := BlocksOf(store, order), own + [tip];
            var latest, earliest := store[all[0]].header.timestamp, store[all[m.windowSize - 1]].header.timestamp;
            m.Elapsed(blocks) == if latest > earliest then latest - earliest else 1
  {
    hide BlocksOf;
    var all := own + [tip];
    forall i | 0 <= i < |all| ensures order[|order| - 1 - i] == all[i] && all[i] in store {
      assert order[|order| - 1 - i] in store;
    }
  }

  lemma {:induction false} OrderIsStored(store: Store, k: nat, c: Cache, tip: Hash)
    requires Consistent(GraphOf(store), k, c) && ScoreFalls(c) && tip in store
    ensures Elems(LinearSort(c, tip)) <= store.Keys
  {
    hide ScoreFalls, LinearSort;
    PastKnown(GraphOf(store), GraphOf(store)[tip]);
    ExactlyOnce(GraphOf(store), k, c, tip);
  }

  /** With no red block below the tip its own colours are its whole past: once the past fills the window, the window
      is the lowest hashes of the past and not the most recent blocks. */
  lemma {:induction false} RedFreeWindow(store: Store, k: nat, c: Cache, tip: Hash)
    requires Consistent(GraphOf(store), k, c) && ScoreFalls(c) && tip in store && ChainReds(c, tip) == {}
    ensures tip in c && OwnColours(c, tip) == Ascending(Past(GraphOf(store), tip))
    ensures |c[tip].blues| + |c[tip].reds| == |Past(GraphOf(store), tip)|
  {
    hide Consistent, ScoreFalls;
    TipKnown(store, k, c, tip);
    ColourPartition(GraphOf(store), k, c, tip);
    ColoursCounted(GraphOf(store), k, c, tip);
    OwnRedsEmpty(c, tip);
    AscendingNoDup(OwnColours(c, tip));
    NoDupSize(OwnColours(c, tip));
  }

  lemma {:induction false} OwnRedsEmpty(c: Cache, h: Hash)
    requires ScoreFalls(c) && h in c && ChainReds(c, h) == {}
    ensures Elems(c[h].reds) == {}
  {
  }
}
