/** Answers to a peer's request for blocks above a height. */
module Sync {
  import opened Types
  import opened Sequences
  import opened LinearOrder
  import opened Validation
  import opened NodeRules

  datatype SyncRequest = SyncRequest(networkId: u64, genesisHash: Hash, sinceHeight: u64)

  datatype SyncResponse = Blocks(blocks: seq<VeloBlock>) | GenesisMismatch

  function Above(history: seq<VeloBlock>, since: u64): seq<VeloBlock>
    decreases |history|
  {
    if history == [] then []
    else
      var n := |history| - 1;
      Above(history[..n], since) + if history[n].header.height > since then [history[n]] else []
  }

  function BuildSyncResponse(request: SyncRequest, genesisHash: Hash, history: seq<VeloBlock>, networkId: u64)
    : SyncResponse
  {
    if request.networkId != networkId || request.genesisHash != genesisHash then GenesisMismatch
    else
      var all := Above(history, request.sinceHeight);
      Blocks(if |all| <= MAX_SYNC_BLOCKS then all else all[..MAX_SYNC_BLOCKS])
  }

  /** Filtering keeps the order: the `i`-th block kept is the `Source(i)`-th of the history. */
  lemma {:induction false} AboveSource(history: seq<VeloBlock>, since: u64, i: nat) returns (j: nat)
    requires i < |Above(history, since)|
    ensures j < |history| && history[j] == Above(history, since)[i] && history[j].header.height > since
    ensures |Above(history[..j], since)| == i
  {
    var n := |history| - 1;
    var kept := Above(history[..n], since);
    if i < |kept| {
      j := AboveSource(history[..n], since, i);
      assert history[..n][..j] == history[..j];
    } else {
      j := n;
    }
  }

  /** Any earlier block above the height is kept earlier. */
  lemma {:induction false} AboveKeeps(history: seq<VeloBlock>, since: u64, j: nat, m: nat)
    requires j < m <= |history| && history[j].header.height > since
    ensures exists i :: 0 <= i < |Above(history[..m], since)| && Above(history[..m], since)[i] == history[j]
    decreases m
  {
    var kept := Above(history[..m], since);
    assert history[..m][..m - 1] == history[..m - 1];
    if j == m - 1 {
      assert kept[|kept| - 1] == history[j];
    } else {
      AboveKeeps(history, since, j, m - 1);
      var i :| 0 <= i < |Above(history[..m - 1], since)| && Above(history[..m - 1], since)[i] == history[j];
      assert kept[i] == history[j];
    }
  }

  lemma {:induction false} AbovePrefix(history: seq<VeloBlock>, since: u64, m: nat)
    requires m <= |history|
    ensures Above(history[..m], since) <= Above(history, since)
  {
    if m < |history| {
      var n := |history| - 1;
      AbovePrefix(history[..n], since, m);
      assert history[..n][..m] == history[..m];
    } else {
      assert history[..m] == history;
    }
  }

  /** In any state a response lists parents first: each parent of a block in it is at most as high as the
      requester's height or comes earlier in the same response, truncation included. A requester that has
      all blocks up to its height can thus store the response in order without a missing parent. */
  lemma {:induction false} SyncParentsFirst(
      cfg: Config, s: NodeState, request: SyncRequest, networkId: u64, i: nat, p: Hash)
    requires Inv(cfg, s)
    requires BuildSyncResponse(request, GenesisHash(cfg), s.history, networkId).Blocks?
    requires i < |BuildSyncResponse(request, GenesisHash(cfg), s.history, networkId).blocks|
    requires p in BuildSyncResponse(request, GenesisHash(cfg), s.history, networkId).blocks[i].header.parents
    ensures p in s.store
    ensures s.store[p].header.height <= request.sinceHeight
            || exists i' :: 0 <= i' < i && cfg.hashOf(
                 BuildSyncResponse(request, GenesisHash(cfg), s.history, networkId).blocks[i']) == p
  {
    hide Inv, HistoryOk;
    InvParts(cfg, s);
    var since := request.sinceHeight;
    var all := Above(s.history, since);
    var j := AboveSource(s.history, since, i);
    var j' := HistoryParent(cfg, s.store, s.history, j, p);
    if s.store[p].header.height > since {
      AboveKeeps(s.history, since, j', j);
      var i' :| 0 <= i' < |Above(s.history[..j], since)| && Above(s.history[..j], since)[i'] == s.history[j'];
      AbovePrefix(s.history, since, j);
      assert all[i'] == s.history[j'];
    }
  }

  /** A response is refused exactly on a foreign network or genesis; it holds only stored blocks above the
      requester's height, and unless it was cut at 500 it holds all of them. */
  lemma {:induction false} SyncIsComplete(cfg: Config, s: NodeState, request: SyncRequest, networkId: u64)
    requires Inv(cfg, s)
    ensures var response := BuildSyncResponse(request, GenesisHash(cfg), s.history, networkId);
            && (response.GenesisMismatch? <==>
                  request.networkId != networkId || request.genesisHash != GenesisHash(cfg))
            && (response.Blocks? ==>
                  && |response.blocks| <= 500
                  && (forall b :: b in response.blocks ==>
                        cfg.hashOf(b) in s.store && s.store[cfg.hashOf(b)] == b
                        && b.header.height > request.sinceHeight)
                  && (|response.blocks| < 500 ==>
                        forall h :: h in s.store && s.store[h].header.height > request.sinceHeight ==>
                          s.store[h] in response.blocks))
  {
    hide Inv, ParentsFirst;
    InvParts(cfg, s);
    var since := request.sinceHeight;
    var all, ids := Above(s.history, since), HashesOf(cfg, s.history);
    forall i | 0 <= i < |all|
      ensures cfg.hashOf(all[i]) in s.store && s.store[cfg.hashOf(all[i])] == all[i]
      ensures all[i].header.height > since
    {
      var j := AboveSource(s.history, since, i);
      assert ids[j] in Elems(ids);
    }
    forall h | h in s.store && s.store[h].header.height > since ensures s.store[h] in all {
      assert h in Elems(ids);
      var j :| 0 <= j < |ids| && ids[j] == h;
      AboveKeeps(s.history, since, j, |s.history|);
      assert s.history[..|s.history|] == s.history;
    }
  }

  ghost predicate Matching(history: seq<VeloBlock>, since: u64, src: seq<nat>) {
    forall i :: 0 <= i < |src| ==> src[i] < |history| && history[src[i]].header.height > since
  }

  ghost predicate Increasing(src: seq<nat>) {
    forall i, j :: 0 <= i < j < |src| ==> src[i] < src[j]
  }

  ghost predicate Covering(history: seq<VeloBlock>, since: u64, src: seq<nat>) {
    forall j :: 0 <= j < |history| && history[j].header.height > since ==> j in src
  }

  /** `src` lists, ascending, the places of all blocks of the history above the height. */
  ghost predicate Places(history: seq<VeloBlock>, since: u64, src: seq<nat>) {
    Matching(history, since, src) && Increasing(src) && Covering(history, since, src)
  }

  lemma {:induction false} MatchingSnoc(history: seq<VeloBlock>, since: u64, src: seq<nat>)
    requires history != [] && Matching(history[..|history| - 1], since, src)
    ensures Matching(history, since, src)
    ensures Increasing(src) ==> Increasing(src + [|history| - 1])
    ensures history[|history| - 1].header.height > since ==> Matching(history, since, src + [|history| - 1])
  {
    var n := |history| - 1;
    forall i | 0 <= i < |src| ensures src[i] < n && history[src[i]].header.height > since {
      assert history[..n][src[i]] == history[src[i]];
    }
  }

  lemma {:induction false} CoveringSnoc(history: seq<VeloBlock>, since: u64, src: seq<nat>)
    requires history != [] && Covering(history[..|history| - 1], since, src)
    ensures Covering(history, since, src + [|history| - 1])
    ensures history[|history| - 1].header.height <= since ==> Covering(history, since, src)
  {
    var n := |history| - 1;
    forall j | 0 <= j < n && history[j].header.height > since ensures j in src {
      assert history[..n][j] == history[j];
    }
  }

  lemma {:induction false} PlacesSnoc(history: seq<VeloBlock>, since: u64, src: seq<nat>)
    requires history != [] && Places(history[..|history| - 1], since, src)
    ensures var n := |history| - 1;
            Places(history, since, if history[n].header.height > since then src + [n] else src)
  {
    hide Matching, Increasing, Covering;
    MatchingSnoc(history, since, src);
    CoveringSnoc(history, since, src);
  }

  lemma {:induction false} AbovePlaces(history: seq<VeloBlock>, since: u64) returns (src: seq<nat>)
    ensures Places(history, since, src) && |Above(history, since)| == |src|
    ensures forall i :: 0 <= i < |src| ==> src[i] < |history| && Above(history, since)[i] == history[src[i]]
    decreases |history|
  {
    hide Places;
    if history == [] {
      src := [];
      NoPlaces(since);
    } else {
      var n := |history| - 1;
      var before := AbovePlaces(history[..n], since);
      PlacesSnoc(history, since, before);
      src := if history[n].header.height > since then before + [n] else before;
    }
  }

  lemma {:induction false} NoPlaces(since: u64)
    ensures Places([], since, [])
  {
  }

  /** A response lists history in order and without gaps: its blocks are those of the first places above the height, 500
      of them or all there are, and no block comes twice. */
  lemma {:induction false} SyncIsPrefix(cfg: Config, s: NodeState, request: SyncRequest, networkId: u64)
    returns (src: seq<nat>)
    requires Inv(cfg, s)
    requires BuildSyncResponse(request, GenesisHash(cfg), s.history, networkId).Blocks?
    ensures Places(s.history, request.sinceHeight, src)
    ensures var blocks := BuildSyncResponse(request, GenesisHash(cfg), s.history, networkId).blocks;
            && |blocks| == (if |src| < 500 then |src| else 500)
            && (forall i :: 0 <= i < |blocks| ==> blocks[i] == s.history[src[i]])
            && forall i, j :: 0 <= i < j < |blocks| ==> cfg.hashOf(blocks[i]) != cfg.hashOf(blocks[j])
  {
    hide Inv, Above;
    src := AbovePlaces(s.history, request.sinceHeight);
    InvParts(cfg, s);
    var ids := HashesOf(cfg, s.history);
    var blocks := BuildSyncResponse(request, GenesisHash(cfg), s.history, networkId).blocks;
    forall i, j | 0 <= i < j < |blocks| ensures cfg.hashOf(blocks[i]) != cfg.hashOf(blocks[j]) {
      assert ids[src[i]] == cfg.hashOf(blocks[i]) && ids[src[j]] == cfg.hashOf(blocks[j]);
    }
  }
}
