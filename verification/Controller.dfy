/** The store: full snapshots, a delta chain behind each of them, and queries that pick the right one. */
module Controllers {
  import opened OrderedKeys
  import opened Values
  import opened Ingestion
  import opened ChainHistory
  import opened Ranks
  import opened Triples
  import opened Dictionaries
  import opened TreeIndexes
  import opened DeletionValues
  import opened PatchTreeIterators
  import opened PatchTrees
  import opened VersionQueries
  import opened LaterDeletions
  import opened OffsetQueries

  const EVERYTHING := Triple(BLANK, BLANK, BLANK)

  function StoreOf(tree: PatchTree): Store
    reads tree
  {
    Store(tree.additions, tree.deletions, tree.countAdditions, tree.maxPatchId, tree.vocabulary)
  }

  ghost function ChainOf(tree: PatchTree): Chain
    reads tree
  {
    Chain(tree.snapshot, tree.history, tree.minPatchId, tree.universe, tree.misranked)
  }

  /** The elements of a patch change what they mention: no triple is added that is there, or deleted that is not. */
  ghost predicate WellFormedPatch(patch: seq<PatchElement>, previous: set<Key>) {
    PatchSorted(patch) && Adds(patch) !! previous && Dels(patch) <= previous
  }

  /** Well-formed patches are admissible. */
  lemma WellFormedAdmissible(patch: seq<PatchElement>, previous: set<Key>, e: Entry, k: Key)
    requires WellFormedPatch(patch, previous)
    ensures Admissible(e, Sign(patch, k), k in previous)
  {
    if Sign(patch, k).Some? {
      var i :| 0 <= i < |patch| && patch[i].key == k && Sign(patch, k) == Some(patch[i].isAddition);
      assert if patch[i].isAddition then k in Adds(patch) else k in Dels(patch);
    }
  }

  /** The greatest id at or below `id`, or -1: what both managers look up. */
  ghost predicate IsPredecessor(ids: set<int>, id: int, r: int) {
    if r == -1 then forall i :: i in ids ==> id < i
    else r in ids && r <= id && forall i :: i in ids && i <= id ==> i <= r
  }

  ghost function PredecessorOf(ids: set<int>, id: int): (r: int)
    requires forall i :: i in ids ==> 0 <= i
    ensures IsPredecessor(ids, id, r)
  {
    var m := Floor(ids, id);
    if m.None? then -1 else m.value
  }

  /** The snapshot that a version belongs to; a snapshot belongs to itself. */
  method LatestSnapshot(ids: set<int>, patchId: int) returns (r: int)
    requires forall i :: i in ids ==> 0 <= i
    ensures IsPredecessor(ids, patchId, r)
  {
    var it := Ceiling(ids, patchId);
    if it.None? && ids == {} {
      return -1;
    }
    var begin := First(ids).value;
    if it.None? {
      it := Floor(ids, patchId);
    }
    while it.value != begin
      invariant it.Some? && it.value in ids && begin <= it.value
      invariant forall i :: i in ids && i <= patchId ==> i <= it.value
      decreases it.value - begin
    {
      if it.value <= patchId {
        return it.value;
      }
      it := Floor(ids, it.value - 1);
    }
    if begin <= patchId {
      return begin;
    }
    return -1;
  }

  method PatchTreeId(ids: set<int>, patchId: int) returns (r: int)
    requires forall i :: i in ids ==> 0 <= i
    ensures IsPredecessor(ids, patchId, r)
  {
    var it := Ceiling(ids, patchId);
    if it.None? || it.value > patchId {
      if it == First(ids) {
        return -1;
      }
      it := if it.None? then Floor(ids, patchId) else Floor(ids, it.value - 1);
    }
    return it.value;
  }

  /** The versions after a run of patches. */
  ghost function RunVersions(versions: seq<set<Key>>, patches: seq<seq<PatchElement>>): seq<set<Key>>
    decreases |patches|
  {
    if patches == [] || versions == [] then versions
    else RunVersions(versions + [ApplyPatch(versions[|versions| - 1], patches[0])], patches[1..])
  }

  /** The versions among the first `n` of a run that the strategy turns into snapshots. */
  ghost function DecidedIds(firstId: int, decisions: seq<bool>, n: nat): set<int> {
    set i | 0 <= i < n && i < |decisions| && decisions[i] :: firstId + i
  }

  lemma OneMoreDecided(firstId: int, decisions: seq<bool>, n: nat)
    requires n < |decisions|
    ensures DecidedIds(firstId, decisions, n + 1) ==
            DecidedIds(firstId, decisions, n) + if decisions[n] then {firstId + n} else {}
  {
  }

  /** Every patch of a run is well formed for the version before it. */
  ghost predicate WellFormedRun(versions: seq<set<Key>>, patches: seq<seq<PatchElement>>, universe: set<Key>)
    decreases |patches|
  {
    patches != [] ==>
      && 0 < |versions| && WellFormedPatch(patches[0], versions[|versions| - 1])
      && (forall i :: 0 <= i < |patches[0]| ==> patches[0][i].key in universe)
      && WellFormedRun(versions + [ApplyPatch(versions[|versions| - 1], patches[0])], patches[1..], universe)
  }

  // ----- where the versions are

  /** A chain that starts at version `m` holds the versions from there to the next snapshot, or to the last version. */
  ghost predicate ChainAt(m: int, c: Chain, snapshots: map<int, set<Key>>, versions: seq<set<Key>>) {
    && c.min == m && 1 <= m && m - 1 in snapshots && |c.history| > 0 && m + |c.history| <= |versions|
    && c.snapshot == versions[m - 1]
    && (forall v :: m <= v < m + |c.history| ==> c.history[v - m] == versions[v])
    && (m + |c.history| == |versions| || m + |c.history| - 1 in snapshots)
    && (forall i :: i in snapshots ==> i < m || m + |c.history| - 1 <= i)
  }

  /** Every snapshot is a version; behind every snapshot but that of the last version there is a chain, and nowhere
      else. */
  ghost predicate Layout(snapshots: map<int, set<Key>>, chains: map<int, Chain>, versions: seq<set<Key>>) {
    && 0 < |versions| && 0 in snapshots
    && (forall i :: i in snapshots ==> 0 <= i < |versions| && snapshots[i] == versions[i])
    && (forall i :: i in snapshots && i + 1 < |versions| ==> i + 1 in chains)
    && (forall m :: m in chains ==> ChainAt(m, chains[m], snapshots, versions))
  }

  /** The chain that the next version goes to: a new one exactly if the last version has just become a snapshot. */
  lemma NextChain(snapshots: map<int, set<Key>>, chains: map<int, Chain>, versions: seq<set<Key>>, snapshotId: int,
                  treeId: int)
    requires Layout(snapshots, chains, versions)
    requires IsPredecessor(snapshots.Keys, |versions|, snapshotId) && IsPredecessor(chains.Keys, |versions|, treeId)
    ensures snapshotId >= treeId ==> snapshotId == |versions| - 1 && |versions| !in chains
    ensures snapshotId < treeId ==>
      treeId in chains && treeId + |chains[treeId].history| == |versions| && |versions| - 1 !in snapshots
  {
    assert 0 in snapshots.Keys;
    assert snapshotId in snapshots.Keys;
    assert |versions| in chains ==> ChainAt(|versions|, chains[|versions|], snapshots, versions);
    if snapshotId < treeId {
      assert treeId in chains.Keys;
      var c := chains[treeId];
      assert ChainAt(treeId, c, snapshots, versions);
      var last := treeId + |c.history| - 1;
      assert last in snapshots && last + 1 < |versions| ==> last + 1 in chains.Keys;
      assert last in snapshots.Keys ==> last <= snapshotId;
    }
  }

  /** A chain that has ended with a snapshot is not touched by later versions. */
  lemma ChainStays(k: int, c: Chain, snapshots: map<int, set<Key>>, versions: seq<set<Key>>, next: set<Key>)
    requires ChainAt(k, c, snapshots, versions) && k + |c.history| - 1 in snapshots
    ensures ChainAt(k, c, snapshots, versions + [next])
  {
  }

  /** Of two chains, one that does not end with a snapshot is the last. */
  lemma OlderEnds(k: int, d: Chain, m: int, c: Chain, snapshots: map<int, set<Key>>, versions: seq<set<Key>>)
    requires ChainAt(k, d, snapshots, versions) && ChainAt(m, c, snapshots, versions) && k != m
    requires m + |c.history| == |versions| && |versions| - 1 !in snapshots
    ensures k + |d.history| - 1 in snapshots
  {
  }

  lemma ChainGrows(m: int, c: Chain, d: Chain, snapshots: map<int, set<Key>>, versions: seq<set<Key>>, next: set<Key>)
    requires ChainAt(m, c, snapshots, versions) && m + |c.history| == |versions| && |versions| - 1 !in snapshots
    requires d.min == m && d.snapshot == c.snapshot && d.history == c.history + [next]
    ensures ChainAt(m, d, snapshots, versions + [next])
  {
    forall i | i in snapshots ensures i < m || m + |d.history| - 1 <= i {
      assert i < m || m + |c.history| - 1 <= i;
    }
  }

  lemma ChainBegins(m: int, c: Chain, snapshots: map<int, set<Key>>, versions: seq<set<Key>>, next: set<Key>)
    requires 0 < |versions| == m == c.min && m - 1 in snapshots && forall i :: i in snapshots ==> i < |versions|
    requires c.snapshot == versions[m - 1] && c.history == [next]
    ensures ChainAt(m, c, snapshots, versions + [next])
  {
  }

  /** A chain grown by the next version, or begun with it. */
  lemma LayoutGrows(snapshots: map<int, set<Key>>, chains: map<int, Chain>, versions: seq<set<Key>>, m: int, c: Chain,
                    next: set<Key>)
    requires Layout(snapshots, chains, versions)
    requires if m in chains then
               m + |chains[m].history| == |versions| && |versions| - 1 !in snapshots && c.min == m
               && c.snapshot == chains[m].snapshot && c.history == chains[m].history + [next]
             else
               m == |versions| && |versions| - 1 in snapshots && c.min == m
               && c.snapshot == versions[|versions| - 1] && c.history == [next]
    ensures Layout(snapshots, chains[m := c], versions + [next])
  {
    hide ChainAt;
    var longer := versions + [next];
    if m in chains {
      ChainGrows(m, chains[m], c, snapshots, versions, next);
    } else {
      ChainBegins(m, c, snapshots, versions, next);
    }
    forall k | k in chains && k != m ensures ChainAt(k, chains[k], snapshots, longer) {
      assert ChainAt(k, chains[k], snapshots, versions);
      ChainEnds(k, chains[k], snapshots, versions);
      if m in chains { OlderEnds(k, chains[k], m, chains[m], snapshots, versions); }
      ChainStays(k, chains[k], snapshots, versions, next);
    }
  }

  lemma ChainEnds(k: int, d: Chain, snapshots: map<int, set<Key>>, versions: seq<set<Key>>)
    requires ChainAt(k, d, snapshots, versions)
    ensures |versions| - 1 in snapshots ==> k + |d.history| - 1 in snapshots
  {
  }

  /** The last version may become a snapshot at any time. */
  lemma LayoutSnapshot(snapshots: map<int, set<Key>>, chains: map<int, Chain>, versions: seq<set<Key>>)
    requires Layout(snapshots, chains, versions)
    ensures Layout(snapshots[|versions| - 1 := versions[|versions| - 1]], chains, versions)
  {
    hide ChainAt;
    var more := snapshots[|versions| - 1 := versions[|versions| - 1]];
    forall m | m in chains ensures ChainAt(m, chains[m], more, versions) {
      assert ChainAt(m, chains[m], snapshots, versions);
      ChainBesideSnapshot(m, chains[m], snapshots, versions);
    }
  }

  lemma ChainBesideSnapshot(m: int, c: Chain, snapshots: map<int, set<Key>>, versions: seq<set<Key>>)
    requires ChainAt(m, c, snapshots, versions)
    ensures ChainAt(m, c, snapshots[|versions| - 1 := versions[|versions| - 1]], versions)
  {
  }

  /** A version that is no snapshot is found in the chain behind its latest snapshot. */
  lemma VersionFound(snapshots: map<int, set<Key>>, chains: map<int, Chain>, versions: seq<set<Key>>, v: int,
                     snapshotId: int, treeId: int)
    requires Layout(snapshots, chains, versions) && 0 <= v < |versions|
    requires IsPredecessor(snapshots.Keys, v, snapshotId) && IsPredecessor(chains.Keys, v, treeId)
    ensures 0 <= snapshotId <= v && snapshotId in snapshots
    ensures snapshotId != v ==>
      treeId == snapshotId + 1 && treeId in chains && treeId <= v < treeId + |chains[treeId].history| &&
      chains[treeId].snapshot == snapshots[snapshotId] && chains[treeId].history[v - treeId] == versions[v]
  {
    assert 0 in snapshots.Keys;
    assert snapshotId in snapshots.Keys;
    if snapshotId != v {
      assert snapshotId + 1 in chains.Keys;
      assert ChainAt(snapshotId + 1, chains[snapshotId + 1], snapshots, versions);
      var c := chains[snapshotId + 1];
      var last := snapshotId + |c.history|;
      assert last in snapshots.Keys ==> !(snapshotId < last <= v);
      assert treeId in chains.Keys;
      assert ChainAt(treeId, chains[treeId], snapshots, versions);
      assert treeId - 1 in snapshots.Keys;
    }
  }

  /** The chain in which a version lies that is no snapshot: it begins behind the latest snapshot, and ends with the
      next one or with the last version. */
  ghost function Segment(versions: seq<set<Key>>, ids: set<int>, v: int, universe: set<Key>,
                         misranked: set<RankPlace>): Chain
    requires 0 <= v < |versions| && 0 in ids && forall i :: i in ids ==> 0 <= i < |versions|
  {
    var first := Floor(ids, v).value;
    var next := Ceiling(ids, first + 1);
    var end := if next.None? then |versions| - 1 else next.value;
    Chain(versions[first], versions[first + 1..end + 1], first + 1, universe, misranked)
  }

  lemma SegmentIs(snapshots: map<int, set<Key>>, chains: map<int, Chain>, versions: seq<set<Key>>, v: int, m: int)
    requires Layout(snapshots, chains, versions) && 0 <= v < |versions| && v !in snapshots
    requires m in chains && m <= v < m + |chains[m].history|
    ensures 0 in snapshots.Keys && forall i :: i in snapshots.Keys ==> 0 <= i < |versions|
    ensures chains[m] == Segment(versions, snapshots.Keys, v, chains[m].universe, chains[m].misranked)
  {
    hide Segment, ChainAt;
    assert ChainAt(m, chains[m], snapshots, versions);
    forall i | i in snapshots.Keys ensures 0 <= i < |versions| { assert i in snapshots; }
    assert 0 in snapshots;
    SegmentIsChain(m, chains[m], snapshots, versions, v);
  }

  lemma SegmentIsChain(m: int, c: Chain, snapshots: map<int, set<Key>>, versions: seq<set<Key>>, v: int)
    requires ChainAt(m, c, snapshots, versions) && 0 <= v < |versions| && v !in snapshots && m <= v < m + |c.history|
    requires 0 in snapshots.Keys && forall i :: i in snapshots.Keys ==> 0 <= i < |versions|
    ensures c == Segment(versions, snapshots.Keys, v, c.universe, c.misranked)
  {
    var ids, end := snapshots.Keys, m + |c.history| - 1;
    assert m - 1 in ids;
    assert forall i :: i in ids ==> i < m || end <= i;
    assert end in ids ==> end != v;
    EndsOf(ids, v, m, end, |versions|);
    assert c.history == versions[m..end + 1];
  }

  lemma EndsOf(ids: set<int>, v: int, m: int, end: int, n: int)
    requires m - 1 in ids && m <= v <= end < n && (end in ids ==> v < end)
    requires forall i :: i in ids ==> i < m || end <= i
    requires forall i :: i in ids ==> i < n
    requires end == n - 1 || end in ids
    ensures Floor(ids, v) == Some(m - 1)
    ensures var next := Ceiling(ids, m); (if next.None? then n - 1 else next.value) == end
  {
  }

  // ----- the controller

  class Controller {
    const vocabulary: Key -> Triple
    var snapshots: map<int, set<Key>>  // the snapshot manager's snapshots
    var trees: map<int, PatchTree>  // the patch tree manager's trees
    ghost const universe: set<Key>
    ghost var versions: seq<set<Key>>  // the triples of every version appended so far

    ghost function Chains(): map<int, Chain>
      reads `trees, trees.Values
    {
      map m | m in trees :: ChainOf(trees[m])
    }

    ghost predicate TreeOk(tree: PatchTree)
      reads tree
    {
      tree.Valid() && tree.vocabulary == vocabulary && tree.universe == universe &&
        MisrankedOnReturn(ChainOf(tree), vocabulary)
    }

    /** All trees are valid, and no two ids share one. */
    ghost predicate TreesOk()
      reads `trees, trees.Values
    {
      && (forall m :: m in trees ==> TreeOk(trees[m]))
      && (forall m, n :: m in trees && n in trees && m != n ==> trees[m] != trees[n])
    }

    ghost predicate Valid()
      reads this, trees.Values
    {
      && Dictionary(universe, vocabulary) && |versions| < MAX
      && (forall v :: 0 <= v < |versions| ==> versions[v] <= universe)
      && TreesOk() && Layout(snapshots, Chains(), versions)
    }

    /** A store with one version, as a snapshot. */
    constructor (vocabulary: Key -> Triple, ghost universe: set<Key>, first: set<Key>)
      requires Dictionary(universe, vocabulary) && first <= universe
      ensures Valid() && versions == [first] && snapshots.Keys == {0} && trees == map[]
      ensures this.vocabulary == vocabulary && this.universe == universe
    {
      this.vocabulary, this.universe := vocabulary, universe;
      snapshots, trees, versions := map[0 := first], map[], [first];
    }

    /** The tree that takes the next version: constructed if the last version has become a snapshot. */
    method NextTree(patchId: int) returns (treeId: int)
      requires Valid() && patchId == |versions| < MAX - 1
      modifies `trees
      ensures treeId in trees && TreesOk()
      ensures if treeId in old(trees) then
                trees == old(trees) && treeId + |trees[treeId].history| == |versions| && |versions| - 1 !in snapshots
              else
                && trees == old(trees)[treeId := trees[treeId]] && fresh(trees[treeId]) && treeId == |versions|
                && |versions| - 1 in snapshots && trees[treeId].history == [] && trees[treeId].minPatchId == treeId
                && trees[treeId].snapshot == versions[|versions| - 1]
    {
      hide TreeOk, TreesOk, Dictionary, Layout, ChainAt, IsPredecessor;
      KeysNotNegative();
      assert Chains().Keys == trees.Keys;
      var snapshotId := LatestSnapshot(snapshots.Keys, patchId);
      treeId := PatchTreeId(trees.Keys, patchId);
      NextChain(snapshots, Chains(), versions, snapshotId, treeId);
      if snapshotId >= treeId {
        ConstructTree(patchId, versions[|versions| - 1]);
        treeId := patchId;
      }
    }

    /** `construct_next_patch_tree`. */
    method ConstructTree(patchId: int, ghost snapshot: set<Key>)
      requires TreesOk() && Dictionary(universe, vocabulary) && snapshot <= universe && 0 < patchId < MAX
      requires patchId !in trees
      modifies `trees
      ensures TreesOk() && patchId in trees && trees == old(trees)[patchId := trees[patchId]] && fresh(trees[patchId])
      ensures trees[patchId].minPatchId == patchId && trees[patchId].history == [] &&
              trees[patchId].snapshot == snapshot
    {
      hide TreeOk, Dictionary;
      var tree := MakeTree(patchId, snapshot);
      trees := trees[patchId := tree];
    }

    /** Ingests a version and then, if the strategy says so, turns it into a snapshot, from the answer to a query for
        all of it. What the strategy says is arbitrary. */
    method Append(patch: seq<PatchElement>, patchId: int, createSnapshot: bool)
      requires Valid() && patchId == |versions| < MAX - 1
      requires WellFormedPatch(patch, versions[|versions| - 1]) &&
               forall i :: 0 <= i < |patch| ==> patch[i].key in universe
      modifies this, trees.Values
      ensures Valid() && versions == old(versions) + [ApplyPatch(old(versions)[patchId - 1], patch)]
      ensures snapshots == if createSnapshot then old(snapshots)[patchId := versions[patchId]] else old(snapshots)
      ensures forall t :: t in trees.Values ==> t in old(trees.Values) || fresh(t)
    {
      hide Valid, WellFormedPatch, ApplyPatch;
      Ingest(patch, patchId);
      if createSnapshot {
        CreateSnapshot(patchId);
      }
    }

    /** A run of appends, each with its own decision: the versions depend on the patches alone. */
    method AppendRun(firstId: int, patches: seq<seq<PatchElement>>, decisions: seq<bool>)
      requires Valid() && firstId == |versions| && |decisions| == |patches| && |versions| + |patches| < MAX
      requires WellFormedRun(versions, patches, universe)
      modifies this, trees.Values
      ensures Valid() && versions == RunVersions(old(versions), patches)
      ensures snapshots.Keys == old(snapshots.Keys) + DecidedIds(firstId, decisions, |decisions|)
    {
      hide Valid, WellFormedPatch, ApplyPatch;
      var i := 0;
      assert patches[0..] == patches;
      while i < |patches|
        invariant 0 <= i <= |patches| && Valid() && |versions| == firstId + i
        invariant forall t :: t in trees.Values ==> t in old(trees.Values) || fresh(t)
        invariant WellFormedRun(versions, patches[i..], universe)
        invariant snapshots.Keys == old(snapshots.Keys) + DecidedIds(firstId, decisions, i)
        invariant RunVersions(versions, patches[i..]) == RunVersions(old(versions), patches)
      {
        KeysNotNegative();
        assert patches[i..][1..] == patches[i + 1..];
        Append(patches[i], firstId + i, decisions[i]);
        OneMoreDecided(firstId, decisions, i);
        i := i + 1;
      }
    }

    method CreateSnapshot(patchId: int)
      requires Valid() && patchId == |versions| - 1
      modifies `snapshots
      ensures Valid() && snapshots == old(snapshots)[patchId := versions[patchId]]
    {
      hide Dictionary, Layout, ChainAt, TreesOk, ChainOf;
      KeysNotNegative();
      var all := CollectVersion(patchId);
      ghost var chains := Chains();
      LayoutSnapshot(snapshots, chains, versions);
      snapshots := snapshots[patchId := all];
      assert Chains() == chains;
    }

    method CollectVersion(v: int) returns (all: set<Key>)
      requires Valid() && 0 <= v == |versions| - 1
      ensures all == versions[v]
    {
      hide *;
      EverythingAsked();
      LatestReadable(EVERYTHING, 0, v);
      LatestAnswerable(EVERYTHING, 0, v);
      var r := VersionMaterialized(EVERYTHING, 0, v);
      all := set k | k in r;
      AnswerIsContent(EVERYTHING, v);
      EverythingMatches(versions[v], vocabulary);
      SkipNothing(WholeAnswer(EVERYTHING, v), 0);
      assert forall k :: k in all <==> k in versions[v];
    }

    method Ingest(patch: seq<PatchElement>, patchId: int)
      requires Valid() && patchId == |versions| < MAX - 1
      requires WellFormedPatch(patch, versions[|versions| - 1]) &&
               forall i :: 0 <= i < |patch| ==> patch[i].key in universe
      modifies `trees, `versions, trees.Values
      ensures Valid() && versions == old(versions) + [ApplyPatch(old(versions)[patchId - 1], patch)]
      ensures forall t :: t in trees.Values ==> t in old(trees.Values) || fresh(t)
    {
      hide Dictionary, Layout, ChainAt, WellFormedPatch, ApplyPatch, TreeOk, TreesOk;
      KeysNotNegative();
      ghost var chains, previous := Chains(), versions[|versions| - 1];
      var treeId := NextTree(patchId);
      TargetOf(chains, treeId, previous);
      GrowTree(treeId, patch, patchId, previous, chains);
      ghost var next := ApplyPatch(previous, patch);
      LayoutGrows(snapshots, chains, versions, treeId, ChainOf(trees[treeId]), next);
      PatchWithin(previous, patch, universe);
      versions := versions + [next];
    }

    lemma TargetOf(chains: map<int, Chain>, treeId: int, previous: set<Key>)
      requires Layout(snapshots, chains, versions) && treeId in trees && previous == versions[|versions| - 1]
      requires treeId in chains ==>
               ChainOf(trees[treeId]) == chains[treeId] && treeId + |trees[treeId].history| == |versions|
      requires treeId !in chains ==> trees[treeId].history == [] && trees[treeId].snapshot == previous
      ensures previous == Latest(trees[treeId].snapshot, trees[treeId].history)
      ensures treeId in chains ==> trees[treeId].minPatchId == treeId
    {
      if treeId in chains { LatestOfChain(snapshots, chains, versions, treeId); }
    }

    /** Ingests into one tree; the others stay as they are. */
    method GrowTree(treeId: int, patch: seq<PatchElement>, patchId: int, ghost previous: set<Key>,
                    ghost chains: map<int, Chain>)
      requires treeId in trees && TreesOk() && patchId == treeId + |trees[treeId].history| < MAX
      requires trees[treeId].minPatchId == treeId && previous == Latest(trees[treeId].snapshot, trees[treeId].history)
      requires WellFormedPatch(patch, previous) && forall i :: 0 <= i < |patch| ==> patch[i].key in universe
      requires chains[treeId := ChainOf(trees[treeId])] == Chains()
      modifies trees[treeId]
      ensures TreesOk() && Chains() == chains[treeId := ChainOf(trees[treeId])]
      ensures trees[treeId].history == old(trees[treeId].history) + [ApplyPatch(previous, patch)]
    {
      hide TreeOk, WellFormedPatch, ApplyPatch;
      var tree := trees[treeId];
      IngestInto(tree, patch, patchId, previous);
      assert forall m :: m in trees && m != treeId ==> trees[m] != tree;
    }

    method IngestInto(tree: PatchTree, patch: seq<PatchElement>, patchId: int, ghost previous: set<Key>)
      requires TreeOk(tree) && patchId == tree.minPatchId + |tree.history| < MAX
      requires previous == Latest(tree.snapshot, tree.history)
      requires WellFormedPatch(patch, previous) && forall i :: 0 <= i < |patch| ==> patch[i].key in universe
      modifies tree
      ensures TreeOk(tree) && tree.history == old(tree.history) + [ApplyPatch(previous, patch)]
    {
      hide PatchTree.Valid, ApplyPatch, Admissible, KeyStep, RemarkedRanks, MisrankedOnReturn;
      ghost var s, c := StoreOf(tree), ChainOf(tree);
      ReturnsNext(tree, patch, ApplyPatch(previous, patch));
      assert tree.State() == s.Nodes() by { NothingLogged(tree); }
      forall k ensures Admissible(tree.State().EntryOf(k), Sign(patch, k), k in previous) {
        WellFormedAdmissible(patch, previous, tree.State().EntryOf(k), k);
      }
      tree.AppendUnsafe(patch, patchId);
      assert ChainOf(tree) == Extended(c, s, patch, ApplyPatch(previous, patch));
    }

    /** Where a version is found: it is a snapshot, or in the chain behind the latest snapshot. */
    ghost predicate FoundAt(v: int, snapshotId: int, treeId: int)
      reads this, trees.Values
    {
      && snapshotId in snapshots && (snapshotId == v <==> v in snapshots)
      && (snapshotId == v ==> 0 <= v < |versions| && snapshots[v] == versions[v])
      && (snapshotId != v ==>
            && treeId in trees && TreeOk(trees[treeId]) && trees[treeId].minPatchId == treeId
            && trees[treeId].vocabulary == vocabulary
            && treeId <= v < treeId + |trees[treeId].history| <= |versions| < MAX
            && trees[treeId].snapshot == snapshots[snapshotId] && trees[treeId].history[v - treeId] == versions[v]
            && Floor(trees.Keys, v) == Some(treeId))
    }

    lemma FindVersion(v: int, snapshotId: int, treeId: int)
      requires Valid() && 0 <= v < |versions|
      requires IsPredecessor(snapshots.Keys, v, snapshotId) && IsPredecessor(trees.Keys, v, treeId)
      ensures FoundAt(v, snapshotId, treeId)
    {
      hide Dictionary, Layout, ChainAt, PatchTree.Valid;
      assert Chains().Keys == trees.Keys;
      VersionFound(snapshots, Chains(), versions, v, snapshotId, treeId);
      SnapshotIsVersion(snapshots, Chains(), versions, snapshotId);
      assert v in snapshots ==> v in snapshots.Keys;
      if snapshotId != v { ChainInside(snapshots, Chains(), versions, treeId); }
    }

    /** What a tree holds: the versions behind its snapshot, up to the next snapshot or the last version. */
    ghost predicate Holds(treeId: int)
      reads this, trees.Values
    {
      && treeId in trees && TreeOk(trees[treeId]) && trees[treeId].minPatchId == treeId
      && 0 < |trees[treeId].history| && 1 <= treeId && treeId + |trees[treeId].history| <= |versions| < MAX
      && treeId - 1 in snapshots && trees[treeId].snapshot == versions[treeId - 1]
      && (forall u :: treeId <= u < treeId + |trees[treeId].history| ==>
            trees[treeId].history[u - treeId] == versions[u])
      && (treeId + |trees[treeId].history| == |versions| || treeId + |trees[treeId].history| - 1 in snapshots)
      && (forall i :: i in snapshots ==> i < treeId || treeId + |trees[treeId].history| - 1 <= i)
    }

    lemma TreeHolds(treeId: int)
      requires Valid() && treeId in trees
      ensures Holds(treeId)
    {
      hide Dictionary, PatchTree.Valid, Layout;
      ChainIs(snapshots, Chains(), versions, treeId);
    }

    /** The answer to a query at a version, from its start. */
    ghost function WholeAnswer(pattern: Triple, v: int): seq<Key>
      reads this, trees.Values
    {
      if v in snapshots then Sorted(MatchesOf(snapshots[v], vocabulary, pattern))
      else
        var m := Floor(trees.Keys, v);
        if m.None? then []
        else
          var tree := trees[m.value];
          Answer(Sorted(MatchesOf(tree.snapshot, vocabulary, pattern)), StoreOf(tree), ChainOf(tree), pattern, v)
    }

    /** The places of the ranks in its tree that are wrong. */
    ghost function MisrankedAt(v: int): set<RankPlace>
      reads this, trees.Values
    {
      var m := Floor(trees.Keys, v);
      if m.None? then {} else trees[m.value].misranked
    }

    /** The count of additions that is stored for a version, or 0. */
    ghost function StoredFor(pattern: Triple, v: int): nat
      reads this, trees.Values
    {
      var m := Floor(trees.Keys, v);
      if m.None? then 0 else Lookup(trees[m.value].countAdditions, (v, pattern))
    }

    /** The chain of a version, as the versions and the snapshots have it. */
    ghost function SegmentOf(v: int): Chain
      reads this, trees.Values
      requires Valid() && 0 <= v < |versions|
    {
      SnapshotsInside();
      Segment(versions, snapshots.Keys, v, universe, MisrankedAt(v))
    }

    lemma SnapshotsInside()
      requires Valid()
      ensures 0 in snapshots.Keys && forall i :: i in snapshots.Keys ==> 0 <= i < |versions|
    {
      hide Dictionary, ChainAt, TreesOk;
    }

    lemma SegmentFound(v: int, snapshotId: int, treeId: int)
      requires Valid() && 0 <= v < |versions| && v !in snapshots && FoundAt(v, snapshotId, treeId)
      ensures ChainOf(trees[treeId]) == SegmentOf(v)
      ensures MisrankedAt(v) == trees[treeId].misranked
      ensures forall pattern :: StoredFor(pattern, v) == Lookup(trees[treeId].countAdditions, (v, pattern))
    {
      hide Dictionary, Layout, ChainAt, PatchTree.Valid, Segment;
      SegmentIs(snapshots, Chains(), versions, v, treeId);
    }

    /** What the tree behind a version has stored. */
    ghost function StoreAt(v: int): Store
      reads this, trees.Values
      requires Valid() && 0 <= v < |versions| && v !in snapshots
    {
      TreeThere(v);
      StoreOf(trees[Floor(trees.Keys, v).value])
    }

    lemma TreeThere(v: int)
      requires Valid() && 0 <= v < |versions| && v !in snapshots
      ensures var m := Floor(trees.Keys, v);
        m.Some? && m.value in trees && FoundAt(v, PredecessorOf(snapshots.Keys, v), m.value)
    {
      hide Valid, FoundAt, IsPredecessor;
      KeysNotNegative();
      var i, m := PredecessorOf(snapshots.Keys, v), PredecessorOf(trees.Keys, v);
      FindVersion(v, i, m);
      TreeFound(v, i, m);
    }

    lemma TreeFound(v: int, snapshotId: int, treeId: int)
      requires v !in snapshots && FoundAt(v, snapshotId, treeId)
      ensures treeId in trees && Floor(trees.Keys, v) == Some(treeId)
    {
      hide TreeOk;
    }

    /** It can be queried as the chain of the version. */
    lemma QueryableAt(v: int)
      requires Valid() && 0 <= v < |versions| && v !in snapshots
      ensures Queryable(StoreAt(v), SegmentOf(v), v) && StoreAt(v).vocabulary == vocabulary
      ensures MisrankedOnReturn(SegmentOf(v), vocabulary) && SegmentOf(v).universe == universe
      ensures forall pattern :: StoredFor(pattern, v) == Lookup(StoreAt(v).countAdditions, (v, pattern))
    {
      hide Valid, Queryable, IsPredecessor, SegmentOf, StoredFor, PatchTree.Valid, MisrankedOnReturn;
      KeysNotNegative();
      TreeThere(v);
      var i, m := PredecessorOf(snapshots.Keys, v), Floor(trees.Keys, v).value;
      SegmentFound(v, i, m);
      TreeQueries(trees[m], v);
    }

    /** The walk over all additions that match at a version can be read to its end exactly if none enters late. */
    lemma AdditionsDrain(pattern: Triple, v: int, keys: seq<Key>, n: nat)
      requires Valid() && 0 <= v < |versions| && v !in snapshots && IsPattern(pattern)
      requires IsIndex(keys, StoreAt(v).additions.Keys, QueryOrder(pattern), vocabulary)
      requires |MatchesOf(Gained(SegmentOf(v), v), vocabulary, pattern)| < n
      ensures WalksOn(StoreAt(v), keys, pattern, v, n) <==> AdditionsBegun(SegmentOf(v), vocabulary, pattern, v)
    {
      hide *;
      QueryableAt(v);
      DrainedWalk(StoreAt(v), SegmentOf(v), keys, pattern, v, n);
      BegunIff(SegmentOf(v), vocabulary, pattern, v);
    }

    /** With ids that can be packed, all ranks of a version are right that lacks no triple which had come back. */
    lemma RanksToldUnlessReturned(pattern: Triple, v: int)
      requires Valid() && 0 <= v < |versions| && AllPackable(universe, vocabulary)
      requires v !in snapshots ==> !LostOnReturn(SegmentOf(v), v)
      ensures RanksTold(pattern, v)
    {
      hide Valid, Queryable, SegmentOf, LostOnReturn, Packable, IsReal, StoreAt, MisrankedAt, FieldOf, Matches;
      if v !in snapshots {
        QueryableAt(v);
        SnapshotPackable(StoreAt(v), SegmentOf(v), v);
        assert SegmentOf(v).misranked == MisrankedAt(v) by { SegmentRanks(v); }
        forall k ensures RankPlace(v, FieldOf(pattern), k) !in MisrankedAt(v) {
          assert RankPlace(v, FieldOf(pattern), k).version == v;
        }
      }
    }

    lemma SegmentRanks(v: int)
      requires Valid() && 0 <= v < |versions|
      ensures SegmentOf(v).misranked == MisrankedAt(v)
    {
      hide Valid, MisrankedAt;
    }

    /** The trees in other orders tell the last deletion. */
    ghost predicate LastTold(pattern: Triple, v: int)
      reads this, trees.Values
      requires Valid() && 0 <= v < |versions|
    {
      v in snapshots || IsDefaultTree(pattern) || LastStillLost(SegmentOf(v), vocabulary, pattern, v)
    }

    /** What a query at a version asks, if it is no snapshot: the ranks of the pattern are right, the tree of the
        pattern tells the last deletion, and no rank is hidden, at least from the offset loop. */
    ghost predicate Askable(pattern: Triple, offset: nat, v: int)
      reads this, trees.Values
      requires Valid() && 0 <= v < |versions|
    {
      v !in snapshots ==>
        RanksTold(pattern, v) && LastTold(pattern, v) && (Shown(pattern, offset, v) || NothingHidden(SegmentOf(v), v))
    }

    /** Each turn of the offset loop finds a deletion whose rank shows, or none with the deletions on one side. */
    ghost predicate Shown(pattern: Triple, offset: nat, v: int)
      reads this, trees.Values
      requires Valid() && 0 <= v < |versions|
    {
      v !in snapshots ==>
        var c := SegmentOf(v);
        ShownAlong(c, vocabulary, pattern, v, Sorted(MatchesOf(c.snapshot, vocabulary, pattern)), offset, 0)
    }

    /** The matches of the chain's snapshot. */
    ghost function Base(pattern: Triple, v: int): seq<Key>
      reads this, trees.Values
      requires Valid() && 0 <= v < |versions|
    {
      Sorted(MatchesOf(SegmentOf(v).snapshot, vocabulary, pattern))
    }

    /** The ranks that the offset loop asks for can be read. */
    ghost predicate RanksReadable(pattern: Triple, offset: nat, v: int)
      reads this, trees.Values
      requires Valid() && 0 <= v < |versions|
    {
      v !in snapshots ==> LoopDefined(StoreAt(v), SegmentOf(v), pattern, v, Base(pattern, v), offset, 0)
    }

    /** What is delivered: from the place where the offset loop ends. */
    ghost function Answered(pattern: Triple, offset: nat, v: int): seq<Key>
      reads this, trees.Values
      requires Valid() && 0 <= v < |versions|
    {
      if v in snapshots then Skip(WholeAnswer(pattern, v), offset)
      else Delivered(StoreAt(v), SegmentOf(v), pattern, v, Base(pattern, v), offset)
    }

    /** The run of the offset loop skips that many deletions in the end. */
    ghost predicate Ends(pattern: Triple, offset: nat, v: int, end: int)
      reads this, trees.Values
      requires Valid() && 0 <= v < |versions| && v !in snapshots
    {
      RunsTo(StoreAt(v), SegmentOf(v), pattern, v, Base(pattern, v), offset, end)
    }

    /** What is delivered if that many are skipped. */
    ghost function From(pattern: Triple, offset: nat, v: int, end: int): seq<Key>
      reads this, trees.Values
      requires Valid() && 0 <= v < |versions| && v !in snapshots
    {
      var c, triples := SegmentOf(v), Base(pattern, v);
      DeliveredFrom(triples, c, vocabulary, pattern, v, offset + end,
                    offset - |triples| + CountRead(StoreAt(v), c, pattern, v))
    }

    /** The loop has one end, and the answer begins there. */
    lemma AnsweredWhere(pattern: Triple, offset: nat, v: int)
      requires Valid() && 0 <= v < |versions| && v !in snapshots
      ensures exists end :: Ends(pattern, offset, v, end) &&
                (forall other :: Ends(pattern, offset, v, other) ==> other == end) &&
                Answered(pattern, offset, v) == From(pattern, offset, v, end)
    {
      hide Valid, SegmentOf, StoreAt, Sorted, MatchesOf, LoopEnd, CountRead, RunsTo, DeliveredFrom, Delivered,
           WholeAnswer;
      WholeIs(pattern, v);
      var s, c, triples := StoreAt(v), SegmentOf(v), Base(pattern, v);
      var end := LoopEnd(s, c, pattern, v, triples, offset, 0);
      forall e ensures RunsTo(s, c, pattern, v, triples, offset, e) <==> e == end {
        LoopIsRun(s, c, pattern, v, triples, offset, e);
      }
      assert Ends(pattern, offset, v, end);
      DeliveredWhere(s, c, pattern, v, triples, offset, end);
    }

    /** That is the right place, in the snapshot's matches and in the additions. */
    ghost predicate Skips(pattern: Triple, offset: nat, v: int)
      reads this, trees.Values
      requires Valid() && 0 <= v < |versions|
    {
      v !in snapshots ==>
        var s, c, triples := StoreAt(v), SegmentOf(v), Base(pattern, v);
        SkipsRight(triples, c, vocabulary, pattern, v, offset, offset + LoopEnd(s, c, pattern, v, triples, offset, 0),
                   offset - |triples| + CountRead(s, c, pattern, v))
    }

    /** The answer can be read to its end: no matching triple enters the chain after the version only. With an offset
        past a stored count, this just concerns the last triple that ever enters. */
    ghost predicate Drains(pattern: Triple, offset: nat, v: int)
      reads this, trees.Values
      requires Valid() && 0 <= v < |versions|
    {
      v !in snapshots ==>
        var c := SegmentOf(v);
        var count, left := StoredFor(pattern, v), offset - |Base(pattern, v)| + CountRead(StoreAt(v), c, pattern, v);
        if count != 0 && count <= left then LastBegun(c, vocabulary, pattern, v)
        else AdditionsBegun(c, vocabulary, pattern, v)
    }

    /** What is delivered if the offset loop stops at the offset itself. */
    ghost function Unmoved(pattern: Triple, offset: nat, v: int): seq<Key>
      reads this, trees.Values
      requires Valid() && 0 <= v < |versions|
    {
      var c, triples := SegmentOf(v), Base(pattern, v);
      DeliveredFrom(triples, c, vocabulary, pattern, v, offset,
                    offset - |triples| + |MatchesOf(Lost(c, v), vocabulary, pattern)|)
    }

    /** The ranks stored for the pattern with the deletions that match it are right at the version. */
    ghost predicate RanksTold(pattern: Triple, v: int)
      reads this, trees.Values
    {
      v !in snapshots ==>
        forall k :: Matches(vocabulary(k), pattern) ==> RankPlace(v, FieldOf(pattern), k) !in MisrankedAt(v)
    }

    /** What a count asks, if no count of additions is stored: that no matching triple enters the chain after the
        version only. */
    ghost predicate Countable(pattern: Triple, v: int)
      reads this, trees.Values
      requires Valid() && 0 <= v < |versions|
    {
      v !in snapshots && StoredFor(pattern, v) == 0 ==> AdditionsBegun(SegmentOf(v), vocabulary, pattern, v)
    }

    /** `get_version_materialized`: the snapshot itself, or a query in the chain behind it. The answer can be read to
        its end exactly if `Drains` says so. */
    method GetVersionMaterialized(pattern: Triple, offset: nat, v: int) returns (r: TripleIterator)
      requires Valid() && 0 <= v < |versions| && IsPattern(pattern) && RanksReadable(pattern, offset, v)
      ensures (r.OfSnapshot? <==> v in snapshots) && Fresh(r)
      ensures r.Valid() && r.Rest() == Answered(pattern, offset, v) && (r.InReach() <==> Drains(pattern, offset, v))
    {
      hide Valid, TreeOk, AdditionsBegun, LastBegun, Answer, Sorted, MatchesOf, IsPattern, SegmentOf, Skip,
           IsPredecessor, MisrankedAt, StoredFor, SnapshotPatchIterator.Valid, SnapshotPatchIterator.Rest,
           SnapshotPatchIterator.InReach, Matches, StoreAt, LoopDefined, LoopEnd, CountRead, SkipsRight, Delivered,
           StoreOpened;
      KeysNotNegative();
      var snapshotId := LatestSnapshot(snapshots.Keys, v);
      var treeId := PatchTreeId(trees.Keys, v);
      FindVersion(v, snapshotId, treeId);
      if snapshotId == v {
        r := OfSnapshot(Skip(Sorted(MatchesOf(snapshots[v], vocabulary, pattern)), offset));
      } else {
        TreeQueries(trees[treeId], v);
        SegmentFound(v, snapshotId, treeId);
        StoreFound(v, snapshotId, treeId);
        var it := QueryChain(trees[treeId], snapshots[snapshotId], pattern, offset, v);
        r := OfChain(it);
        OpenedMeans(it, pattern, offset, v);
      }
    }

    lemma StoreFound(v: int, snapshotId: int, treeId: int)
      requires Valid() && 0 <= v < |versions| && v !in snapshots && FoundAt(v, snapshotId, treeId)
      ensures StoreAt(v) == StoreOf(trees[treeId])
    {
      hide Valid, FoundAt, TreeOk;
      TreeThere(v);
      TreeFound(v, snapshotId, treeId);
    }

    /** The answer at a version is right exactly if the offset loop ends at the right place. */
    lemma AnsweredRight(pattern: Triple, offset: nat, v: int)
      requires Valid() && 0 <= v < |versions|
      ensures Answered(pattern, offset, v) == Skip(WholeAnswer(pattern, v), offset) <==> Skips(pattern, offset, v)
    {
      hide Valid, Queryable, SegmentOf, StoreAt, Answer, Sorted, MatchesOf, Skip, SkipsRight, LoopEnd, CountRead,
           StoredFor, MisrankedOnReturn, WholeAnswer, DeliveredFrom;
      if v !in snapshots {
        QueryableAt(v);
        WholeIs(pattern, v);
        var s, c, triples := StoreAt(v), SegmentOf(v), Base(pattern, v);
        RightIff(s, c, pattern, v, triples, offset, offset + LoopEnd(s, c, pattern, v, triples, offset, 0),
                 offset - |triples| + CountRead(s, c, pattern, v));
      }
    }

    lemma WholeIs(pattern: Triple, v: int)
      requires Valid() && 0 <= v < |versions| && v !in snapshots
      ensures WholeAnswer(pattern, v) == Answer(Base(pattern, v), StoreAt(v), SegmentOf(v), pattern, v)
      ensures StoreAt(v).vocabulary == vocabulary
    {
      hide Valid, SegmentOf, Answer, Sorted, MatchesOf, FoundAt, IsPredecessor, MisrankedAt, StoredFor;
      KeysNotNegative();
      TreeThere(v);
      var i, m := PredecessorOf(snapshots.Keys, v), Floor(trees.Keys, v).value;
      SegmentFound(v, i, m);
      VocabularyOf(m);
    }

    lemma VocabularyOf(m: int)
      requires Valid() && m in trees
      ensures StoreOf(trees[m]).vocabulary == vocabulary
    {
      hide Dictionary, Layout, PatchTree.Valid;
    }

    /** What was opened in a chain is what the version asks for. */
    lemma OpenedMeans(it: SnapshotPatchIterator, pattern: Triple, offset: nat, v: int)
      requires Valid() && 0 <= v < |versions| && v !in snapshots
      requires StoreOpened(it, StoreAt(v), SegmentOf(v), pattern, offset, v)
      ensures it.Rest() == Answered(pattern, offset, v)
      ensures it.InReach(|it.Rest()| + 1) <==> Drains(pattern, offset, v)
    {
      hide Valid, SegmentOf, StoreAt, Sorted, MatchesOf, LoopEnd, CountRead, StoredFor, MisrankedOnReturn, Queryable,
           Delivered, AdditionsBegun, LastBegun, SnapshotPatchIterator.Rest, SnapshotPatchIterator.InReach;
      QueryableAt(v);
    }

    /** The answer, read to its end. */
    method VersionMaterialized(pattern: Triple, offset: nat, v: int) returns (r: seq<Key>)
      requires Valid() && 0 <= v < |versions| && IsPattern(pattern)
      requires RanksReadable(pattern, offset, v) && Drains(pattern, offset, v)
      ensures r == Answered(pattern, offset, v)
      ensures r == Skip(WholeAnswer(pattern, v), offset) <==> Skips(pattern, offset, v)
    {
      hide Valid, RanksReadable, Drains, Answered, Skips, WholeAnswer, Skip, IsPattern, TripleIterator.Valid,
           TripleIterator.Rest, TripleIterator.InReach, SnapshotPatchIterator.Valid, SnapshotPatchIterator.Rest,
           SnapshotPatchIterator.InReach;
      AnsweredRight(pattern, offset, v);
      var answer := GetVersionMaterialized(pattern, offset, v);
      match answer {
        case OfSnapshot(triples) =>
          SnapshotOpened(answer);
          r := triples;
        case OfChain(it) =>
          ChainOpened(answer);
          r := DrainAnswer(it);
      }
    }

    /** Where the ranks are right, the last deletion is told and no rank is hidden, at least from the offset loop, the
        ranks can be read, and the answer is right exactly if no turn of the loop is blocked; otherwise the loop stops
        at the offset. */
    lemma AskableMeans(pattern: Triple, offset: nat, v: int)
      requires Valid() && 0 <= v < |versions| && IsPattern(pattern) && Askable(pattern, offset, v)
      ensures RanksReadable(pattern, offset, v) && (Skips(pattern, offset, v) <==> Shown(pattern, offset, v))
      ensures !Shown(pattern, offset, v) ==> Answered(pattern, offset, v) == Unmoved(pattern, offset, v)
      ensures Drains(pattern, offset, v) <==> DrainsRight(pattern, offset, v)
    {
      hide Valid, Queryable, SegmentOf, StoreAt, Answer, Sorted, MatchesOf, Skip, SkipsRight, LoopEnd, LoopDefined,
           CountRead, StoredFor, MisrankedOnReturn, WholeAnswer, DeliveredFrom, ShownAlong, MisrankedAt, IsPattern,
           IsDefaultTree, LastStillLost, NothingHidden, FieldOf, Matches, Lost, AdditionsBegun, LastBegun;
      if v !in snapshots {
        QueryableAt(v);
        WholeIs(pattern, v);
        SegmentRanks(v);
        AskedIff(StoreAt(v), SegmentOf(v), pattern, v, Base(pattern, v), offset);
        AnsweredRight(pattern, offset, v);
      }
    }

    /** `Drains`, if the deletions are counted rightly. */
    ghost predicate DrainsRight(pattern: Triple, offset: nat, v: int)
      reads this, trees.Values
      requires Valid() && 0 <= v < |versions|
    {
      v !in snapshots ==>
        var c := SegmentOf(v);
        var count := StoredFor(pattern, v);
        var left := offset - |Base(pattern, v)| + |MatchesOf(Lost(c, v), vocabulary, pattern)|;
        if count != 0 && count <= left then LastBegun(c, vocabulary, pattern, v)
        else AdditionsBegun(c, vocabulary, pattern, v)
    }

    /** A tree of the store can be queried at its versions. */
    lemma TreeQueries(tree: PatchTree, v: int)
      requires TreeOk(tree) && tree.minPatchId <= v < tree.minPatchId + |tree.history| < MAX
      ensures Queryable(StoreOf(tree), ChainOf(tree), v) && tree.ReducedOk()
    {
      TreeQueryable(tree, v);
    }

    /** The answer holds each match of the version exactly once, whatever chain the version lies in. */
    lemma AnswerIsContent(pattern: Triple, v: int)
      requires Valid() && 0 <= v < |versions|
      ensures forall k :: k in WholeAnswer(pattern, v) <==> k in MatchesOf(versions[v], vocabulary, pattern)
      ensures |WholeAnswer(pattern, v)| == |MatchesOf(versions[v], vocabulary, pattern)|
    {
      hide Valid, TreeOk, Answer, Sorted, MatchesOf, StoreOf, ChainOf, IsPredecessor;
      KeysNotNegative();
      var i, m := PredecessorOf(snapshots.Keys, v), PredecessorOf(trees.Keys, v);
      FindVersion(v, i, m);
      if i != v { TreeAnswers(trees[m], pattern, v); }
    }

    /** The answer from one tree. */
    lemma TreeAnswers(tree: PatchTree, pattern: Triple, v: int)
      requires TreeOk(tree) && tree.minPatchId <= v < tree.minPatchId + |tree.history| < MAX
      ensures var whole := Answer(Sorted(MatchesOf(tree.snapshot, vocabulary, pattern)), StoreOf(tree), ChainOf(tree),
                                  pattern, v);
        var content := MatchesOf(tree.history[v - tree.minPatchId], vocabulary, pattern);
        |whole| == |content| && forall k :: k in whole <==> k in content
    {
      hide PatchTree.Valid, Queryable, MatchesOf, Answer, Sorted;
      TreeQueries(tree, v);
      AnswerIsVersion(Sorted(MatchesOf(tree.snapshot, vocabulary, pattern)), StoreOf(tree), ChainOf(tree), pattern, v);
    }

    lemma KeysNotNegative()
      requires Valid()
      ensures (forall i :: i in snapshots.Keys ==> 0 <= i) && (forall m :: m in trees.Keys ==> 0 <= m)
      ensures 0 < |versions| && Dictionary(universe, vocabulary)
    {
      hide Dictionary, Layout, ChainAt, TreeOk;
      assert Chains().Keys == trees.Keys;
      IdsNotNegative(snapshots, Chains(), versions);
    }

    /** Through the trees in other orders, if the last once-lost triple of the pattern is lost at the version, the
        deletions up to it are counted. */
    ghost predicate CountsUpTo(pattern: Triple, v: int, r: int)
      reads this, trees.Values
      requires Valid() && 0 <= v < |versions|
    {
      v !in snapshots && !IsDefaultTree(pattern) ==>
        var c := SegmentOf(v);
        forall k :: IsLastOnce(c, vocabulary, pattern, v, k) && k in Lost(c, v) ==>
          r == CountedUpTo(c, vocabulary, pattern, v, k)
    }

    /** The rank of the last deletion told of is right. */
    ghost predicate LastRankTold(pattern: Triple, v: int)
      reads this, trees.Values
      requires Valid() && 0 <= v < |versions|
    {
      v in snapshots || LastRanked(SegmentOf(v), vocabulary, pattern, v)
    }

    /** `get_version_materialized_count`: the snapshot's own count, or that of a query in the chain behind it. */
    method VersionMaterializedCount(pattern: Triple, v: int) returns (r: int)
      requires Valid() && 0 <= v < |versions| && IsPattern(pattern) && Countable(pattern, v)
      ensures CountTold(pattern, v, r)
    {
      hide Valid, TreeOk, AdditionsBegun, MatchesOf, IsPattern, SegmentOf, MisrankedAt, StoredFor, IsPredecessor,
           CountTells;
      KeysNotNegative();
      var snapshotId := LatestSnapshot(snapshots.Keys, v);
      var treeId := PatchTreeId(trees.Keys, v);
      FindVersion(v, snapshotId, treeId);
      if snapshotId == v {
        r := |MatchesOf(snapshots[v], vocabulary, pattern)|;
      } else {
        TreeQueries(trees[treeId], v);
        SegmentFound(v, snapshotId, treeId);
        r := CountChain(trees[treeId], snapshots[snapshotId], pattern, v);
      }
    }

    /** A count of a snapshot is right; one of another version tells that of its chain. */
    ghost predicate CountTold(pattern: Triple, v: int, r: int)
      reads this, trees.Values
      requires Valid() && 0 <= v < |versions|
    {
      if v in snapshots then r == |MatchesOf(versions[v], vocabulary, pattern)|
      else CountTells(r, SegmentOf(v), vocabulary, pattern, v)
    }

    /** So it is right if the rank of the last deletion is and the tree tells this deletion. Through the SPO trees it
        is right exactly if the rank is. */
    lemma CountMeans(pattern: Triple, v: int, r: int)
      requires Valid() && 0 <= v < |versions| && CountTold(pattern, v, r)
      ensures LastRankTold(pattern, v) && LastTold(pattern, v) ==> r == |MatchesOf(versions[v], vocabulary, pattern)|
      ensures IsDefaultTree(pattern) ==>
              (r == |MatchesOf(versions[v], vocabulary, pattern)| <==> LastRankTold(pattern, v))
      ensures LastRankTold(pattern, v) ==> CountsUpTo(pattern, v, r)
    {
      hide Valid, SegmentOf, MatchesOf, LastStillLost, LastRanked, IsLastOnce, Lost, CountedUpTo, IsDefaultTree,
           Content;
      if v !in snapshots { SegmentContent(v); }
    }

    /** If all ranks of the pattern are right, that of the last deletion is. */
    lemma LastOfAll(pattern: Triple, v: int)
      requires Valid() && 0 <= v < |versions| && RanksTold(pattern, v)
      ensures LastRankTold(pattern, v)
    {
      hide Valid, Queryable, SegmentOf, MisrankedAt, FieldOf, Matches, StoredFor, MisrankedOnReturn, LastRanked,
           StoreAt;
      if v !in snapshots {
        QueryableAt(v);
        SegmentRanks(v);
        TrustedLast(StoreAt(v), SegmentOf(v), pattern, v);
      }
    }

    lemma SegmentContent(v: int)
      requires Valid() && 0 <= v < |versions| && v !in snapshots
      ensures Content(SegmentOf(v), v) == versions[v]
    {
      hide Valid, SegmentOf, MisrankedAt, StoredFor, IsPredecessor;
      KeysNotNegative();
      TreeThere(v);
      var i, m := PredecessorOf(snapshots.Keys, v), Floor(trees.Keys, v).value;
      SegmentFound(v, i, m);
    }

    /** The latest version hides nothing, and nothing enters after it. So a query for anything in it can be made and
        read to its end from any offset. */
    lemma LatestReadable(pattern: Triple, offset: nat, v: int)
      requires Valid() && 0 <= v == |versions| - 1
      ensures RanksReadable(pattern, offset, v) && Drains(pattern, offset, v)
    {
      hide Valid, SegmentOf, StoreAt, Queryable, MatchesOf, AdditionsBegun, LastBegun, StoredFor, CountRead,
           LoopDefined, Sorted, Matches, Lost, LostAgain, LocalHidden, MisrankedAt;
      if v !in snapshots {
        var s, c := StoreAt(v), SegmentOf(v);
        SegmentLast(v);
        LatestHidesNothing(c);
        LatestBegun(c, vocabulary, pattern);
        forall k | Met(c, s.vocabulary, pattern, v, k) ensures RankDefined(c, k, v) {}
        MetDefined(s, c, pattern, v, Base(pattern, v), offset, 0);
      }
    }

    /** A query in it for everything, or for any pattern whose ranks are right and whose tree tells the last deletion,
        is right if no turn of the offset loop is blocked, as none is through the SPO trees. */
    lemma LatestAnswerable(pattern: Triple, offset: nat, v: int)
      requires Valid() && 0 <= v == |versions| - 1 && (AllMatching(pattern) || RanksTold(pattern, v)) &&
               IsPattern(pattern)
      ensures LastTold(pattern, v) ==> Askable(pattern, offset, v)
      ensures IsDefaultTree(pattern) ==>
              Askable(pattern, offset, v) && Shown(pattern, offset, v) && Skips(pattern, offset, v)
    {
      hide Valid, ShownAlong, MisrankedAt, StoredFor, SegmentOf, StoreAt, IsPattern, IsDefaultTree, LastStillLost,
           Queryable, NothingHidden, MatchesOf, AdditionsBegun, LastBegun, FieldOf, Matches, MisrankedOnReturn;
      if v !in snapshots {
        var c := SegmentOf(v);
        QueryableAt(v);
        SegmentLast(v);
        SegmentRanks(v);
        LatestHidesNothing(c);
        if IsDefaultTree(pattern) {
          LatestShown(StoreAt(v), c, pattern, Sorted(MatchesOf(c.snapshot, vocabulary, pattern)), offset, 0);
        }
        WholeTrusted(StoreAt(v), c, v);
      }
      if IsDefaultTree(pattern) { AskableMeans(pattern, offset, v); }
    }

    lemma SegmentLast(v: int)
      requires Valid() && 0 <= v == |versions| - 1 && v !in snapshots
      ensures var c := SegmentOf(v); |c.history| > 0 && v == c.min + |c.history| - 1
    {
      hide Valid, TreeOk, SegmentOf;
      KeysNotNegative();
      TreeThere(v);
      SegmentFound(v, PredecessorOf(snapshots.Keys, v), Floor(trees.Keys, v).value);
    }

    method MakeTree(patchId: int, ghost snapshot: set<Key>) returns (tree: PatchTree)
      requires Dictionary(universe, vocabulary) && snapshot <= universe && 0 < patchId < MAX
      ensures fresh(tree) && TreeOk(tree) && tree.minPatchId == patchId && tree.history == [] &&
              tree.snapshot == snapshot
    {
      tree := new PatchTree(patchId, vocabulary, universe, snapshot);
    }
  }

  /** The ranks over all triples are right in every version. */
  lemma WholeTrusted(s: Store, c: Chain, v: int)
    requires Queryable(s, c, v)
    ensures forall k :: RankPlace(v, FieldOf(EVERYTHING), k) !in c.misranked
    ensures forall pattern :: AllMatching(pattern) ==> pattern == EVERYTHING
  {
    hide Represents, CountsTrue, WrongRank, RanksOk, Dictionary;
    forall k ensures RankPlace(v, WHOLE, k) !in c.misranked { assert RankPlace(v, WHOLE, k).field == WHOLE; }
  }

  lemma EverythingAsked()
    ensures IsPattern(EVERYTHING) && AgreesWithSpo(EVERYTHING) && IsDefaultTree(EVERYTHING) && AllMatching(EVERYTHING)
    ensures QueryOrder(EVERYTHING) == SPO
  {
    MergeOrderAgrees(EVERYTHING);
  }

  lemma EverythingMatches(s: set<Key>, vocabulary: Key -> Triple)
    ensures MatchesOf(s, vocabulary, EVERYTHING) == s
  {
    assert forall k :: k in MatchesOf(s, vocabulary, EVERYTHING) <==> k in s;
  }

  lemma SnapshotIsVersion(snapshots: map<int, set<Key>>, chains: map<int, Chain>, versions: seq<set<Key>>, i: int)
    requires Layout(snapshots, chains, versions) && i in snapshots
    ensures 0 <= i < |versions| && snapshots[i] == versions[i]
  {
    hide ChainAt;
  }

  lemma ChainIs(snapshots: map<int, set<Key>>, chains: map<int, Chain>, versions: seq<set<Key>>, m: int)
    requires Layout(snapshots, chains, versions) && m in chains
    ensures ChainAt(m, chains[m], snapshots, versions)
  {
    hide ChainAt;
  }

  lemma ChainInside(snapshots: map<int, set<Key>>, chains: map<int, Chain>, versions: seq<set<Key>>, m: int)
    requires Layout(snapshots, chains, versions) && m in chains
    ensures chains[m].min == m && m + |chains[m].history| <= |versions|
  {
    assert ChainAt(m, chains[m], snapshots, versions);
  }

  /** The chain that takes the next version ends with the last one. */
  lemma LatestOfChain(snapshots: map<int, set<Key>>, chains: map<int, Chain>, versions: seq<set<Key>>, m: int)
    requires Layout(snapshots, chains, versions) && m in chains && m + |chains[m].history| == |versions|
    ensures Latest(chains[m].snapshot, chains[m].history) == versions[|versions| - 1] && chains[m].min == m
  {
    assert ChainAt(m, chains[m], snapshots, versions);
  }

  lemma PatchWithin(previous: set<Key>, patch: seq<PatchElement>, universe: set<Key>)
    requires previous <= universe && forall i :: 0 <= i < |patch| ==> patch[i].key in universe
    ensures ApplyPatch(previous, patch) <= universe
  {
  }

  lemma IdsNotNegative(snapshots: map<int, set<Key>>, chains: map<int, Chain>, versions: seq<set<Key>>)
    requires Layout(snapshots, chains, versions)
    ensures 0 < |versions| && forall i :: i in snapshots.Keys ==> 0 <= i
    ensures forall m :: m in chains.Keys ==> 0 <= m
  {
    hide ChainAt;
    forall m | m in chains.Keys ensures 0 <= m {
      assert ChainAt(m, chains[m], snapshots, versions);
      ChainPositive(m, chains[m], snapshots, versions);
    }
  }

  lemma SnapshotPackable(s: Store, c: Chain, v: int)
    requires Queryable(s, c, v) && AllPackable(c.universe, s.vocabulary)
    ensures AllPackable(c.snapshot, s.vocabulary)
  {
    hide ChainOk, Packable, IsReal;
  }

  lemma NothingLogged(tree: PatchTree)
    requires tree.Valid()
    ensures tree.State() == StoreOf(tree).Nodes()
  {
    hide ChainOk, Dictionary;
  }

  /** The next version keeps in a tree that ranks are wrong on a return only. */
  lemma ReturnsNext(tree: PatchTree, patch: seq<PatchElement>, next: set<Key>)
    requires tree.Valid() && tree.minPatchId + |tree.history| < MAX && MisrankedOnReturn(ChainOf(tree), tree.vocabulary)
    ensures MisrankedOnReturn(Extended(ChainOf(tree), StoreOf(tree), patch, next), tree.vocabulary)
  {
    hide PatchTree.Valid, Queryable, MisrankedOnReturn, Extended;
    if tree.history == [] {
      NothingStoredYet(tree);
    } else {
      TreeQueryable(tree, tree.minPatchId + |tree.history| - 1);
    }
    ReturnsStep(StoreOf(tree), ChainOf(tree), patch, next);
  }

  lemma NothingStoredYet(tree: PatchTree)
    requires tree.Valid() && tree.history == [] && tree.minPatchId < MAX
    ensures tree.deletions == map[] && tree.misranked == {}
  {
    hide Represents, CountsTrue, RanksOk, Dictionary, RankTrue;
    ChainReady(tree.State(), tree.countAdditions, tree.snapshot, tree.history, tree.minPatchId, tree.vocabulary,
               tree.misranked);
    forall r ensures r !in tree.misranked {
      assert !WrongRank(tree.State(), tree.snapshot, tree.history, tree.minPatchId, tree.vocabulary, r);
    }
  }

  lemma ChainPositive(m: int, c: Chain, snapshots: map<int, set<Key>>, versions: seq<set<Key>>)
    requires ChainAt(m, c, snapshots, versions)
    ensures 1 <= m == c.min && |c.history| > 0 && m + |c.history| <= |versions| && c.snapshot == versions[m - 1]
  {
  }

  // ----- materialized versions

  /** What a query at a version returns: the rest of a snapshot's result, or an iterator over a snapshot and its
      chain. */
  datatype TripleIterator = OfSnapshot(triples: seq<Key>) | OfChain(it: SnapshotPatchIterator)
  {
    ghost function Objects(): set<object>
      reads if OfChain? then {it} else {}
    {
      if OfSnapshot? then {}
      else {it} + (if it.deletionIt != null then {it.deletionIt, it.deletionIt.it} else {}) +
           (if it.additionIt != null then {it.additionIt} else {})
    }

    ghost predicate Valid()
      reads if OfChain? then {it} else {}, Objects()
    {
      OfChain? ==> it.Valid()
    }

    /** What is still to be delivered. */
    ghost function Rest(): seq<Key>
      reads if OfChain? then {it} else {}, Objects()
    {
      if OfSnapshot? then triples else it.Rest()
    }

    /** All of it can be delivered. */
    ghost predicate InReach()
      reads if OfChain? then {it} else {}, Objects()
    {
      OfChain? ==> it.InReach(|it.Rest()| + 1)
    }
  }

  twostate predicate Fresh(new r: TripleIterator)
    reads if r.OfChain? then {r.it} else {}, r.Objects()
  {
    r.OfChain? ==>
      fresh(r.it) && r.it.additionIt == null &&
        (r.it.deletionIt != null ==> fresh(r.it.deletionIt) && fresh(r.it.deletionIt.it))
  }

  lemma SnapshotOpened(r: TripleIterator)
    requires r.OfSnapshot?
    ensures r.Rest() == r.triples
  {
  }

  lemma ChainOpened(r: TripleIterator)
    requires r.OfChain?
    ensures r.Rest() == r.it.Rest() && (r.Valid() <==> r.it.Valid())
    ensures r.InReach() <==> r.it.InReach(|r.it.Rest()| + 1)
  {
    hide SnapshotPatchIterator.Valid, SnapshotPatchIterator.Rest, SnapshotPatchIterator.InReach;
  }

  /** Reads an iterator to its end. */
  method DrainAnswer(it: SnapshotPatchIterator) returns (r: seq<Key>)
    requires it.Valid() && it.InReach(|it.Rest()| + 1)
    modifies it
    modifies if it.deletionIt != null then {it.deletionIt.it} else {}
    modifies if it.additionIt != null then {it.additionIt} else {}
    ensures r == old(it.Rest())
  {
    hide *;
    r := [];
    ghost var goal := it.Rest();
    var more := true;
    while more
      invariant it.Valid() && (it.additionIt != old(it.additionIt) ==> it.additionIt == null || fresh(it.additionIt))
      invariant r + it.Rest() == goal
      invariant if more then it.InReach(|it.Rest()| + 1) else it.Rest() == []
      decreases |it.Rest()|, more
    {
      ghost var before, rest := r, it.Rest();
      it.OneInReach(|rest| + 1);
      var triple;
      more, triple := it.Next();
      if more {
        r := r + [triple];
        OneMoreRead(before, rest, triple, it.Rest());
      }
    }
  }

  lemma OneMoreRead(before: seq<Key>, rest: seq<Key>, triple: Key, next: seq<Key>)
    requires rest != [] && triple == rest[0] && next == rest[1..]
    ensures (before + [triple]) + next == before + rest && |next| < |rest|
  {
    assert rest == [triple] + next;
  }

  /** Keys in SPO order are an index of the default trees. */
  lemma SortedIsIndex(stored: set<Key>, universe: set<Key>, vocabulary: Key -> Triple)
    requires Dictionary(universe, vocabulary) && stored <= universe
    ensures IsIndex(Sorted(stored), stored, SPO, vocabulary)
  {
    hide Above;
    var keys := Sorted(stored);
    forall i, j | 0 <= i < j < |keys| ensures Above(SPO, vocabulary(keys[j]), vocabulary(keys[i])) {
      var x, y := keys[i], keys[j];
      assert x in keys && y in keys && x < y;
      assert x in universe && y in universe;
    }
  }

  /** What the query delivers from one chain. */
  ghost predicate StoreOpened(it: SnapshotPatchIterator, s: Store, c: Chain, pattern: Triple, offset: nat, v: int)
    reads it, if it.additionIt != null then {it.additionIt} else {}
  {
    var triples := Sorted(MatchesOf(c.snapshot, s.vocabulary, pattern));
    && it.Rest() == Delivered(s, c, pattern, v, triples, offset)
    && (it.InReach(|it.Rest()| + 1) <==>
        if PastCount(s, pattern, v, offset - |triples| + CountRead(s, c, pattern, v))
        then LastBegun(c, s.vocabulary, pattern, v) else AdditionsBegun(c, s.vocabulary, pattern, v))
  }

  /** A query at a version of a chain: the snapshot's matches come from the snapshot store. */
  method QueryChain(tree: PatchTree, snapshot: set<Key>, pattern: Triple, offset: nat, v: int)
    returns (it: SnapshotPatchIterator)
    requires Queryable(StoreOf(tree), ChainOf(tree), v) && snapshot == tree.snapshot && tree.ReducedOk()
    requires IsPattern(pattern)
    requires LoopDefined(StoreOf(tree), ChainOf(tree), pattern, v,
                         Sorted(MatchesOf(tree.snapshot, tree.vocabulary, pattern)), offset, 0)
    ensures fresh(it) && it.Valid() && it.additionIt == null
    ensures it.deletionIt != null ==> fresh(it.deletionIt) && fresh(it.deletionIt.it)
    ensures StoreOpened(it, StoreOf(tree), ChainOf(tree), pattern, offset, v)
  {
    hide IsPattern, Queryable, LoopDefined, StoreOpened, IsReducedTree, SnapshotPatchIterator.Valid;
    it := QueryStore(StoreOf(tree), ChainOf(tree), tree.reduced, snapshot, pattern, offset, v);
  }

  method QueryStore(s: Store, ghost c: Chain, reduced: map<Key, DeletionData>, snapshot: set<Key>, pattern: Triple,
                    offset: nat, v: int)
    returns (it: SnapshotPatchIterator)
    requires Queryable(s, c, v) && snapshot == c.snapshot && IsReducedTree(reduced, s.deletions) && IsPattern(pattern)
    requires LoopDefined(s, c, pattern, v, Sorted(MatchesOf(snapshot, s.vocabulary, pattern)), offset, 0)
    ensures fresh(it) && it.Valid() && it.additionIt == null
    ensures it.deletionIt != null ==> fresh(it.deletionIt) && fresh(it.deletionIt.it)
    ensures StoreOpened(it, s, c, pattern, offset, v)
  {
    hide *;
    QueryableFacts(s, c, v);
    var order := QueryOrder(pattern);
    var countKeys := IndexOf(s.deletions.Keys, c.universe, order, s.vocabulary);
    var additionKeys := IndexOf(s.additions.Keys, c.universe, order, s.vocabulary);
    SortedIsIndex(s.deletions.Keys, c.universe, s.vocabulary);
    MatchesAreResult(s, c, pattern);
    it := GetVersionMaterialized(s, c, Sorted(s.deletions.Keys), countKeys, additionKeys, reduced,
                                 Sorted(MatchesOf(snapshot, s.vocabulary, pattern)), pattern, offset, v);
    OpenedAs(it, s, c, additionKeys, pattern, offset, v);
  }

  lemma MatchesAreResult(s: Store, c: Chain, pattern: Triple)
    ensures IsSnapshotResult(Sorted(MatchesOf(c.snapshot, s.vocabulary, pattern)), s, c, pattern)
  {
  }

  lemma OpenedAs(it: SnapshotPatchIterator, s: Store, c: Chain, keys: seq<Key>, pattern: Triple, offset: nat, v: int)
    requires Queryable(s, c, v) && IsIndex(keys, s.additions.Keys, QueryOrder(pattern), s.vocabulary)
    requires var triples := Sorted(MatchesOf(c.snapshot, s.vocabulary, pattern));
      && it.Rest() == Delivered(s, c, pattern, v, triples, offset)
      && (it.InReach(|it.Rest()| + 1) <==>
          DrainOpens(s, c, keys, pattern, v, offset - |triples| + CountRead(s, c, pattern, v)))
    ensures StoreOpened(it, s, c, pattern, offset, v)
  {
    hide Queryable, IsIndex, QueryOrder, Delivered, CountRead, Sorted, MatchesOf, PastCount, LastBegun, AdditionsBegun,
         EntersLate, Matches, SnapshotPatchIterator.Rest, SnapshotPatchIterator.InReach;
    LastRecord(s, c, keys, pattern, v);
  }

  method CountChain(tree: PatchTree, snapshot: set<Key>, pattern: Triple, v: int) returns (r: int)
    requires Queryable(StoreOf(tree), ChainOf(tree), v) && snapshot == tree.snapshot && tree.ReducedOk()
    requires IsPattern(pattern) && Counts(StoreOf(tree), ChainOf(tree), pattern, v)
    ensures CountTells(r, ChainOf(tree), tree.vocabulary, pattern, v)
  {
    hide CountTells, IsPattern, MatchesOf, Queryable, Counts, IsReducedTree;
    r := CountStore(StoreOf(tree), ChainOf(tree), tree.reduced, snapshot, pattern, v);
  }

  method CountStore(s: Store, ghost c: Chain, reduced: map<Key, DeletionData>, snapshot: set<Key>, pattern: Triple,
                    v: int)
    returns (r: int)
    requires Queryable(s, c, v) && snapshot == c.snapshot && IsReducedTree(reduced, s.deletions)
    requires IsPattern(pattern) && Counts(s, c, pattern, v)
    ensures CountTells(r, c, s.vocabulary, pattern, v)
  {
    hide IsLastOnce, Lost, Gained, CountedUpTo, Queryable, IsPattern, IsDefaultTree, Counts, IsIndex, MatchesOf,
         IsReducedTree, LastStillLost, LastRanked, Content, QueryOrder, Dictionary, CountRead;
    QueryableFacts(s, c, v);
    var order := QueryOrder(pattern);
    var deletionKeys := IndexOf(s.deletions.Keys, c.universe, order, s.vocabulary);
    var additionKeys := IndexOf(s.additions.Keys, c.universe, order, s.vocabulary);
    r := GetVersionMaterializedCount(s, c, deletionKeys, additionKeys, reduced,
                                     |MatchesOf(snapshot, s.vocabulary, pattern)|, pattern, v);
    CountOfVersion(s, c, pattern, v);
  }
}
