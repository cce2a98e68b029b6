/** Delta queries between any two versions, within a chain and across chains. */
module ControllerDeltas {
  import opened OrderedKeys
  import opened Values
  import opened DeletionValues
  import opened Ranks
  import opened Triples
  import opened Dictionaries
  import opened TreeIndexes
  import TreeValues
  import opened PatchTreeIterators
  import opened MergeOrders
  import opened PatchTrees
  import opened VersionQueries
  import opened DeltaStreams
  import opened LaterDeletions
  import opened ReducedDeltas
  import opened DeltaQueries
  import opened DeltaVerdicts
  import opened DeltaOfTriple
  import opened Controllers
  import Intervals

  // ----- reading iterators to their end

  method DrainPatch(it: ForwardPatchIterator) returns (r: seq<TripleDelta>)
    requires it.Valid()
    modifies it.it, it.value, it.value.addition.patches, it.value.addition.localChanges
    modifies it.value.deletion.patches, it.value.deletion.localChanges, it.value.deletion.patchPositions
    ensures r == old(it.Rest())
  {
    hide ForwardPatchIterator.Rest;
    HasFilter(it.it, it.value);
    r := [];
    var more := true;
    while more
      invariant it.Valid() && it.it.filters.patchId.Some?
      invariant if more then old(it.Rest()) == r + it.Rest() else old(it.Rest()) == r
      decreases more, |it.Rest()|
    {
      ghost var rest := it.Rest();
      assert rest != [] ==> rest == [rest[0]] + rest[1..];
      var triple;
      more, triple := it.Next();
      HasFilter(it.it, it.value);
      if more {
        r := r + [triple];
      }
    }
  }

  method DrainDiff(it: ForwardDiffIterator) returns (r: seq<TripleDelta>)
    requires it.Valid()
    modifies it.it, it.value, it.value.addition.patches, it.value.addition.localChanges
    modifies it.value.deletion.patches, it.value.deletion.localChanges, it.value.deletion.patchPositions
    ensures r == old(it.Rest())
  {
    hide ForwardDiffIterator.Rest;
    HasFilter(it.it, it.value);
    r := [];
    var more := true;
    while more
      invariant it.Valid() && it.it.filters.patchId.Some?
      invariant if more then old(it.Rest()) == r + it.Rest() else old(it.Rest()) == r
      decreases more, |it.Rest()|
    {
      ghost var rest := it.Rest();
      assert rest != [] ==> rest == [rest[0]] + rest[1..];
      var triple;
      more, triple := it.Next();
      HasFilter(it.it, it.value);
      if more {
        r := r + [triple];
      }
    }
  }

  lemma HasFilter(it: PatchTreeIterator, value: TreeValues.PatchTreeValue)
    requires Walking(it, value)
    ensures it.filters.patchId.Some?
  {
  }

  method DrainSnapshots(it: SnapshotDiffIterator) returns (r: seq<TripleDelta>)
    requires it.Valid()
    modifies it, it.snapshotIt1, it.snapshotIt2
    ensures r == old(it.Rest())
  {
    hide SnapshotDiffIterator.Rest;
    r := [];
    var more := true;
    while more
      invariant it.Valid()
      invariant if more then old(it.Rest()) == r + it.Rest() else old(it.Rest()) == r
      decreases more, |it.Rest()|
    {
      var triple;
      ghost var rest := it.Rest();
      more, triple := it.Next();
      if more {
        assert r + rest == (r + [triple]) + it.Rest();
        r := r + [triple];
      }
    }
  }

  method DrainMerge(it: MergeDiffIterator) returns (r: seq<TripleDelta>)
    requires it.Valid()
    modifies it, it.it1, it.it2
    ensures r == old(Compose(it.Left(), it.Right(), it.cmp))
  {
    hide Compose;
    r := [];
    var more := true;
    while more
      invariant it.Valid()
      invariant if more then old(Compose(it.Left(), it.Right(), it.cmp)) == r + Compose(it.Left(), it.Right(), it.cmp)
                else old(Compose(it.Left(), it.Right(), it.cmp)) == r
      decreases more, |Compose(it.Left(), it.Right(), it.cmp)|
    {
      ghost var rest := Compose(it.Left(), it.Right(), it.cmp);
      assert rest != [] ==> rest == [rest[0]] + rest[1..];
      var triple;
      more, triple := it.Next();
      if more {
        r := r + [triple];
      }
    }
  }

  method DrainCase2(it: MergeDiffIteratorCase2) returns (r: seq<TripleDelta>)
    requires it.Valid()
    modifies it, it.it1, it.it2
    ensures r == old(Divert(it.Left(), it.Right(), it.cmp))
  {
    hide Divert;
    r := [];
    var more := true;
    while more
      invariant it.Valid()
      invariant if more then old(Divert(it.Left(), it.Right(), it.cmp)) == r + Divert(it.Left(), it.Right(), it.cmp)
                else old(Divert(it.Left(), it.Right(), it.cmp)) == r
      decreases more, |Divert(it.Left(), it.Right(), it.cmp)|
    {
      ghost var rest := Divert(it.Left(), it.Right(), it.cmp);
      assert rest != [] ==> rest == [rest[0]] + rest[1..];
      var triple;
      more, triple := it.Next();
      if more {
        r := r + [triple];
      }
    }
  }

  /** `MergeDiffIterator` over two streams. */
  method Composed(a: seq<TripleDelta>, b: seq<TripleDelta>, cmp: Comparator) returns (r: seq<TripleDelta>)
    ensures r == Compose(a, b, cmp)
  {
    var it1 := new DeltaStream(a);
    var it2 := new DeltaStream(b);
    var it := new MergeDiffIterator(it1, it2, cmp);
    r := DrainMerge(it);
  }

  /** `MergeDiffIteratorCase2` over two streams. */
  method Diverted(a: seq<TripleDelta>, b: seq<TripleDelta>, cmp: Comparator) returns (r: seq<TripleDelta>)
    ensures r == Divert(a, b, cmp)
  {
    var it1 := new DeltaStream(a);
    var it2 := new DeltaStream(b);
    var it := new MergeDiffIteratorCase2(it1, it2, cmp);
    r := DrainCase2(it);
  }

  // ----- within a chain

  /** The change between two versions, for the matches of a pattern and in its order. */
  ghost predicate IsChange(r: seq<TripleDelta>, store: Controller, pattern: Triple, start: int, end: int)
    reads store
  {
    && 0 <= start < |store.versions| && 0 <= end < |store.versions|
    && IsDelta(r, MatchesOf(store.versions[start], store.vocabulary, pattern),
               MatchesOf(store.versions[end], store.vocabulary, pattern), OrderOf(pattern, store.vocabulary),
               store.universe)
  }

  /** The versions behind one up to another, as a chain. */
  ghost function Stretch(store: Controller, first: int, last: int): Chain
    reads store
    requires 0 <= first <= last < |store.versions|
  {
    Chain(store.versions[first], store.versions[first + 1..last + 1], first + 1, store.universe, {})
  }

  /** The order of the pattern and the SPO order agree on neighbours among the matches that go or come between the
      two. */
  ghost predicate InOrder(store: Controller, pattern: Triple, first: int, last: int)
    reads store
    requires 0 <= first <= last < |store.versions|
  {
    WalksAgree(Stretch(store, first, last), store.vocabulary, pattern, last)
  }

  /** What happens in a chain up to a version, its versions tell. */
  lemma StretchOfChain(store: Controller, treeId: int, pattern: Triple, end: int)
    requires store.Holds(treeId) && treeId - 1 <= end < treeId + |store.trees[treeId].history|
    ensures WalksAgree(ChainOf(store.trees[treeId]), store.vocabulary, pattern, end) <==>
            InOrder(store, pattern, treeId - 1, end)
  {
    hide Matches, OrdersAgree, QueryOrder, PatchTree.Valid, Leaves, Enters;
    var c, d := ChainOf(store.trees[treeId]), Stretch(store, treeId - 1, end);
    forall k, u | u <= end ensures Leaves(c, k, u) <==> Leaves(d, k, u) { SameMoves(store, treeId, end, k, u); }
    forall k, u | u <= end ensures Enters(c, k, u) <==> Enters(d, k, u) { SameMoves(store, treeId, end, k, u); }
    assert OnceOut(c, store.vocabulary, pattern, end) == OnceOut(d, store.vocabulary, pattern, end);
    assert OnceIn(c, store.vocabulary, pattern, end) == OnceIn(d, store.vocabulary, pattern, end);
  }

  lemma SameMoves(store: Controller, treeId: int, end: int, k: Key, u: int)
    requires store.Holds(treeId) && treeId - 1 <= end < treeId + |store.trees[treeId].history| && u <= end
    ensures var c, d := ChainOf(store.trees[treeId]), Stretch(store, treeId - 1, end);
      (Leaves(c, k, u) <==> Leaves(d, k, u)) && (Enters(c, k, u) <==> Enters(d, k, u))
  {
    hide PatchTree.Valid;
    var c, d := ChainOf(store.trees[treeId]), Stretch(store, treeId - 1, end);
    if c.min <= u { assert Content(c, u) == Content(d, u) && Content(c, u - 1) == Content(d, u - 1); }
  }

  /** What a walk within a chain tells, as the versions of the store have it: `first` is the chain's snapshot. */
  ghost function InChain(store: Controller, pattern: Triple, first: int, start: int, end: int): seq<TripleDelta>
    reads store
    requires 0 <= first <= end < |store.versions|
  {
    ChangesIn(Stretch(store, first, end), store.vocabulary, pattern, start, end)
  }

  /** The chain of a tree tells no more. */
  lemma ChangesOfChain(store: Controller, treeId: int, pattern: Triple, start: int, end: int)
    requires store.Holds(treeId) && treeId - 1 <= start < end < treeId + |store.trees[treeId].history|
    ensures ChangesIn(ChainOf(store.trees[treeId]), store.vocabulary, pattern, start, end) ==
            InChain(store, pattern, treeId - 1, start, end)
  {
    hide Matches, QueryOrder, PatchTree.Valid, Leaves, Enters, Deltas, SignOf, Merged, IsDefaultTree;
    var c, d := ChainOf(store.trees[treeId]), Stretch(store, treeId - 1, end);
    forall k, u | u <= end ensures Leaves(c, k, u) <==> Leaves(d, k, u) { SameMoves(store, treeId, end, k, u); }
    forall k, u | u <= end ensures Enters(c, k, u) <==> Enters(d, k, u) { SameMoves(store, treeId, end, k, u); }
    assert OnceOut(c, store.vocabulary, pattern, end) == OnceOut(d, store.vocabulary, pattern, end);
    assert OnceIn(c, store.vocabulary, pattern, end) == OnceIn(d, store.vocabulary, pattern, end);
    assert ChainWalk(c, store.vocabulary, pattern, end) == ChainWalk(d, store.vocabulary, pattern, end);
    forall f ensures SignOf(c, pattern, start, end)(f) == SignOf(d, pattern, start, end)(f) {
      SameSign(store, treeId, pattern, start, end, f);
    }
    SameDeltas(ChainWalk(c, store.vocabulary, pattern, end), SignOf(c, pattern, start, end),
               SignOf(d, pattern, start, end));
  }

  lemma SameSign(store: Controller, treeId: int, pattern: Triple, start: int, end: int, f: Found)
    requires store.Holds(treeId) && treeId - 1 <= start < end < treeId + |store.trees[treeId].history|
    ensures var c, d := ChainOf(store.trees[treeId]), Stretch(store, treeId - 1, end);
      SignOf(c, pattern, start, end)(f) == SignOf(d, pattern, start, end)(f)
  {
    hide PatchTree.Valid, Leaves, Enters, IsDefaultTree, Content, GoneUpTo, StayUpTo;
    var c, d, k := ChainOf(store.trees[treeId]), Stretch(store, treeId - 1, end), f.key;
    forall u | u <= end ensures Leaves(c, k, u) <==> Leaves(d, k, u) { SameMoves(store, treeId, end, k, u); }
    forall u | u <= end ensures Enters(c, k, u) <==> Enters(d, k, u) { SameMoves(store, treeId, end, k, u); }
    forall u | c.min <= u <= end ensures Content(c, u) == Content(d, u) { SameContent(store, treeId, end, u); }
    forall u | c.min <= u <= end
      ensures GoneUpTo(c, k, u) == GoneUpTo(d, k, u) && StayUpTo(c, k, u) == StayUpTo(d, k, u) {
      SameStay(c, d, k, u);
    }
  }

  lemma SameContent(store: Controller, treeId: int, end: int, u: int)
    requires store.Holds(treeId) && treeId <= u <= end < treeId + |store.trees[treeId].history|
    ensures Content(ChainOf(store.trees[treeId]), u) == Content(Stretch(store, treeId - 1, end), u)
  {
    hide PatchTree.Valid;
  }

  lemma SameStay(c: Chain, d: Chain, k: Key, v: int)
    requires c.min == d.min && c.snapshot == d.snapshot &&
             forall u :: c.min <= u <= v ==> Content(c, u) == Content(d, u)
    ensures GoneUpTo(c, k, v) == GoneUpTo(d, k, v) && StayUpTo(c, k, v) == StayUpTo(d, k, v)
  {
    hide Content;
    forall u | c.min <= u <= v ensures GoneUpTo(c, k, u) == GoneUpTo(d, k, u) {}
  }

  /** Every matching triple that has moved only once since the snapshot, and differs between the two versions, is told
      exactly once, with its sign; one that does not differ is not told, and no triple without a match is. */
  lemma OnceMovedTold(store: Controller, pattern: Triple, first: int, start: int, end: int, k: Key)
    requires Dictionary(store.universe, store.vocabulary) && IsPattern(pattern) && k in store.universe
    requires 0 <= first <= start < end < |store.versions|
    requires !MovedTwice(Stretch(store, first, end), k, end)
    ensures About(InChain(store, pattern, first, start, end), k) ==
      if !Matches(store.vocabulary(k), pattern) || (k in store.versions[start]) == (k in store.versions[end]) then []
      else [TripleDelta(k, k in store.versions[end])]
  {
    hide Dictionary, Matches, MovedTwice, ChangesIn, About, IsPattern, ChainWalk;
    EachTold(Stretch(store, first, end), store.vocabulary, pattern, start, end, k);
    StretchContent(store, first, end, start);
    StretchContent(store, first, end, end);
  }

  lemma StretchContent(store: Controller, first: int, last: int, v: int)
    requires 0 <= first <= v <= last < |store.versions|
    ensures Content(Stretch(store, first, last), v) == store.versions[v]
  {
  }

  /** For all patterns but a lone predicate they agree. */
  lemma AlwaysInOrder(store: Controller, pattern: Triple, first: int, last: int)
    requires Dictionary(store.universe, store.vocabulary) && 0 <= first <= last < |store.versions| &&
             AgreesWithSpo(pattern)
    ensures InOrder(store, pattern, first, last)
  {
    hide Dictionary, AgreesWithSpo, WalksAgree;
    AlwaysAgree(Stretch(store, first, last), store.vocabulary, pattern, last);
  }

  /** `single_delta_query`: from the chain's snapshot, or from one of its versions. What is told is what the versions
      say, whatever the order. Where this is that of the pattern it is the change, between two versions through the
      trees in other orders exactly if their values tell it. */
  method SingleDelta(store: Controller, treeId: int, pattern: Triple, start: int, end: int)
    returns (r: seq<TripleDelta>)
    requires store.Holds(treeId) && treeId - 1 <= start < end < treeId + |store.trees[treeId].history|
    requires IsPattern(pattern)
    ensures r == InChain(store, pattern, treeId - 1, start, end)
    ensures InOrder(store, pattern, treeId - 1, end) ==>
      (IsChange(r, store, pattern, start, end) <==>
       start == treeId - 1 || IsDefaultTree(pattern) ||
       ChangesTold(ChainOf(store.trees[treeId]), store.vocabulary, pattern, start, end))
  {
    hide Queryable, IsPattern, IsDefaultTree, IsDelta, MatchesOf, PatchTree.Valid, ChangesTold, IsReducedTree, InOrder,
         WalksAgree, QueryOrder, OrderOf, ChangesIn, InChain;
    var tree := store.trees[treeId];
    store.TreeQueries(tree, end);
    ChangesOfChain(store, treeId, pattern, start, end);
    StretchOfChain(store, treeId, pattern, end);
    if start != treeId - 1 {
      r := DeltaBetween(StoreOf(tree), ChainOf(tree), tree.reduced, pattern, start, end);
    } else {
      r := DeltaFromSnapshot(StoreOf(tree), ChainOf(tree), tree.reduced, pattern, end);
    }
  }

  method DeltaFromSnapshot(s: Store, ghost c: Chain, reduced: map<Key, DeletionData>, pattern: Triple, end: int)
    returns (r: seq<TripleDelta>)
    requires Queryable(s, c, end) && IsPattern(pattern) && IsReducedTree(reduced, s.deletions)
    ensures r == PatchOut(Merged(WalkedOut(s, c, pattern, end), WalkedIn(s, c, pattern, end)), s,
                          TreeFor(s, reduced, pattern), end)
    ensures r == ChangesIn(c, s.vocabulary, pattern, c.min - 1, end)
    ensures WalksAgree(c, s.vocabulary, pattern, end) ==> TellsChange(r, s, c, pattern, c.snapshot, Content(c, end))
  {
    hide Queryable, IsPattern, Content, IsIndex, IsReducedTree, QueryOrder, Dictionary, ForwardPatchIterator.Rest,
         WalksAgree, TellsChange, Merged, WalkedOut, WalkedIn, PatchOut, MovedOnce, TreeFor, ChangesIn;
    QueryableFacts(s, c, end);
    PatchIs(s, c, reduced, pattern, end);
    var order := QueryOrder(pattern);
    var deletionKeys := IndexOf(s.deletions.Keys, c.universe, order, s.vocabulary);
    var additionKeys := IndexOf(s.additions.Keys, c.universe, order, s.vocabulary);
    var it := ForwardPatch(s, c, reduced, deletionKeys, additionKeys, pattern, end);
    r := DrainPatch(it);
  }

  method DeltaBetween(s: Store, ghost c: Chain, reduced: map<Key, DeletionData>, pattern: Triple, start: int, end: int)
    returns (r: seq<TripleDelta>)
    requires Queryable(s, c, end) && c.min <= start <= end && IsPattern(pattern) && IsReducedTree(reduced, s.deletions)
    ensures r == ChangesIn(c, s.vocabulary, pattern, start, end)
    ensures WalksAgree(c, s.vocabulary, pattern, end) ==>
      (TellsChange(r, s, c, pattern, Content(c, start), Content(c, end)) <==>
       IsDefaultTree(pattern) || ChangesTold(c, s.vocabulary, pattern, start, end))
  {
    hide Queryable, IsPattern, IsDefaultTree, Content, IsIndex, IsReducedTree, QueryOrder, Dictionary, ChangesTold,
         ForwardDiffIterator.Rest, WalksAgree, TellsChange, Merged, WalkedOut, WalkedIn, DiffOut, TreeFor, ChangesIn;
    QueryableFacts(s, c, end);
    DiffIs(s, c, reduced, pattern, start, end);
    var order := QueryOrder(pattern);
    var deletionKeys := IndexOf(s.deletions.Keys, c.universe, order, s.vocabulary);
    var additionKeys := IndexOf(s.additions.Keys, c.universe, order, s.vocabulary);
    var it := ForwardDiff(s, c, reduced, deletionKeys, additionKeys, pattern, start, end);
    r := DrainDiff(it);
  }

  // ----- between snapshots

  /** How many snapshots a snapshot lies behind another. */
  method Distance(ids: set<int>, first: int, second: int) returns (distance: int)
    requires first in ids && second in ids && first < second
    ensures distance <= 1 <==> forall i :: i in ids ==> i <= first || second <= i
  {
    var sorted := Sorted(ids);
    var a := Intervals.PlaceOf(sorted, first);
    var b := Intervals.PlaceOf(sorted, second);
    distance := b - a;
    PlacesApart(sorted, first, second);
  }

  lemma PlacesApart(sorted: seq<int>, first: int, second: int)
    requires Increasing(sorted) && first in sorted && second in sorted && first < second
    ensures Intervals.PlaceOf(sorted, second) - Intervals.PlaceOf(sorted, first) <= 1 <==>
            forall i :: i in sorted ==> i <= first || second <= i
  {
    var a, b := Intervals.PlaceOf(sorted, first), Intervals.PlaceOf(sorted, second);
    hide Intervals.PlaceOf;
    if b - a <= 1 {
      forall i | i in sorted ensures i <= first || second <= i {
        var j :| 0 <= j < |sorted| && sorted[j] == i;
      }
    } else {
      var i := sorted[a + 1];
      assert i in sorted;
    }
  }

  /** No snapshot lies between the two. */
  ghost predicate Neighbours(ids: set<int>, first: int, second: int) {
    forall i :: i in ids ==> i <= first || second <= i
  }

  /** What is told between two snapshots: what their common chain tells, or the change. */
  ghost predicate MiddleIs(store: Controller, pattern: Triple, first: int, second: int, r: seq<TripleDelta>)
    reads store
    requires 0 <= first <= second < |store.versions|
  {
    if Neighbours(store.snapshots.Keys, first, second) then r == InChain(store, pattern, first, first, second)
    else IsChange(r, store, pattern, first, second)
  }

  /** `AutoSnapshotDiffIterator`: neighbours share a chain, others are compared triple by triple, in the order of the
      pattern. */
  method SnapshotDelta(store: Controller, pattern: Triple, first: int, second: int) returns (r: seq<TripleDelta>)
    requires store.Valid() && first in store.snapshots && second in store.snapshots && first < second
    requires IsPattern(pattern)
    ensures 0 <= first && second < |store.versions| && MiddleIs(store, pattern, first, second, r)
    ensures (Neighbours(store.snapshots.Keys, first, second) ==> InOrder(store, pattern, first, second)) ==>
              IsChange(r, store, pattern, first, second)
  {
    hide Controller.Valid, Controller.Holds, IsPattern, IsDefaultTree, ChangesTold, IsDelta, MatchesOf, IsPredecessor,
         InOrder, QueryOrder, KeysSorted, Dictionary, InChain;
    SnapshotsAre(store, first);
    SnapshotsAre(store, second);
    var distance := Distance(store.snapshots.Keys, first, second);
    if distance <= 1 {
      store.KeysNotNegative();
      var treeId := PatchTreeId(store.trees.Keys, second);
      NeighbourChain(store, first, second, treeId);
      r := SingleDelta(store, treeId, pattern, first, second);
    } else {
      ghost var from, to := MatchesOf(store.snapshots[first], store.vocabulary, pattern),
                            MatchesOf(store.snapshots[second], store.vocabulary, pattern);
      var triples1 := SnapshotMatches(store, first, pattern);
      var triples2 := SnapshotMatches(store, second, pattern);
      var it := new SnapshotDiffIterator(triples1, triples2, OrderOf(pattern, store.vocabulary));
      r := DrainSnapshots(it);
      ListsDivert(triples1, triples2, from, to, OrderOf(pattern, store.vocabulary), store.universe);
    }
  }

  /** The matches of a snapshot, sorted in the order of the pattern. */
  method SnapshotMatches(store: Controller, i: int, pattern: Triple) returns (triples: seq<Key>)
    requires store.Valid() && i in store.snapshots
    ensures Dictionary(store.universe, store.vocabulary)
    ensures KeysSorted(triples, OrderOf(pattern, store.vocabulary), store.universe)
    ensures forall k :: k in triples <==> k in MatchesOf(store.snapshots[i], store.vocabulary, pattern)
  {
    hide Dictionary, Matches, Controller.TreesOk, Layout, QueryOrder;
    SnapshotsAre(store, i);
    triples := IndexOf(MatchesOf(store.snapshots[i], store.vocabulary, pattern), store.universe, QueryOrder(pattern),
                       store.vocabulary);
  }

  lemma SnapshotsAre(store: Controller, i: int)
    requires store.Valid() && i in store.snapshots
    ensures 0 <= i < |store.versions| && store.snapshots[i] == store.versions[i]
  {
    hide Dictionary, ChainAt, Controller.TreesOk;
  }

  /** Between neighbouring snapshots there is one chain, which reaches the second. */
  lemma NeighbourChain(store: Controller, first: int, second: int, treeId: int)
    requires store.Valid() && first in store.snapshots && second in store.snapshots && first < second
    requires forall i :: i in store.snapshots.Keys ==> i <= first || second <= i
    requires IsPredecessor(store.trees.Keys, second, treeId)
    ensures treeId == first + 1 && store.Holds(treeId) && second < treeId + |store.trees[treeId].history|
  {
    hide Dictionary, ChainAt, Controller.TreesOk, Controller.TreeOk;
    assert first + 1 in store.Chains();
    assert first + 1 in store.trees.Keys;
    store.TreeHolds(treeId);
    assert treeId - 1 in store.snapshots.Keys;
    assert treeId + |store.trees[treeId].history| - 1 in store.snapshots.Keys ||
           treeId + |store.trees[treeId].history| == |store.versions|;
  }

  // ----- between any two versions

  /** The pattern is served by the SPO trees, or a snapshot lies at or between the versions, or reduced values tell the
      changes between them. */
  ghost predicate DeltaTold(store: Controller, pattern: Triple, start: int, end: int)
    reads store, store.trees.Values
    requires store.Valid() && 0 <= start < end < |store.versions|
  {
    || IsDefaultTree(pattern)
    || (exists i :: i in store.snapshots && start <= i <= end)
    || ChangesTold(store.SegmentOf(end), store.vocabulary, pattern, start, end)
  }

  /** What is left of a delta from an offset on. */
  function Behind(all: seq<TripleDelta>, offset: int): seq<TripleDelta> {
    if offset <= 0 then all else if offset < |all| then all[offset..] else []
  }

  /** Steps over the first elements, one by one. */
  method Offset(all: seq<TripleDelta>, offset: int) returns (r: seq<TripleDelta>)
    ensures r == Behind(all, offset)
  {
    var passed, left := 0, offset;
    while left > 0 && passed < |all|
      invariant 0 <= passed <= |all| &&
                if offset > 0 then left == offset - passed >= 0 else left == offset && passed == 0
    {
      passed, left := passed + 1, left - 1;
    }
    assert all[0..] == all && |all[|all|..]| == 0;
    r := all[passed..];
  }

  /** Every walk on the way from one version to another comes in the order of the pattern. */
  ghost predicate DeltaInOrder(store: Controller, pattern: Triple, start: int, end: int)
    reads store, store.trees.Values
    requires store.Valid() && 0 <= start < end < |store.versions|
  {
    store.SnapshotsInside();
    var ids := store.snapshots.Keys;
    var first, second := PredecessorOf(ids, start), PredecessorOf(ids, end);
    && 0 <= first && 0 <= second
    && if first == second then InOrder(store, pattern, first, end)
       else
         && InOrder(store, pattern, first, start) && InOrder(store, pattern, second, end)
         && (first <= second && Neighbours(ids, first, second) ==> InOrder(store, pattern, first, second))
  }

  /** For all patterns but a lone predicate they do. */
  lemma DeltaAlwaysInOrder(store: Controller, pattern: Triple, start: int, end: int)
    requires store.Valid() && 0 <= start < end < |store.versions| && AgreesWithSpo(pattern)
    ensures DeltaInOrder(store, pattern, start, end)
  {
    hide Dictionary, Controller.TreesOk, Layout, InOrder, AgreesWithSpo, Neighbours;
    store.SnapshotsInside();
    var ids := store.snapshots.Keys;
    var first, second := PredecessorOf(ids, start), PredecessorOf(ids, end);
    AlwaysInOrder(store, pattern, first, start);
    AlwaysInOrder(store, pattern, first, end);
    AlwaysInOrder(store, pattern, second, end);
    if first <= second { AlwaysInOrder(store, pattern, first, second); }
  }

  /** What is told between versions behind different snapshots: the way back from the first version is taken off what
      is told between the snapshots, and the way on to the last version is put behind it. */
  ghost function Pieced(store: Controller, pattern: Triple, first: int, start: int, second: int, end: int,
                        middle: seq<TripleDelta>): seq<TripleDelta>
    reads store
    requires 0 <= first <= start < |store.versions| && 0 <= second <= end < |store.versions|
  {
    var cmp := OrderOf(pattern, store.vocabulary);
    var onwards := if start == first then middle else Divert(InChain(store, pattern, first, first, start), middle, cmp);
    if end == second then onwards else Compose(onwards, InChain(store, pattern, second, second, end), cmp)
  }

  /** The whole answer, as the versions and the snapshots determine it: within a chain one walk, or else the pieces. */
  ghost predicate AnswerIs(store: Controller, pattern: Triple, start: int, end: int, r: seq<TripleDelta>)
    reads store, store.trees.Values
    requires store.Valid() && 0 <= start < end < |store.versions|
  {
    store.SnapshotsInside();
    var ids := store.snapshots.Keys;
    var first, second := PredecessorOf(ids, start), PredecessorOf(ids, end);
    && 0 <= first && 0 <= second
    && if first == second then r == InChain(store, pattern, first, start, end)
       else first <= second && exists middle ::
         MiddleIs(store, pattern, first, second, middle) &&
           r == Pieced(store, pattern, first, start, second, end, middle)
  }

  /** `get_delta_materialized`: the change between two versions, with any number of snapshots between them, from an
      offset on. For all patterns but a lone predicate every walk comes in order. */
  method GetDeltaMaterialized(store: Controller, pattern: Triple, offset: int, start: int, end: int)
    returns (r: seq<TripleDelta>, ghost all: seq<TripleDelta>)
    requires store.Valid() && 0 <= start < |store.versions| && 0 <= end < |store.versions| && IsPattern(pattern)
    ensures r == Behind(all, offset)
    ensures if end <= start then all == []
            else AnswerIs(store, pattern, start, end, all) &&
                 (DeltaInOrder(store, pattern, start, end) ==>
                    (IsChange(all, store, pattern, start, end) <==> DeltaTold(store, pattern, start, end)))
  {
    hide *;
    var whole := WholeDelta(store, pattern, start, end);
    all := whole;
    r := Offset(whole, offset);
  }

  method WholeDelta(store: Controller, pattern: Triple, start: int, end: int) returns (r: seq<TripleDelta>)
    requires store.Valid() && 0 <= start < |store.versions| && 0 <= end < |store.versions| && IsPattern(pattern)
    ensures if end <= start then r == []
            else AnswerIs(store, pattern, start, end, r) &&
                 (DeltaInOrder(store, pattern, start, end) ==>
                    (IsChange(r, store, pattern, start, end) <==> DeltaTold(store, pattern, start, end)))
  {
    hide Controller.Valid, Controller.Holds, Controller.FoundAt, IsPattern, IsDefaultTree, IsPredecessor, IsChange,
         ChangesTold, Controller.SegmentOf, InOrder, Neighbours, InChain, AnswerIs, MiddleIs, Pieced;
    if end <= start {
      return [];
    }
    store.KeysNotNegative();
    var snapshotStart := LatestSnapshot(store.snapshots.Keys, start);
    var snapshotEnd := LatestSnapshot(store.snapshots.Keys, end);
    var treeStart := PatchTreeId(store.trees.Keys, start);
    var treeEnd := PatchTreeId(store.trees.Keys, end);
    Located(store, start, snapshotStart, treeStart);
    Located(store, end, snapshotEnd, treeEnd);
    SnapshotBetween(store, start, end, snapshotStart, snapshotEnd);
    if DeltaInOrder(store, pattern, start, end) {
      InOrderMeans(store, pattern, start, end, snapshotStart, snapshotEnd);
    }
    if snapshotStart == snapshotEnd {
      SameChain(store, start, end, snapshotStart, treeEnd);
      r := SingleDelta(store, treeEnd, pattern, start, end);
      WithinIs(store, pattern, start, end, snapshotStart, r);
      return;
    }
    SnapshotsApart(store, start, end, snapshotStart, snapshotEnd);
    ghost var middle;
    r, middle := DeltaAcross(store, pattern, start, end, snapshotStart, snapshotEnd, treeStart, treeEnd);
    AcrossIs(store, pattern, start, end, snapshotStart, snapshotEnd, middle, r);
  }

  /** Back to the snapshot of the first version, on to that of the second, and forth to it. */
  method DeltaAcross(store: Controller, pattern: Triple, start: int, end: int, snapshotStart: int, snapshotEnd: int,
                     treeStart: int, treeEnd: int)
    returns (r: seq<TripleDelta>, ghost middle: seq<TripleDelta>)
    requires store.Valid() && 0 <= start < end < |store.versions| && IsPattern(pattern)
    requires snapshotStart in store.snapshots && snapshotEnd in store.snapshots && 0 <= snapshotStart < snapshotEnd
    requires snapshotStart <= start && snapshotEnd <= end
    requires start != snapshotStart ==> InTree(store, start, snapshotStart, treeStart)
    requires end != snapshotEnd ==> InTree(store, end, snapshotEnd, treeEnd)
    ensures MiddleIs(store, pattern, snapshotStart, snapshotEnd, middle)
    ensures r == Pieced(store, pattern, snapshotStart, start, snapshotEnd, end, middle)
    ensures InOrder(store, pattern, snapshotStart, start) && InOrder(store, pattern, snapshotEnd, end) &&
            (Neighbours(store.snapshots.Keys, snapshotStart, snapshotEnd) ==>
               InOrder(store, pattern, snapshotStart, snapshotEnd)) ==>
              IsChange(r, store, pattern, start, end)
  {
    hide Controller.Valid, Controller.TreeOk, IsPattern, IsDefaultTree, IsChange, ChangesTold, InOrder, Neighbours,
         Dictionary, InChain, MiddleIs, Compose, Divert, QueryOrder;
    KnownToStore(store);
    r := SnapshotDelta(store, pattern, snapshotStart, snapshotEnd);
    middle := r;
    if start != snapshotStart {
      var back := SingleDelta(store, treeStart, pattern, snapshotStart, start);
      r := Around(store, pattern, snapshotStart, start, snapshotEnd, back, r);
    }
    if end != snapshotEnd {
      var forth := SingleDelta(store, treeEnd, pattern, snapshotEnd, end);
      r := Onwards(store, pattern, start, snapshotEnd, end, r, forth);
    }
  }

  lemma WithinIs(store: Controller, pattern: Triple, start: int, end: int, first: int, r: seq<TripleDelta>)
    requires store.Valid() && 0 <= start < end < |store.versions| && 0 <= first <= start
    requires IsPredecessor(store.snapshots.Keys, start, first) && IsPredecessor(store.snapshots.Keys, end, first)
    requires r == InChain(store, pattern, first, start, end)
    ensures AnswerIs(store, pattern, start, end, r)
  {
    hide Controller.Valid, InChain, MiddleIs, Pieced;
  }

  lemma AcrossIs(store: Controller, pattern: Triple, start: int, end: int, first: int, second: int,
                 middle: seq<TripleDelta>, r: seq<TripleDelta>)
    requires store.Valid() && 0 <= start < end < |store.versions|
    requires 0 <= first <= start && first < second <= end
    requires IsPredecessor(store.snapshots.Keys, start, first) && IsPredecessor(store.snapshots.Keys, end, second)
    requires MiddleIs(store, pattern, first, second, middle)
    requires r == Pieced(store, pattern, first, start, second, end, middle)
    ensures AnswerIs(store, pattern, start, end, r)
  {
    hide Controller.Valid, InChain, MiddleIs, Pieced;
  }

  lemma KnownToStore(store: Controller)
    requires store.Valid()
    ensures Dictionary(store.universe, store.vocabulary)
  {
    hide Dictionary, Controller.TreesOk, Layout;
  }

  /** The version lies in the tree behind its latest snapshot. */
  ghost predicate InTree(store: Controller, v: int, snapshotId: int, treeId: int)
    reads store, store.trees.Values
  {
    treeId == snapshotId + 1 && store.Holds(treeId) && treeId <= v < treeId + |store.trees[treeId].history|
  }

  lemma InOrderMeans(store: Controller, pattern: Triple, start: int, end: int, first: int, second: int)
    requires store.Valid() && 0 <= start < end < |store.versions| && DeltaInOrder(store, pattern, start, end)
    requires 0 <= first <= start && 0 <= second <= end
    requires IsPredecessor(store.snapshots.Keys, start, first) && IsPredecessor(store.snapshots.Keys, end, second)
    ensures if first == second then InOrder(store, pattern, first, end)
            else
              && InOrder(store, pattern, first, start) && InOrder(store, pattern, second, end)
              && (first <= second && Neighbours(store.snapshots.Keys, first, second) ==>
                    InOrder(store, pattern, first, second))
  {
    hide Controller.Valid, InOrder, Neighbours;
  }

  /** A snapshot lies at or between two versions exactly if they have different latest ones, or the first is one. */
  lemma SnapshotBetween(store: Controller, start: int, end: int, snapshotStart: int, snapshotEnd: int)
    requires 0 <= start < end && snapshotStart in store.snapshots && snapshotEnd in store.snapshots
    requires 0 <= snapshotStart && 0 <= snapshotEnd
    requires IsPredecessor(store.snapshots.Keys, start, snapshotStart) &&
             IsPredecessor(store.snapshots.Keys, end, snapshotEnd)
    ensures (exists i :: i in store.snapshots && start <= i <= end) <==>
            snapshotStart != snapshotEnd || snapshotStart == start
  {
    assert forall i :: i in store.snapshots <==> i in store.snapshots.Keys;
    if snapshotStart != snapshotEnd { assert start <= snapshotEnd <= end; }
  }

  method Around(store: Controller, pattern: Triple, from: int, start: int, end: int,
                back: seq<TripleDelta>, forth: seq<TripleDelta>)
    returns (r: seq<TripleDelta>)
    requires Dictionary(store.universe, store.vocabulary)
    ensures r == Divert(back, forth, OrderOf(pattern, store.vocabulary))
    ensures IsChange(back, store, pattern, from, start) && IsChange(forth, store, pattern, from, end) ==>
              IsChange(r, store, pattern, start, end)
  {
    hide IsDelta, MatchesOf, Dictionary, QueryOrder;
    r := Diverted(back, forth, OrderOf(pattern, store.vocabulary));
    if IsChange(back, store, pattern, from, start) && IsChange(forth, store, pattern, from, end) {
      DivertIsDelta(back, forth, MatchesOf(store.versions[from], store.vocabulary, pattern),
                    MatchesOf(store.versions[start], store.vocabulary, pattern),
                    MatchesOf(store.versions[end], store.vocabulary, pattern), OrderOf(pattern, store.vocabulary),
                    store.universe);
    }
  }

  method Onwards(store: Controller, pattern: Triple, start: int, middle: int, end: int, a: seq<TripleDelta>,
                 b: seq<TripleDelta>)
    returns (r: seq<TripleDelta>)
    requires Dictionary(store.universe, store.vocabulary)
    ensures r == Compose(a, b, OrderOf(pattern, store.vocabulary))
    ensures IsChange(a, store, pattern, start, middle) && IsChange(b, store, pattern, middle, end) ==>
              IsChange(r, store, pattern, start, end)
  {
    hide IsDelta, MatchesOf, Dictionary, QueryOrder;
    r := Composed(a, b, OrderOf(pattern, store.vocabulary));
    if IsChange(a, store, pattern, start, middle) && IsChange(b, store, pattern, middle, end) {
      ComposeIsDelta(a, b, MatchesOf(store.versions[start], store.vocabulary, pattern),
                     MatchesOf(store.versions[middle], store.vocabulary, pattern),
                     MatchesOf(store.versions[end], store.vocabulary, pattern), OrderOf(pattern, store.vocabulary),
                     store.universe);
    }
  }

  /** A version that is no snapshot lies in the tree behind its latest snapshot. */
  lemma Located(store: Controller, v: int, snapshotId: int, treeId: int)
    requires store.Valid() && 0 <= v < |store.versions|
    requires IsPredecessor(store.snapshots.Keys, v, snapshotId) && IsPredecessor(store.trees.Keys, v, treeId)
    ensures 0 <= snapshotId <= v && snapshotId in store.snapshots
    ensures snapshotId != v ==> InTree(store, v, snapshotId, treeId)
  {
    hide Dictionary, Layout, ChainAt, Controller.TreesOk, Controller.TreeOk;
    assert store.Chains().Keys == store.trees.Keys;
    VersionFound(store.snapshots, store.Chains(), store.versions, v, snapshotId, treeId);
    if snapshotId != v { store.TreeHolds(treeId); }
  }

  lemma SameChain(store: Controller, start: int, end: int, snapshotId: int, treeId: int)
    requires store.Valid() && 0 <= start < end < |store.versions|
    requires IsPredecessor(store.snapshots.Keys, start, snapshotId) &&
             IsPredecessor(store.snapshots.Keys, end, snapshotId)
    requires IsPredecessor(store.trees.Keys, end, treeId)
    ensures snapshotId == treeId - 1 <= start && store.Holds(treeId) && end < treeId + |store.trees[treeId].history|
    ensures ChainOf(store.trees[treeId]) == store.SegmentOf(end)
  {
    hide Controller.Valid, Controller.Holds, IsPredecessor, Controller.SegmentOf, ChainOf;
    Located(store, start, snapshotId, PredecessorNear(store, start));
    Located(store, end, snapshotId, treeId);
    store.FindVersion(end, snapshotId, treeId);
    store.SegmentFound(end, snapshotId, treeId);
  }

  ghost function PredecessorNear(store: Controller, v: int): (r: int)
    reads store, store.trees.Values
    requires store.Valid()
    ensures IsPredecessor(store.trees.Keys, v, r)
  {
    store.KeysNotNegative();
    PredecessorOf(store.trees.Keys, v)
  }

  /** Different latest snapshots lie in the order of their versions. */
  lemma SnapshotsApart(store: Controller, start: int, end: int, snapshotStart: int, snapshotEnd: int)
    requires start < end && snapshotStart != snapshotEnd && 0 <= snapshotStart && 0 <= snapshotEnd
    requires IsPredecessor(store.snapshots.Keys, start, snapshotStart) &&
             IsPredecessor(store.snapshots.Keys, end, snapshotEnd)
    ensures snapshotStart < snapshotEnd
  {
  }
}
