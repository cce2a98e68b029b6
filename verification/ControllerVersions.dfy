/** The version query: every triple with all the versions that hold it, over all chains of the store. */
module ControllerVersions {
  import opened OrderedKeys
  import opened Ranks
  import opened Triples
  import opened Dictionaries
  import opened TreeIndexes
  import opened PatchTrees
  import opened VersionQueries
  import opened VersionAnnotation
  import opened CombinedVersions
  import opened Controllers
  import ControllerDeltas

  /** An annotated list over the given keys, each annotated from its start on. */
  ghost predicate AnnotatedList(items: seq<TripleVersions>, keys: seq<Key>, s: Store, c: Chain, firstVersion: int) {
    && |items| == |keys|
    && forall i :: 0 <= i < |items| ==>
         items[i].key == keys[i] && AnnotatedFrom(items[i], c, StartOf(s, c, firstVersion, keys[i]))
  }

  method DrainVersions(it: PatchTreeTripleVersionsIterator) returns (items: seq<TripleVersions>)
    requires it.Valid()
    modifies it, it.additionIt, it.value.patches, it.value.localChanges
    ensures AnnotatedList(items, old(it.Rest()), it.s, it.c, it.firstVersion)
  {
    hide PatchTreeTripleVersionsIterator.Valid, PatchTreeTripleVersionsIterator.Rest, AnnotatedFrom, StartOf;
    items := [];
    ghost var done: seq<Key> := [];
    var more := true;
    while more
      invariant it.Valid() && AnnotatedList(items, done, it.s, it.c, it.firstVersion)
      invariant if more then old(it.Rest()) == done + it.Rest() else old(it.Rest()) == done
      decreases more, |it.Rest()|
    {
      ghost var rest := it.Rest();
      var t;
      more, t := it.Next();
      if more {
        assert done + rest == (done + [t.key]) + it.Rest();
        items := items + [t];
        done := done + [t.key];
      }
    }
  }

  lemma {:induction false} VersionsOfItem(items: seq<TripleVersions>, cmp: Comparator, universe: set<Key>, i: nat)
    requires Dictionary(universe, cmp.vocabulary) && TriplesSorted(items, cmp, universe) && i < |items|
    ensures VersionsIn(items, items[i].key) == Elements(items[i].versions)
  {
    hide Dictionary, Comparator.Less;
    if i > 0 {
      LessTotal(cmp, universe, items[0].key, items[i].key);
      VersionsOfItem(items[1..], cmp, universe, i - 1);
    }
  }

  /** A list over sorted keys is sorted. */
  lemma ListSorted(items: seq<TripleVersions>, keys: seq<Key>, cmp: Comparator, universe: set<Key>)
    requires |items| == |keys| && (forall i :: 0 <= i < |items| ==> items[i].key == keys[i]) &&
             KeysSorted(keys, cmp, universe)
    ensures TriplesSorted(items, cmp, universe)
  {
    hide Above;
    forall i | 0 <= i < |items| ensures items[i].key in universe {
      var k := keys[i];
      assert k in keys;
    }
    forall i, j | 0 <= i < j < |items| ensures cmp.Less(items[i].key, items[j].key) {
      assert Above(cmp.order, cmp.vocabulary(keys[j]), cmp.vocabulary(keys[i]));
    }
  }

  /** What an annotated list over sorted keys lists. */
  lemma ListTells(items: seq<TripleVersions>, keys: seq<Key>, s: Store, c: Chain, firstVersion: int, cmp: Comparator,
                  universe: set<Key>, k: Key)
    requires AnnotatedList(items, keys, s, c, firstVersion)
    requires Dictionary(universe, cmp.vocabulary) && KeysSorted(keys, cmp, universe)
    ensures TriplesSorted(items, cmp, universe) && VersionsIncrease(items)
    ensures k in keys ==> forall v :: v in VersionsIn(items, k) <==>
              StartOf(s, c, firstVersion, k) <= v <= LastVersion(c) && k in Content(c, v)
    ensures k !in keys ==> VersionsIn(items, k) == {}
  {
    hide StartOf, Content, Dictionary, KeysSorted, TriplesSorted;
    ListSorted(items, keys, cmp, universe);
    if k in keys {
      var i :| 0 <= i < |keys| && keys[i] == k;
      VersionsOfItem(items, cmp, universe, i);
    } else {
      forall i | 0 <= i < |items| ensures items[i].key != k { var x := keys[i]; assert x in keys; }
      VersionsOfNone(items, k);
    }
  }

  // ----- what a list says of the store

  /** A matching triple that a version holds. */
  ghost predicate MatchIn(versions: seq<set<Key>>, vocabulary: Key -> Triple, pattern: Triple, v: int, k: Key) {
    0 <= v < |versions| && k in versions[v] && Matches(vocabulary(k), pattern)
  }

  /** Everything listed is so. */
  ghost predicate Sound(items: seq<TripleVersions>, versions: seq<set<Key>>, universe: set<Key>,
                        vocabulary: Key -> Triple, pattern: Triple) {
    && TriplesSorted(items, OrderOf(pattern, vocabulary), universe) && VersionsIncrease(items) && AllAnnotated(items)
    && forall k, v :: v in VersionsIn(items, k) ==> MatchIn(versions, vocabulary, pattern, v, k)
  }

  /** Everything that is so in the given versions is listed. */
  ghost predicate CompleteFor(items: seq<TripleVersions>, versions: seq<set<Key>>, vocabulary: Key -> Triple,
                              pattern: Triple, first: int, last: int) {
    forall k, v :: first <= v <= last && MatchIn(versions, vocabulary, pattern, v, k) ==> v in VersionsIn(items, k)
  }

  /** The versions of a chain are versions of the store. */
  ghost predicate ViewOf(c: Chain, versions: seq<set<Key>>) {
    && 1 <= c.min && LastVersion(c) < |versions|
    && forall v :: c.min - 1 <= v <= LastVersion(c) ==> Content(c, v) == versions[v]
  }

  /** The last version that a snapshot's annotation accounts for. */
  ghost function SpanEnd(store: Controller, i: int): int
    reads store, store.trees.Values
  {
    if i + 1 in store.trees then i + |store.trees[i + 1].history| else i
  }

  /** The annotation of one chain, or of a snapshot with the chain before it. */
  method AnnotateTree(s: Store, ghost c: Chain, snapshot: set<Key>, pattern: Triple, firstVersion: int)
    returns (items: seq<TripleVersions>)
    requires AnnotationReady(s, c, firstVersion) && IsPattern(pattern)
    requires snapshot == Content(c, firstVersion)
    ensures AnnotatedList(items, AnnotatedKeys(s, c, pattern, firstVersion), s, c, firstVersion)
  {
    hide Queryable, IsPattern, Content, MatchesOf, MatchingAdditions, AnnotatedKeys, IsIndex, AnnotatedList, QueryOrder,
         PatchTreeTripleVersionsIterator.Valid, PatchTreeTripleVersionsIterator.Rest;
    QueryableFacts(s, c, LastVersion(c));
    MatchesKnown(s, c, pattern, firstVersion);
    var order := QueryOrder(pattern);
    var additionKeys := IndexOf(s.additions.Keys, c.universe, order, s.vocabulary);
    var triples := IndexOf(MatchesOf(snapshot, s.vocabulary, pattern), c.universe, order, s.vocabulary);
    var it := AnnotateChain(s, c, additionKeys, triples, pattern, firstVersion);
    items := DrainVersions(it);
  }

  lemma MatchesKnown(s: Store, c: Chain, pattern: Triple, v: int)
    requires Queryable(s, c, LastVersion(c)) && c.min - 1 <= v <= LastVersion(c)
    ensures MatchesOf(Content(c, v), s.vocabulary, pattern) <= c.universe
  {
    hide Queryable, Matches, Content;
    ContentKnown(s, c, v);
  }

  lemma InKeysOf(s: Store, c: Chain, pattern: Triple, firstVersion: int, k: Key)
    requires AnnotationReady(s, c, firstVersion)
    ensures Dictionary(c.universe, s.vocabulary)
    ensures KeysSorted(AnnotatedKeys(s, c, pattern, firstVersion), OrderOf(pattern, s.vocabulary), c.universe)
    ensures k in AnnotatedKeys(s, c, pattern, firstVersion) <==>
            Matches(s.vocabulary(k), pattern) && (k in Content(c, firstVersion) || k in s.additions)
  {
    hide Queryable, Matches, Content, QueryOrder, KeysSorted, Dictionary;
    QueryableFacts(s, c, LastVersion(c));
    MatchesKnown(s, c, pattern, firstVersion);
    var matches := MatchesOf(Content(c, firstVersion), s.vocabulary, pattern);
    ArrangedSorted(matches + MatchingAdditions(s, pattern), OrderOf(pattern, s.vocabulary), c.universe);
  }

  /** A list annotated from a chain is sound. */
  lemma ChainListSound(items: seq<TripleVersions>, s: Store, c: Chain, versions: seq<set<Key>>, pattern: Triple,
                       firstVersion: int)
    requires AnnotationReady(s, c, firstVersion) && ViewOf(c, versions)
    requires AnnotatedList(items, AnnotatedKeys(s, c, pattern, firstVersion), s, c, firstVersion)
    ensures Sound(items, versions, c.universe, s.vocabulary, pattern)
  {
    hide Queryable, Matches, StartOf, AnnotatedList, AnnotatedKeys, Content, KeysSorted, TriplesSorted, Dictionary,
         QueryOrder;
    var keys, cmp := AnnotatedKeys(s, c, pattern, firstVersion), OrderOf(pattern, s.vocabulary);
    InKeysOf(s, c, pattern, firstVersion, 0);
    ListTells(items, keys, s, c, firstVersion, cmp, c.universe, 0);
    forall k, v | v in VersionsIn(items, k) ensures MatchIn(versions, s.vocabulary, pattern, v, k) {
      InKeysOf(s, c, pattern, firstVersion, k);
      ListTells(items, keys, s, c, firstVersion, cmp, c.universe, k);
      StartWithin(s, c, firstVersion, k);
    }
    ItemsAnnotated(items, s, c, pattern, firstVersion);
  }

  lemma ItemsAnnotated(items: seq<TripleVersions>, s: Store, c: Chain, pattern: Triple, firstVersion: int)
    requires AnnotationReady(s, c, firstVersion)
    requires AnnotatedList(items, AnnotatedKeys(s, c, pattern, firstVersion), s, c, firstVersion)
    ensures AllAnnotated(items)
  {
    hide Queryable, StartOf, AnnotatedKeys, Content, KeysSorted, Dictionary, QueryOrder;
    var keys := AnnotatedKeys(s, c, pattern, firstVersion);
    forall i | 0 <= i < |items| ensures items[i].versions != [] {
      var k := keys[i];
      assert k in keys;
      InKeysOf(s, c, pattern, firstVersion, k);
      StartHolds(s, c, firstVersion, k);
      assert StartOf(s, c, firstVersion, k) in items[i].versions;
    }
  }

  /** A delivered triple is there where its annotation starts. */
  lemma StartHolds(s: Store, c: Chain, firstVersion: int, k: Key)
    requires AnnotationReady(s, c, firstVersion) && (k in Content(c, firstVersion) || k in s.additions)
    ensures var start := StartOf(s, c, firstVersion, k); start <= LastVersion(c) && k in Content(c, start)
  {
    hide Queryable, Content;
    if k in s.additions { ThereWhenAdded(s, c, k); }
  }

  lemma StartWithin(s: Store, c: Chain, firstVersion: int, k: Key)
    requires AnnotationReady(s, c, firstVersion)
    ensures c.min - 1 <= StartOf(s, c, firstVersion, k)
  {
    hide Queryable, Content;
    if k in s.additions { AdditionBegins(s, c, k); }
  }

  /** With its own chain, a snapshot's list is complete up to the chain's end. */
  lemma OwnChainComplete(items: seq<TripleVersions>, s: Store, c: Chain, versions: seq<set<Key>>, pattern: Triple)
    requires AnnotationReady(s, c, c.min - 1) && ViewOf(c, versions)
    requires AnnotatedList(items, AnnotatedKeys(s, c, pattern, c.min - 1), s, c, c.min - 1)
    ensures CompleteFor(items, versions, s.vocabulary, pattern, c.min - 1, LastVersion(c))
  {
    hide Queryable, Matches, AnnotatedList, StartOf, AnnotatedKeys, Content, KeysSorted, TriplesSorted, Dictionary,
         QueryOrder;
    forall k, v | c.min - 1 <= v <= LastVersion(c) && MatchIn(versions, s.vocabulary, pattern, v, k)
      ensures v in VersionsIn(items, k) {
      assert k in Content(c, v);
      WholeChainAnnotated(s, c, k);
      InKeysOf(s, c, pattern, c.min - 1, k);
      ListTells(items, AnnotatedKeys(s, c, pattern, c.min - 1), s, c, c.min - 1, OrderOf(pattern, s.vocabulary),
                c.universe, k);
      StartsEarly(s, c, k, v);
    }
  }

  /** A triple is annotated from no later than any version that holds it. */
  lemma StartsEarly(s: Store, c: Chain, k: Key, v: int)
    requires AnnotationReady(s, c, c.min - 1) && c.min - 1 <= v <= LastVersion(c) && k in Content(c, v)
    ensures StartOf(s, c, c.min - 1, k) <= v
  {
    hide Queryable;
    if k !in Content(c, c.min - 1) {
      if k in s.additions {
        AdditionBegins(s, c, k);
        FirstHere(s, c, k, s.additions[k].patches[0].start);
      } else {
        NeverAdded(s, c, k);
      }
    }
  }

  /** With the chain before it, a snapshot's list is complete for the snapshot itself. */
  lemma ChainBeforeComplete(items: seq<TripleVersions>, s: Store, c: Chain, versions: seq<set<Key>>, pattern: Triple)
    requires AnnotationReady(s, c, LastVersion(c)) && ViewOf(c, versions)
    requires AnnotatedList(items, AnnotatedKeys(s, c, pattern, LastVersion(c)), s, c, LastVersion(c))
    ensures CompleteFor(items, versions, s.vocabulary, pattern, LastVersion(c), LastVersion(c))
  {
    hide Queryable, Matches, AnnotatedList, AnnotatedKeys, Content, KeysSorted, TriplesSorted, Dictionary, QueryOrder;
    var last := LastVersion(c);
    forall k | MatchIn(versions, s.vocabulary, pattern, last, k) ensures last in VersionsIn(items, k) {
      assert k in Content(c, last);
      InKeysOf(s, c, pattern, last, k);
      ListTells(items, AnnotatedKeys(s, c, pattern, last), s, c, last, OrderOf(pattern, s.vocabulary), c.universe, k);
    }
  }

  // ----- the whole store

  lemma TreeView(store: Controller, treeId: int)
    requires store.Holds(treeId)
    ensures StoreOf(store.trees[treeId]).vocabulary == store.vocabulary
    ensures ChainOf(store.trees[treeId]).universe == store.universe
    ensures ViewOf(ChainOf(store.trees[treeId]), store.versions)
    ensures Queryable(StoreOf(store.trees[treeId]), ChainOf(store.trees[treeId]),
                      LastVersion(ChainOf(store.trees[treeId])))
  {
    hide PatchTree.Valid;
    var tree := store.trees[treeId];
    store.TreeQueries(tree, treeId + |tree.history| - 1);
  }

  /** Without any tree, each match of the snapshot is annotated with the snapshot's version. */
  method OnlySnapshot(snapshot: set<Key>, i: int, ghost universe: set<Key>, vocabulary: Key -> Triple, pattern: Triple)
    returns (items: seq<TripleVersions>)
    requires Dictionary(universe, vocabulary) && snapshot <= universe
    ensures OneVersion(items, ArrangedMatches(snapshot, universe, vocabulary, pattern), i)
  {
    hide QueryOrder, Matches, Dictionary;
    var triples := IndexOf(MatchesOf(snapshot, vocabulary, pattern), universe, QueryOrder(pattern), vocabulary);
    items := [];
    while |items| < |triples|
      invariant |items| <= |triples| && OneVersion(items, triples[..|items|], i)
    {
      items := items + [TripleVersions(triples[|items|], [i])];
    }
    assert triples[..|items|] == triples;
  }

  /** The matches of a snapshot, in the order of the pattern. */
  ghost function ArrangedMatches(snapshot: set<Key>, universe: set<Key>, vocabulary: Key -> Triple,
                                 pattern: Triple): seq<Key> {
    Arranged(MatchesOf(snapshot, vocabulary, pattern), universe, QueryOrder(pattern), vocabulary)
  }

  ghost predicate OneVersion(items: seq<TripleVersions>, keys: seq<Key>, i: int) {
    |items| == |keys| && forall j :: 0 <= j < |items| ==> items[j] == TripleVersions(keys[j], [i])
  }

  lemma OneVersionTells(items: seq<TripleVersions>, keys: seq<Key>, i: int, cmp: Comparator, universe: set<Key>, k: Key)
    requires OneVersion(items, keys, i) && Dictionary(universe, cmp.vocabulary) && KeysSorted(keys, cmp, universe)
    ensures TriplesSorted(items, cmp, universe) && VersionsIncrease(items) && AllAnnotated(items)
    ensures VersionsIn(items, k) == if k in keys then {i} else {}
  {
    hide Dictionary, KeysSorted, TriplesSorted;
    ListSorted(items, keys, cmp, universe);
    if k in keys {
      var j :| 0 <= j < |keys| && keys[j] == k;
      VersionsOfItem(items, cmp, universe, j);
      assert Elements([i]) == {i};
    } else {
      forall j | 0 <= j < |items| ensures items[j].key != k { var x := keys[j]; assert x in keys; }
      VersionsOfNone(items, k);
    }
  }

  lemma OnlySnapshotTells(items: seq<TripleVersions>, snapshot: set<Key>, i: int, versions: seq<set<Key>>,
                          universe: set<Key>, vocabulary: Key -> Triple, pattern: Triple)
    requires 0 <= i < |versions| && snapshot == versions[i] && Dictionary(universe, vocabulary) && snapshot <= universe
    requires OneVersion(items, ArrangedMatches(snapshot, universe, vocabulary, pattern), i)
    ensures Sound(items, versions, universe, vocabulary, pattern) &&
            CompleteFor(items, versions, vocabulary, pattern, i, i)
  {
    hide Matches, OneVersion, Dictionary, KeysSorted, TriplesSorted, QueryOrder;
    var keys, cmp := ArrangedMatches(snapshot, universe, vocabulary, pattern), OrderOf(pattern, vocabulary);
    ArrangedSorted(MatchesOf(snapshot, vocabulary, pattern), cmp, universe);
    OneVersionTells(items, keys, i, cmp, universe, 0);
    forall k ensures VersionsIn(items, k) == if k in MatchesOf(snapshot, vocabulary, pattern) then {i} else {} {
      OneVersionTells(items, keys, i, cmp, universe, k);
    }
  }

  /** The annotated list of one snapshot: with the chain behind it, or, for a snapshot that no chain follows yet, with
      the chain before it, which the tree lookup then finds. */
  method AnnotateSnapshot(store: Controller, i: int, pattern: Triple) returns (items: seq<TripleVersions>)
    requires store.Valid() && i in store.snapshots && IsPattern(pattern)
    ensures Sound(items, store.versions, store.universe, store.vocabulary, pattern)
    ensures CompleteFor(items, store.versions, store.vocabulary, pattern, i, SpanEnd(store, i))
  {
    hide Controller.Valid, Controller.Holds, IsPattern, Sound, CompleteFor, IsPredecessor, AnnotatedList, Queryable,
         Content, AnnotatedKeys, ArrangedMatches, MatchesOf, MatchingAdditions, ViewOf, SpanEnd, Controller.Chains,
         StoreOf, ChainOf, Dictionary;
    store.KeysNotNegative();
    ControllerDeltas.SnapshotsAre(store, i);
    var treeId := PatchTreeId(store.trees.Keys, i + 1);
    SpanOf(store, i, treeId);
    if treeId < 0 {
      SnapshotKnown(store, i);
      items := OnlySnapshot(store.snapshots[i], i, store.universe, store.vocabulary, pattern);
      OnlySnapshotTells(items, store.snapshots[i], i, store.versions, store.universe, store.vocabulary, pattern);
    } else {
      var tree := store.trees[treeId];
      TreeView(store, treeId);
      items := AnnotateTree(StoreOf(tree), ChainOf(tree), store.snapshots[i], pattern, i);
      AnnotatedTells(items, StoreOf(tree), ChainOf(tree), store.versions, pattern, i, SpanEnd(store, i));
    }
  }

  lemma SnapshotKnown(store: Controller, i: int)
    requires store.Valid() && i in store.snapshots
    ensures Dictionary(store.universe, store.vocabulary) && store.snapshots[i] <= store.universe
  {
    hide Dictionary, Controller.TreesOk, ChainAt;
    SnapshotIsVersion(store.snapshots, store.Chains(), store.versions, i);
  }

  lemma AnnotatedTells(items: seq<TripleVersions>, s: Store, c: Chain, versions: seq<set<Key>>, pattern: Triple,
                       i: int, end: int)
    requires AnnotationReady(s, c, i) && ViewOf(c, versions)
    requires AnnotatedList(items, AnnotatedKeys(s, c, pattern, i), s, c, i)
    requires (i == c.min - 1 && end == LastVersion(c)) || i == end == LastVersion(c)
    ensures Sound(items, versions, c.universe, s.vocabulary, pattern) &&
            CompleteFor(items, versions, s.vocabulary, pattern, i, end)
  {
    hide Queryable, AnnotatedList, Content, AnnotatedKeys, Sound, CompleteFor, ViewOf;
    ChainListSound(items, s, c, versions, pattern, i);
    if i == c.min - 1 {
      OwnChainComplete(items, s, c, versions, pattern);
    } else {
      ChainBeforeComplete(items, s, c, versions, pattern);
    }
  }

  /** Which tree the lookup finds for a snapshot. */
  lemma SpanOf(store: Controller, i: int, treeId: int)
    requires store.Valid() && i in store.snapshots && IsPredecessor(store.trees.Keys, i + 1, treeId)
    ensures treeId < 0 ==> SpanEnd(store, i) == i
    ensures treeId >= 0 ==> store.Holds(treeId) && var c := ChainOf(store.trees[treeId]);
      && c.min == treeId && LastVersion(c) == treeId + |store.trees[treeId].history| - 1
      && Content(c, i) == store.versions[i] == store.snapshots[i]
      && ((i == c.min - 1 && SpanEnd(store, i) == LastVersion(c)) || i == SpanEnd(store, i) == LastVersion(c))
  {
    hide Dictionary, Controller.TreesOk, Controller.TreeOk, ChainAt;
    ControllerDeltas.SnapshotsAre(store, i);
    assert i + 1 in store.trees ==> i + 1 in store.trees.Keys;
    if treeId >= 0 {
      store.TreeHolds(treeId);
      if i + 1 !in store.trees { FollowedUnlessLast(store, i); }
    }
  }

  lemma LastUnfollowed(snapshots: map<int, set<Key>>, chains: map<int, Chain>, versions: seq<set<Key>>, i: int)
    requires Layout(snapshots, chains, versions) && i in snapshots && i + 1 !in chains.Keys
    ensures i == |versions| - 1
  {
    hide ChainAt;
  }

  lemma FollowedUnlessLast(store: Controller, i: int)
    requires store.Valid() && i in store.snapshots && i + 1 !in store.trees
    ensures i == |store.versions| - 1
  {
    hide Dictionary, Controller.TreesOk, Layout;
    assert store.Chains().Keys == store.trees.Keys;
    LastUnfollowed(store.snapshots, store.Chains(), store.versions, i);
  }

  // ----- all snapshots

  /** What the lists of two snapshots say, their merge says. */
  lemma MergeTells(a: seq<TripleVersions>, b: seq<TripleVersions>, versions: seq<set<Key>>, universe: set<Key>,
                   vocabulary: Key -> Triple, pattern: Triple, first: int, last: int)
    requires Dictionary(universe, vocabulary)
    requires Sound(a, versions, universe, vocabulary, pattern) && Sound(b, versions, universe, vocabulary, pattern)
    requires CompleteFor(a, versions, vocabulary, pattern, first, last) ||
             CompleteFor(b, versions, vocabulary, pattern, first, last)
    ensures Sound(Combine(a, b, OrderOf(pattern, vocabulary)), versions, universe, vocabulary, pattern)
    ensures CompleteFor(Combine(a, b, OrderOf(pattern, vocabulary)), versions, vocabulary, pattern, first, last)
  {
    hide MatchIn, Combine, TriplesSorted, Dictionary, QueryOrder;
    CombineUnites(a, b, OrderOf(pattern, vocabulary), universe);
    CombineAnnotated(a, b, OrderOf(pattern, vocabulary));
  }

  lemma NothingSound(versions: seq<set<Key>>, universe: set<Key>, vocabulary: Key -> Triple, pattern: Triple,
                     spans: map<int, int>)
    ensures Sound([], versions, universe, vocabulary, pattern) &&
            CompleteForAll([], versions, vocabulary, pattern, [], spans)
  {
    assert forall k :: VersionsIn([], k) == {};
  }

  /** Every version is accounted for by its latest snapshot. */
  lemma EveryVersionSpanned(store: Controller, v: int) returns (i: int)
    requires store.Valid() && 0 <= v < |store.versions|
    ensures i in store.snapshots && i <= v <= SpanEnd(store, i)
  {
    hide Controller.Valid;
    store.KeysNotNegative();
    i := PredecessorOf(store.snapshots.Keys, v);
    var m := PredecessorOf(store.trees.Keys, v);
    store.FindVersion(v, i, m);
    FoundSpans(store, v, i, m);
  }

  lemma FoundSpans(store: Controller, v: int, i: int, m: int)
    requires store.Valid() && 0 <= v < |store.versions| && store.FoundAt(v, i, m)
    requires IsPredecessor(store.snapshots.Keys, v, i) && IsPredecessor(store.trees.Keys, v, m)
    ensures i in store.snapshots && i <= v <= SpanEnd(store, i)
  {
    hide Controller.TreeOk, Controller.TreesOk, Dictionary, ChainAt;
    VersionFound(store.snapshots, store.Chains(), store.versions, v, i, m);
  }

  /** The list holds exactly the matching triples of each version, each triple once and in the order of the pattern. */
  ghost predicate ListsVersions(items: seq<TripleVersions>, versions: seq<set<Key>>, universe: set<Key>,
                                vocabulary: Key -> Triple, pattern: Triple) {
    && TriplesSorted(items, OrderOf(pattern, vocabulary), universe) && VersionsIncrease(items) && AllAnnotated(items)
    && forall k, v :: v in VersionsIn(items, k) <==> MatchIn(versions, vocabulary, pattern, v, k)
  }

  /** The last version that each snapshot accounts for. */
  ghost function Spans(store: Controller): (r: map<int, int>)
    reads store, store.trees.Values
    ensures r.Keys == store.snapshots.Keys && forall i :: i in r ==> r[i] == SpanEnd(store, i)
  {
    map i | i in store.snapshots :: SpanEnd(store, i)
  }

  /** Complete for all that the given snapshots account for. */
  ghost predicate CompleteForAll(items: seq<TripleVersions>, versions: seq<set<Key>>, vocabulary: Key -> Triple,
                                 pattern: Triple, ids: seq<int>, spans: map<int, int>) {
    forall i :: i in ids && i in spans ==> CompleteFor(items, versions, vocabulary, pattern, i, spans[i])
  }

  lemma MergeNext(a: seq<TripleVersions>, b: seq<TripleVersions>, versions: seq<set<Key>>, universe: set<Key>,
                  vocabulary: Key -> Triple, pattern: Triple, ids: seq<int>, id: int, spans: map<int, int>)
    requires Dictionary(universe, vocabulary)
    requires Sound(a, versions, universe, vocabulary, pattern) && Sound(b, versions, universe, vocabulary, pattern) &&
             id in spans
    requires CompleteForAll(a, versions, vocabulary, pattern, ids, spans)
    requires CompleteFor(b, versions, vocabulary, pattern, id, spans[id])
    ensures Sound(Combine(a, b, OrderOf(pattern, vocabulary)), versions, universe, vocabulary, pattern)
    ensures CompleteForAll(Combine(a, b, OrderOf(pattern, vocabulary)), versions, vocabulary, pattern, ids + [id],
                           spans)
  {
    hide Sound, CompleteFor, Combine, Dictionary;
    MergeTells(a, b, versions, universe, vocabulary, pattern, id, spans[id]);
    forall i | i in ids && i in spans
      ensures CompleteFor(Combine(a, b, OrderOf(pattern, vocabulary)), versions, vocabulary, pattern, i, spans[i]) {
      MergeTells(a, b, versions, universe, vocabulary, pattern, i, spans[i]);
    }
  }

  method AddSnapshot(store: Controller, combined: TripleVersionsIteratorCombined, id: int, pattern: Triple)
    returns (ghost items: seq<TripleVersions>)
    requires store.Valid() && id in store.snapshots && IsPattern(pattern)
    requires combined.cmp == OrderOf(pattern, store.vocabulary)
    modifies combined
    ensures combined.triples == Combine(old(combined.triples), items, combined.cmp)
    ensures Sound(items, store.versions, store.universe, store.vocabulary, pattern)
    ensures CompleteFor(items, store.versions, store.vocabulary, pattern, id, SpanEnd(store, id))
  {
    hide Controller.Valid, IsPattern, Sound, CompleteFor, SpanEnd, Combine;
    var list := AnnotateSnapshot(store, id, pattern);
    var it := new TripleVersionsStream(list);
    combined.AddIterator(it);
    items := list;
  }

  /** `get_version`: the annotations of all snapshots, merged in the order of the pattern. */
  method GetVersion(store: Controller, pattern: Triple, offset: nat)
    returns (r: seq<TripleVersions>, ghost all: seq<TripleVersions>)
    requires store.Valid() && IsPattern(pattern)
    ensures r == if offset > |all| then [] else all[offset..]
    ensures ListsVersions(all, store.versions, store.universe, store.vocabulary, pattern)
  {
    hide *;
    var ids := Sorted(store.snapshots.Keys);
    var triples := CombineSnapshots(store, pattern, ids);
    all := triples;
    AllListed(store, all, pattern, ids);
    r := if offset > |triples| then [] else triples[offset..];
  }

  /** The loop over the snapshots. */
  method CombineSnapshots(store: Controller, pattern: Triple, ids: seq<int>) returns (triples: seq<TripleVersions>)
    requires store.Valid() && IsPattern(pattern) && forall i :: i in ids <==> i in store.snapshots.Keys
    ensures Sound(triples, store.versions, store.universe, store.vocabulary, pattern)
    ensures CompleteForAll(triples, store.versions, store.vocabulary, pattern, ids, Spans(store))
  {
    hide *;
    ghost var versions, spans := store.versions, Spans(store);
    var combined := new TripleVersionsIteratorCombined(OrderOf(pattern, store.vocabulary));
    NothingSound(versions, store.universe, store.vocabulary, pattern, spans);
    store.KeysNotNegative();
    var j := 0;
    assert ids[..j] == [];
    while j < |ids|
      invariant 0 <= j <= |ids| && Sound(combined.triples, versions, store.universe, store.vocabulary, pattern)
      invariant CompleteForAll(combined.triples, versions, store.vocabulary, pattern, ids[..j], spans)
    {
      var id := ids[j];
      assert id in ids;
      ghost var before := combined.triples;
      ghost var items := AddSnapshot(store, combined, id, pattern);
      MergeNext(before, items, versions, store.universe, store.vocabulary, pattern, ids[..j], id, spans);
      assert ids[..j + 1] == ids[..j] + [id];
      j := j + 1;
    }
    assert ids[..j] == ids;
    triples := combined.triples;
  }

  lemma AllListed(store: Controller, items: seq<TripleVersions>, pattern: Triple, ids: seq<int>)
    requires store.Valid() && Sound(items, store.versions, store.universe, store.vocabulary, pattern)
    requires CompleteForAll(items, store.versions, store.vocabulary, pattern, ids, Spans(store))
    requires forall i :: i in ids <==> i in store.snapshots.Keys
    ensures ListsVersions(items, store.versions, store.universe, store.vocabulary, pattern)
  {
    hide Controller.Valid, SpanEnd, MatchIn;
    forall k, v | MatchIn(store.versions, store.vocabulary, pattern, v, k) ensures v in VersionsIn(items, k) {
      MatchWithin(store.versions, store.vocabulary, pattern, v, k);
      var i := EveryVersionSpanned(store, v);
      assert i in store.snapshots.Keys;
      assert CompleteFor(items, store.versions, store.vocabulary, pattern, i, Spans(store)[i]);
    }
  }

  lemma MatchWithin(versions: seq<set<Key>>, vocabulary: Key -> Triple, pattern: Triple, v: int, k: Key)
    requires MatchIn(versions, vocabulary, pattern, v, k)
    ensures 0 <= v < |versions|
  {
  }
}
