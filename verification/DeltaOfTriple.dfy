/** What a delta within a chain tells of each single triple, in whatever order the two walks are merged. */
module DeltaOfTriple {
  import opened OrderedKeys
  import opened Intervals
  import opened Values
  import opened DeletionValues
  import opened ChainHistory
  import opened Ingestion
  import opened Ranks
  import opened Triples
  import opened Dictionaries
  import opened TreeIndexes
  import opened TreeValues
  import opened PatchTreeIterators
  import opened MergeOrders
  import opened VersionQueries
  import opened DeltaStreams
  import opened LaterDeletions
  import opened DeltaVerdicts
  import opened ReducedDeltas
  import opened DeltaQueries

  // ----- the deliveries of one triple

  /** The changes of a stream that are of triple `k`. */
  ghost function About(out: seq<TripleDelta>, k: Key): seq<TripleDelta> {
    if out == [] then [] else (if out[0].key == k then [out[0]] else []) + About(out[1..], k)
  }

  /** The deliveries of a merged walk that are of triple `k`. */
  ghost function DeliveriesOf(m: seq<Found>, k: Key): seq<Found> {
    if m == [] then [] else (if m[0].key == k then [m[0]] else []) + DeliveriesOf(m[1..], k)
  }

  /** What is told of a triple comes from its deliveries. */
  lemma {:induction false} AboutDeltas(m: seq<Found>, verdict: Found -> Option<bool>, k: Key)
    ensures About(Deltas(m, verdict), k) == Deltas(DeliveriesOf(m, k), verdict)
  {
    if m != [] {
      var rest := m[1..];
      AboutDeltas(rest, verdict, k);
      DeltasOf(m, verdict);
      var later := DeliveriesOf(rest, k);
      if m[0].key == k {
        assert DeliveriesOf(m, k) == [m[0]] + later && ([m[0]] + later)[1..] == later;
        DeltasOf([m[0]] + later, verdict);
      } else {
        var none: seq<Found> := [];
        assert none + later == later;
      }
      if verdict(m[0]).Some? {
        AboutHead(TripleDelta(m[0].key, verdict(m[0]).value), Deltas(rest, verdict), k);
      }
    }
  }

  lemma AboutHead(d: TripleDelta, rest: seq<TripleDelta>, k: Key)
    ensures About([d] + rest, k) == if d.key == k then [d] + About(rest, k) else About(rest, k)
  {
    assert ([d] + rest)[1..] == rest;
    var none: seq<TripleDelta> := [];
    assert none + About(rest, k) == About(rest, k);
  }

  lemma DeliveriesHead(m: seq<Found>, k: Key)
    requires m != []
    ensures DeliveriesOf(m, k) ==
            if m[0].key == k then [m[0]] + DeliveriesOf(m[1..], k) else DeliveriesOf(m[1..], k)
  {
    var none: seq<Found> := [];
    assert none + DeliveriesOf(m[1..], k) == DeliveriesOf(m[1..], k);
  }

  /** The triple is delivered twice, once from each tree. */
  ghost predicate Apart(m: seq<Found>, k: Key) {
    |DeliveriesOf(m, k)| > 1
  }

  ghost predicate NoneTwice(keys: seq<Key>) {
    forall i, j :: 0 <= i < j < |keys| ==> keys[i] != keys[j]
  }

  /** What a merge may deliver of a triple: nothing, one walk's, both together, or both apart in either order. */
  ghost predicate Delivers(m: seq<Found>, k: Key, deleted: bool, added: bool) {
    if Apart(m, k) then
      && deleted && added
      && (DeliveriesOf(m, k) == [Found(k, true, false), Found(k, false, true)] ||
          DeliveriesOf(m, k) == [Found(k, false, true), Found(k, true, false)])
    else DeliveriesOf(m, k) == if deleted || added then [Found(k, deleted, added)] else []
  }

  lemma TailDiffers(keys: seq<Key>)
    requires NoneTwice(keys) && keys != []
    ensures NoneTwice(keys[1..]) && keys[0] !in keys[1..] && forall k :: k in keys <==> k == keys[0] || k in keys[1..]
  {
    assert keys == [keys[0]] + keys[1..];
  }

  /** Each walk's delivery of a triple comes exactly once. */
  lemma {:induction false} MergeDelivers(dels: seq<Key>, adds: seq<Key>, k: Key)
    requires NoneTwice(dels) && NoneTwice(adds)
    ensures Delivers(Merged(dels, adds), k, k in dels, k in adds)
    decreases |dels| + |adds|
  {
    hide Merged, NoneTwice;
    var m := Merged(dels, adds);
    MergedHead(dels, adds);
    if m != [] {
      if dels != [] { TailDiffers(dels); }
      if adds != [] { TailDiffers(adds); }
      MergeDelivers(RestOf(dels, m[0].deleted), RestOf(adds, m[0].added), k);
      DeliveriesHead(m, k);
    }
  }

  /** A merge in the order of the walks delivers none apart. */
  lemma {:induction false} TogetherInOrder(dels: seq<Key>, adds: seq<Key>, cmp: Comparator, universe: set<Key>, k: Key)
    requires Dictionary(universe, cmp.vocabulary) && KeysSorted(dels, cmp, universe) && KeysSorted(adds, cmp, universe)
    ensures !Apart(MergedBy(dels, adds, cmp), k)
    ensures DeliveriesOf(MergedBy(dels, adds, cmp), k) != [] ==> k in dels || k in adds
    decreases |dels| + |adds|
  {
    hide Dictionary, Comparator.Less, KeysSorted, MergedBy, Below;
    if dels == [] && adds == [] {
      assert MergedBy(dels, adds, cmp) == [] by { NothingMerged(cmp); }
    } else {
      MergedRest(dels, adds, cmp, universe);
      var m := MergedBy(dels, adds, cmp);
      var f := m[0];
      var restDels, restAdds := RestOf(dels, f.deleted), RestOf(adds, f.added);
      TogetherInOrder(restDels, restAdds, cmp, universe, k);
      DeliveriesHead(m, k);
      if f.key == k {
        LessTotal(cmp, universe, k, k);
        NotAbove(k, restDels, restAdds, cmp);
      }
    }
  }

  lemma NothingMerged(cmp: Comparator)
    ensures MergedBy([], [], cmp) == []
  {
  }

  lemma NotAbove(k: Key, dels: seq<Key>, adds: seq<Key>, cmp: Comparator)
    requires Below(k, dels, adds, cmp) && !cmp.Less(k, k)
    ensures k !in dels && k !in adds
  {
  }

  lemma SortedOnce(keys: seq<Key>, cmp: Comparator, universe: set<Key>)
    requires Dictionary(universe, cmp.vocabulary) && KeysSorted(keys, cmp, universe)
    ensures NoneTwice(keys)
  {
    hide Dictionary, Above;
    forall i, j | 0 <= i < j < |keys| ensures keys[i] != keys[j] {
      LessTotal(cmp, universe, keys[i], keys[j]);
    }
  }

  /** A delivery is among those of its triple. */
  lemma {:induction false} AmongDeliveries(m: seq<Found>, f: Found)
    requires f in m
    ensures f in DeliveriesOf(m, f.key)
  {
    DeliveriesHead(m, f.key);
    if f != m[0] { AmongDeliveries(m[1..], f); }
  }

  lemma {:induction false} SameDeltas(m: seq<Found>, verdict: Found -> Option<bool>, sign: Found -> Option<bool>)
    requires forall f :: f in m ==> verdict(f) == sign(f)
    ensures Deltas(m, verdict) == Deltas(m, sign)
  {
    if m != [] {
      assert m[0] in m;
      SameDeltas(m[1..], verdict, sign);
    }
  }

  // ----- the walk, as the versions of a chain tell it

  /** The matching triples that have gone out by a version, and those that have come in, each in the order of the
      pattern, merged by the SPO comparator. */
  ghost function ChainWalk(c: Chain, vocabulary: Key -> Triple, pattern: Triple, v: int): seq<Found> {
    Merged(Arranged(OnceOut(c, vocabulary, pattern, v), c.universe, QueryOrder(pattern), vocabulary),
           Arranged(OnceIn(c, vocabulary, pattern, v), c.universe, QueryOrder(pattern), vocabulary))
  }

  /** Each is delivered exactly once, and none apart unless the pattern is a lone predicate. */
  lemma WalkDelivers(c: Chain, vocabulary: Key -> Triple, pattern: Triple, v: int, k: Key)
    requires Dictionary(c.universe, vocabulary) && IsPattern(pattern)
    ensures Delivers(ChainWalk(c, vocabulary, pattern, v), k, k in OnceOut(c, vocabulary, pattern, v),
                     k in OnceIn(c, vocabulary, pattern, v))
    ensures AgreesWithSpo(pattern) || IsDefaultTree(pattern) ==> !Apart(ChainWalk(c, vocabulary, pattern, v), k)
  {
    hide Dictionary, KeysSorted, QueryOrder, Merged, MergedBy, AgreesWithSpo, Delivers, Apart, OnceOut, OnceIn,
         OrdersAgree, NoneTwice;
    var cmp := OrderOf(pattern, vocabulary);
    var out, came := OnceOut(c, vocabulary, pattern, v), OnceIn(c, vocabulary, pattern, v);
    InUniverseOnce(c, vocabulary, pattern, v);
    ArrangedSorted(out, cmp, c.universe);
    ArrangedSorted(came, cmp, c.universe);
    var dels, adds := Arranged(out, c.universe, QueryOrder(pattern), vocabulary),
                      Arranged(came, c.universe, QueryOrder(pattern), vocabulary);
    SortedOnce(dels, cmp, c.universe);
    SortedOnce(adds, cmp, c.universe);
    MergeDelivers(dels, adds, k);
    MergeOrderAgrees(pattern);
    if AgreesWithSpo(pattern) {
      AlwaysAgree(c, vocabulary, pattern, v);
      assert Elements(dels) == out && Elements(adds) == came;
      MergesAlike(dels, adds, cmp, c.universe);
      TogetherInOrder(dels, adds, cmp, c.universe, k);
    }
  }

  lemma InUniverseOnce(c: Chain, vocabulary: Key -> Triple, pattern: Triple, v: int)
    ensures OnceOut(c, vocabulary, pattern, v) <= c.universe && OnceIn(c, vocabulary, pattern, v) <= c.universe
  {
    hide Matches, Leaves, Enters;
  }

  /** A version holds the triple since it came in. */
  ghost predicate HeldAt(c: Chain, k: Key, u: int) {
    k in Content(c, u) && exists w :: w <= u && Enters(c, k, w)
  }

  /** It has gone out by a version. */
  ghost predicate OutBy(c: Chain, k: Key, u: int) {
    exists w :: w <= u && Leaves(c, k, w)
  }

  /** What is told of a delivery from the snapshot on: of both trees together the change; of a deletion alone that the
      triple is gone, if the snapshot has it; of an addition alone that it is there, if the snapshot lacks it. */
  ghost function SignSince(c: Chain, v: int): Found -> Option<bool> {
    (f: Found) =>
      var here, now := f.key in c.snapshot, f.key in Content(c, v);
      if f.deleted && f.added then if here == now then None else Some(now)
      else if f.deleted then if here then Some(false) else None
      else if !here && now then Some(true) else None
  }

  /** What is told of one between two versions. Of a deletion alone, that the triple is gone, if it went out for the
      first time between them; of an addition alone, whether the last version holds it since it came in, if just one of
      the two does; of both together the change, or what reduced values see of it. */
  ghost function SignBetween(c: Chain, start: int, end: int, full: bool): Found -> Option<bool> {
    (f: Found) =>
      var k := f.key;
      if f.deleted && f.added then
        if full then if (k in Content(c, start)) == (k in Content(c, end)) then None else Some(k in Content(c, end))
        else if SeenPresent(c, k, start) == SeenPresent(c, k, end) then None else Some(HeldAt(c, k, end))
      else if f.deleted then if OutBy(c, k, start) == OutBy(c, k, end) then None else Some(false)
      else if HeldAt(c, k, start) == HeldAt(c, k, end) then None else Some(HeldAt(c, k, end))
  }

  ghost function SignOf(c: Chain, pattern: Triple, start: int, end: int): Found -> Option<bool> {
    if start < c.min then SignSince(c, end) else SignBetween(c, start, end, IsDefaultTree(pattern))
  }

  /** The answer within a chain from the snapshot, or from one of its versions, to a version. */
  ghost function ChangesIn(c: Chain, vocabulary: Key -> Triple, pattern: Triple, start: int, end: int): seq<TripleDelta>
  {
    Deltas(ChainWalk(c, vocabulary, pattern, end), SignOf(c, pattern, start, end))
  }

  lemma WalksAlike(s: Store, c: Chain, pattern: Triple, v: int)
    requires Queryable(s, c, v)
    ensures Merged(WalkedOut(s, c, pattern, v), WalkedIn(s, c, pattern, v)) == ChainWalk(c, s.vocabulary, pattern, v)
  {
    hide Queryable, OnceOut, OnceIn, WalkedDeletions, WalkedAdditions, QueryOrder, Merged, Arranged;
    WalkedHistory(s, c, pattern, v);
  }

  /** What the two trees have of a delivery: all there is, or, through reduced values only, one half. */
  lemma DeliveryOf(s: Store, c: Chain, pattern: Triple, v: int, f: Found)
    requires Queryable(s, c, v) && IsPattern(pattern) && f in ChainWalk(c, s.vocabulary, pattern, v)
    ensures (f.deleted ==> DeletedBy(s, f.key, v)) && (f.added ==> AddedBy(s, f.key, v)) && (f.deleted || f.added)
    ensures f == At(s, f.key, DeletedBy(s, f.key, v), AddedBy(s, f.key, v)) ||
            (!IsDefaultTree(pattern) && DeletedBy(s, f.key, v) && AddedBy(s, f.key, v))
  {
    hide Queryable, Dictionary, Matches, DeletedBy, AddedBy, ChainWalk, IsPattern, IsDefaultTree, DeliveriesOf, Leaves,
         Enters, AgreesWithSpo;
    var k := f.key;
    QueryableFacts(s, c, v);
    WalkDelivers(c, s.vocabulary, pattern, v, k);
    WalkedHistory(s, c, pattern, v);
    assert k in OnceOut(c, s.vocabulary, pattern, v) <==> k in WalkedDeletions(s, pattern, v);
    assert k in OnceIn(c, s.vocabulary, pattern, v) <==> k in WalkedAdditions(s, pattern, v);
    AmongDeliveries(ChainWalk(c, s.vocabulary, pattern, v), f);
    WalkedSince(s, c, v, k);
    InMatching(s, pattern, v, k);
  }

  lemma InMatching(s: Store, pattern: Triple, v: int, k: Key)
    ensures Matches(s.vocabulary(k), pattern) && DeletedBy(s, k, v) <==> k in WalkedDeletions(s, pattern, v)
    ensures Matches(s.vocabulary(k), pattern) && AddedBy(s, k, v) <==> k in WalkedAdditions(s, pattern, v)
  {
    hide Matches;
  }

  // ----- from the snapshot

  /** The walk from the snapshot tells what the versions of the chain say, in the order of the merge. */
  lemma PatchIs(s: Store, c: Chain, reduced: map<Key, DeletionData>, pattern: Triple, v: int)
    requires Queryable(s, c, v) && IsPattern(pattern) && IsReducedTree(reduced, s.deletions)
    ensures PatchOut(Merged(WalkedOut(s, c, pattern, v), WalkedIn(s, c, pattern, v)), s, TreeFor(s, reduced, pattern),
                     v) == ChangesIn(c, s.vocabulary, pattern, c.min - 1, v)
  {
    hide Queryable, PatchVerdict, LocalFound, IsReducedTree, WithoutLocal, Deltas, DeletedBy, AddedBy, ChainWalk,
         IsPattern, IsDefaultTree, Dropping, SignSince, WalkedOut, WalkedIn, Merged;
    var limit, dels, m := s.maxPatchId + 1, TreeFor(s, reduced, pattern), ChainWalk(c, s.vocabulary, pattern, v);
    var told := PatchVerdict(dels, s.additions, v, limit);
    var verdict := Dropping(true, told, dels, s.additions, v, limit);
    WalksAlike(s, c, pattern, v);
    DroppedFirst(m, true, told, dels, s.additions, v, limit);
    forall f | f in m ensures verdict(f) == SignSince(c, v)(f) {
      DeliveryOf(s, c, pattern, v, f);
      if f == At(s, f.key, DeletedBy(s, f.key, v), AddedBy(s, f.key, v)) {
        ServedPatch(s, c, dels, f.key, v);
        OnceIsChange(s, c, f.key, v);
      } else if f.deleted {
        DeletedApart(s, c, reduced, f.key, v);
        assert f == Found(f.key, true, false);
        HalfSince(c, f.key, v);
      } else {
        AddedApart(s, c, dels, f.key, v);
        assert f == Found(f.key, false, true);
        HalfSince(c, f.key, v);
      }
    }
    SameDeltas(m, verdict, SignSince(c, v));
  }

  lemma HalfSince(c: Chain, k: Key, v: int)
    ensures SignSince(c, v)(Found(k, true, false)) == if k in c.snapshot then Some(false) else None
    ensures SignSince(c, v)(Found(k, false, true)) ==
            if k !in c.snapshot && k in Content(c, v) then Some(true) else None
  {
    hide Content;
  }

  /** A triple that is in one of the trees only has changed as this tree says. */
  lemma OnceIsChange(s: Store, c: Chain, k: Key, v: int)
    requires Queryable(s, c, v) && (DeletedBy(s, k, v) || AddedBy(s, k, v))
    ensures SignSince(c, v)(At(s, k, DeletedBy(s, k, v), AddedBy(s, k, v))) ==
            if (k in c.snapshot) == (k in Content(c, v)) then None else Some(k in Content(c, v))
  {
    hide Queryable, Content, Untouched, Born;
    if DeletedBy(s, k, v) != AddedBy(s, k, v) {
      BirthOrder(s, c, k, v);
      MovedHasChanged(s, c, v, k);
    }
  }

  // ----- between two versions

  lemma EarlierVersion(s: Store, c: Chain, v: int, u: int)
    requires Queryable(s, c, v) && c.min <= u <= v
    ensures Queryable(s, c, u)
  {
    hide ChainOk, Dictionary;
  }

  /** The additions list a version exactly if it holds the triple since it came in. */
  lemma ListedIsHeld(s: Store, c: Chain, k: Key, v: int, u: int)
    requires Queryable(s, c, v) && c.min <= u <= v && AddedBy(s, k, v)
    ensures PlaceOf(Ids(s.additions[k].patches, MAX, s.maxPatchId + 1), u) >= 0 <==> HeldAt(c, k, u)
  {
    hide Queryable, Ids, PlaceOf, Content, Untouched, Born, Enters, Leaves;
    EarlierVersion(s, c, v, u);
    WalkedSince(s, c, u, k);
    ListedContent(s, c, k, v, u);
    BirthOrder(s, c, k, u);
    ListedContent(s, c, k, u, u);
  }

  /** Delivered alone, an addition is told if and only if just one of the two versions lists it. */
  lemma AddedBetween(s: Store, c: Chain, dels: map<Key, DeletionData>, k: Key, start: int, end: int, full: bool)
    requires Queryable(s, c, end) && c.min <= start <= end && AddedBy(s, k, end)
    ensures DiffVerdict(dels, s.additions, start, end, s.maxPatchId + 1)(Found(k, false, true)) ==
            SignBetween(c, start, end, full)(Found(k, false, true))
  {
    hide Queryable, Ids, PlaceOf, Content, Enters, Leaves, HeldAt, OutBy, SeenPresent;
    ListedIsHeld(s, c, k, end, start);
    ListedIsHeld(s, c, k, end, end);
    PlacesNotBelow(s, k, start);
    PlacesNotBelow(s, k, end);
    assert k in s.additions;
  }

  /** Delivered alone, a deletion is told through reduced values if and only if the triple goes out for the first time
      between the two versions. */
  lemma DeletedBetween(s: Store, c: Chain, reduced: map<Key, DeletionData>, k: Key, start: int, end: int, full: bool)
    requires Queryable(s, c, end) && c.min <= start <= end && IsReducedTree(reduced, s.deletions)
    requires DeletedBy(s, k, end)
    ensures DiffVerdict(reduced, s.additions, start, end, s.maxPatchId + 1)(Found(k, true, false)) ==
            SignBetween(c, start, end, full)(Found(k, true, false))
  {
    hide Queryable, Ids, Overrun, PlaceOf, Content, Enters, Leaves, OutBy, Readable, AdditionReadable, HeldAt,
         SeenPresent;
    WentOut(s, c, k, end, start);
    WentOut(s, c, k, end, end);
    WithinChain(s, c, end);
    LastIsLatest(s, c, end);
    FullView(s, c, end, k);
    FirstStart(s, c, end, k);
    var first, limit := s.deletions[k].patches[0].start, s.maxPatchId + 1;
    OpenRunPlace(first, limit, start);
    OpenRunPlace(first, limit, end);
    assert reduced[k].patches == [Interval(first, MAX)];
    var f := Found(k, true, false);
    assert DeletedIds(f, reduced, limit) == Some(Ids([Interval(first, MAX)], MAX, limit));
    assert AddedIds(f, s.additions, limit) == None;
  }

  lemma WentOut(s: Store, c: Chain, k: Key, v: int, u: int)
    requires Queryable(s, c, v) && c.min <= u <= v && k in s.deletions && s.deletions[k].patches != []
    ensures s.deletions[k].patches[0].start <= u <==> OutBy(c, k, u)
  {
    hide Queryable, Leaves, Enters;
    EarlierVersion(s, c, v, u);
    WalkedSince(s, c, u, k);
  }

  /** A triple delivered from both trees together, through reduced values. */
  lemma ReducedTold(s: Store, c: Chain, reduced: map<Key, DeletionData>, k: Key, start: int, end: int)
    requires Queryable(s, c, end) && c.min <= start <= end && IsReducedTree(reduced, s.deletions)
    requires DeletedBy(s, k, end) && AddedBy(s, k, end)
    ensures DiffVerdict(reduced, s.additions, start, end, s.maxPatchId + 1)(Found(k, true, true)) ==
            SignBetween(c, start, end, false)(Found(k, true, true))
  {
    hide Queryable, Ids, PlaceOf, Content, FirstDeleted, PresentIn, SeenPresent, IsReducedTree, Enters, Leaves, HeldAt;
    ReducedPresent(s, c, reduced, k, end, start);
    ReducedPresent(s, c, reduced, k, end, end);
    ListedIsHeld(s, c, k, end, end);
  }

  /** A triple through full values. */
  lemma FullTold(s: Store, c: Chain, k: Key, start: int, end: int)
    requires Queryable(s, c, end) && c.min <= start <= end && (DeletedBy(s, k, end) || AddedBy(s, k, end))
    ensures var f := At(s, k, DeletedBy(s, k, end), AddedBy(s, k, end));
      DiffVerdict(s.deletions, s.additions, start, end, s.maxPatchId + 1)(f) == SignBetween(c, start, end, true)(f)
  {
    hide Queryable, Content, DiffVerdict, DeletedBy, AddedBy, HeldAt, SeenPresent, Untouched, Born, Leaves, Enters;
    DiffVerdictRight(s, c, k, start, end);
    if DeletedBy(s, k, end) != AddedBy(s, k, end) {
      BirthOrder(s, c, k, end);
      WithinChain(s, c, end);
      WalkedSince(s, c, end, k);
      OnlyOneWay(c, k, start, end);
      OnlyOneWay(c, k, end, end);
    }
  }

  lemma {:induction false} MovedSince(c: Chain, k: Key, first: int, last: int)
    requires c.min - 1 <= first <= last < c.min + |c.history|
    ensures k in Content(c, first) && k !in Content(c, last) ==> exists w :: first < w <= last && Leaves(c, k, w)
    ensures k !in Content(c, first) && k in Content(c, last) ==> exists w :: first < w <= last && Enters(c, k, w)
    decreases last - first
  {
    hide Content;
    if first < last {
      MovedSince(c, k, first, last - 1);
      assert (k in Content(c, last - 1)) != (k in Content(c, last)) ==> Leaves(c, k, last) || Enters(c, k, last);
    }
  }

  /** A triple that never comes in by a version is there until it goes out; one that never goes out is there since it
      came in, unless the snapshot has it. */
  lemma OnlyOneWay(c: Chain, k: Key, u: int, end: int)
    requires c.min <= u <= end < c.min + |c.history|
    ensures (forall w :: w <= end ==> !Enters(c, k, w)) ==>
            !HeldAt(c, k, u) && (k in Content(c, u) <==> k in c.snapshot && !OutBy(c, k, u))
    ensures (forall w :: w <= end ==> !Leaves(c, k, w)) ==>
            !OutBy(c, k, u) && (k in Content(c, u) <==> k in c.snapshot || HeldAt(c, k, u))
  {
    hide Content;
    assert Content(c, c.min - 1) == c.snapshot by { BeforeChain(c); }
    MovedSince(c, k, c.min - 1, u);
    forall w | c.min <= w <= u
      ensures Leaves(c, k, w) && k in Content(c, u) ==> exists x :: w < x <= u && Enters(c, k, x)
      ensures Enters(c, k, w) && k !in Content(c, u) ==> exists x :: w < x <= u && Leaves(c, k, x) {
      MovedSince(c, k, w, u);
    }
  }

  lemma BeforeChain(c: Chain)
    ensures Content(c, c.min - 1) == c.snapshot
  {
  }

  /** The walk between two versions tells what the versions of the chain say, in the order of the merge. */
  lemma DiffIs(s: Store, c: Chain, reduced: map<Key, DeletionData>, pattern: Triple, start: int, end: int)
    requires Queryable(s, c, end) && c.min <= start <= end && IsPattern(pattern)
    requires IsReducedTree(reduced, s.deletions)
    ensures DiffOut(Merged(WalkedOut(s, c, pattern, end), WalkedIn(s, c, pattern, end)), s,
                    TreeFor(s, reduced, pattern), start, end) == ChangesIn(c, s.vocabulary, pattern, start, end)
  {
    hide Queryable, DiffVerdict, IsReducedTree, DiffOut, Deltas, DeletedBy, AddedBy, ChainWalk, IsPattern,
         IsDefaultTree, SignBetween, WalkedOut, WalkedIn, Merged;
    var limit, dels, m := s.maxPatchId + 1, TreeFor(s, reduced, pattern), ChainWalk(c, s.vocabulary, pattern, end);
    var verdict, sign := DiffVerdict(dels, s.additions, start, end, limit),
                         SignBetween(c, start, end, IsDefaultTree(pattern));
    WalksAlike(s, c, pattern, end);
    DiffOutIs(m, s, dels, start, end);
    forall f | f in m ensures verdict(f) == sign(f) {
      DeliveryOf(s, c, pattern, end, f);
      if IsDefaultTree(pattern) {
        FullTold(s, c, f.key, start, end);
      } else if f.deleted && f.added {
        ReducedTold(s, c, reduced, f.key, start, end);
      } else if f.deleted {
        DeletedBetween(s, c, reduced, f.key, start, end, false);
        assert f == Found(f.key, true, false);
      } else {
        AddedBetween(s, c, dels, f.key, start, end, false);
        assert f == Found(f.key, false, true);
      }
    }
    SameDeltas(m, verdict, sign);
  }

  // ----- each triple

  function Told(k: Key, sign: Option<bool>): seq<TripleDelta> {
    if sign.Some? then [TripleDelta(k, sign.value)] else []
  }

  lemma OneTold(f: Found, verdict: Found -> Option<bool>)
    ensures Deltas([f], verdict) == Told(f.key, verdict(f))
  {
    DeltasOf([f], verdict);
    NoDeltas(verdict);
  }

  lemma TwoTold(f: Found, g: Found, verdict: Found -> Option<bool>)
    ensures Deltas([f, g], verdict) == Told(f.key, verdict(f)) + Told(g.key, verdict(g))
  {
    DeltasOf([f, g], verdict);
    assert [f, g][1..] == [g];
    OneTold(g, verdict);
  }

  /** The change of the content between two versions, or since the snapshot. */
  ghost function ChangeBetween(c: Chain, k: Key, start: int, end: int): seq<TripleDelta> {
    if (k in Content(c, start)) == (k in Content(c, end)) then [] else [TripleDelta(k, k in Content(c, end))]
  }

  /** The triple has both gone out by a version and come in. */
  ghost predicate MovedTwice(c: Chain, k: Key, v: int) {
    (exists w :: w <= v && Leaves(c, k, w)) && exists w :: w <= v && Enters(c, k, w)
  }

  /** Every matching triple that has moved only once, out or in, is told exactly once, with its sign, if it has changed,
      and not at all otherwise. What has moved twice is told as one if it is delivered together, and by halves if it is
      delivered apart, which takes a lone predicate. No other triple is told. */
  lemma EachTold(c: Chain, vocabulary: Key -> Triple, pattern: Triple, start: int, end: int, k: Key)
    requires Dictionary(c.universe, vocabulary) && IsPattern(pattern) && k in c.universe
    requires c.min - 1 <= start < end < c.min + |c.history|
    ensures var about, m, sign := About(ChangesIn(c, vocabulary, pattern, start, end), k),
                                  ChainWalk(c, vocabulary, pattern, end), SignOf(c, pattern, start, end);
      if !Matches(vocabulary(k), pattern) then about == []
      else if !MovedTwice(c, k, end) then about == ChangeBetween(c, k, start, end)
      else if !Apart(m, k) then about == Told(k, sign(Found(k, true, true)))
      else
        var gone, held := Told(k, sign(Found(k, true, false))), Told(k, sign(Found(k, false, true)));
        !AgreesWithSpo(pattern) && about == if DeliveriesOf(m, k)[0].deleted then gone + held else held + gone
  {
    hide Dictionary, Content, Deltas, Matches, ChainWalk, IsPattern, IsDefaultTree, DeliveriesOf, About, AgreesWithSpo,
         Leaves, Enters, SignOf;
    var m, sign := ChainWalk(c, vocabulary, pattern, end), SignOf(c, pattern, start, end);
    AboutDeltas(m, sign, k);
    WalkDelivers(c, vocabulary, pattern, end, k);
    NoDeltas(sign);
    var out, came := k in OnceOut(c, vocabulary, pattern, end), k in OnceIn(c, vocabulary, pattern, end);
    if Apart(m, k) {
      TwoTold(Found(k, true, false), Found(k, false, true), sign);
      TwoTold(Found(k, false, true), Found(k, true, false), sign);
    } else if out || came {
      OneTold(Found(k, out, came), sign);
      if !(out && came) { OnceTold(c, pattern, k, start, end, out); }
    } else {
      if Matches(vocabulary(k), pattern) { Unmoved(c, k, start, end); }
    }
  }

  /** What has moved in one way only. */
  lemma OnceTold(c: Chain, pattern: Triple, k: Key, start: int, end: int, out: bool)
    requires c.min - 1 <= start < end < c.min + |c.history|
    requires if out then OutBy(c, k, end) && forall w :: w <= end ==> !Enters(c, k, w)
             else (exists w :: w <= end && Enters(c, k, w)) && forall w :: w <= end ==> !Leaves(c, k, w)
    ensures Told(k, SignOf(c, pattern, start, end)(Found(k, out, !out))) == ChangeBetween(c, k, start, end)
  {
    hide Content, IsDefaultTree, SeenPresent;
    BeforeChain(c);
    OnlyOneWay(c, k, end, end);
    if start >= c.min { OnlyOneWay(c, k, start, end); }
    var w :| w <= end && if out then Leaves(c, k, w) else Enters(c, k, w);
    MovedSince(c, k, c.min - 1, w - 1);
    MovedSince(c, k, w, end);
  }

  lemma Unmoved(c: Chain, k: Key, start: int, end: int)
    requires c.min - 1 <= start < end < c.min + |c.history|
    requires forall w :: w <= end ==> !Enters(c, k, w) && !Leaves(c, k, w)
    ensures ChangeBetween(c, k, start, end) == []
  {
    hide Content, Enters, Leaves;
    MovedSince(c, k, start, end);
  }

  /** So from the snapshot only a triple of the snapshot that is back, and is delivered apart, is told wrongly: its
      deletion is told. */
  lemma SinceTold(c: Chain, vocabulary: Key -> Triple, pattern: Triple, end: int, k: Key)
    requires Dictionary(c.universe, vocabulary) && IsPattern(pattern) && k in c.universe
    requires c.min <= end < c.min + |c.history| && Matches(vocabulary(k), pattern)
    ensures About(ChangesIn(c, vocabulary, pattern, c.min - 1, end), k) ==
            if Apart(ChainWalk(c, vocabulary, pattern, end), k) && k in c.snapshot then [TripleDelta(k, false)]
            else ChangeBetween(c, k, c.min - 1, end)
  {
    hide Dictionary, Content, Deltas, Matches, ChainWalk, IsPattern, IsDefaultTree, DeliveriesOf, About, AgreesWithSpo,
         Leaves, Enters, Apart, MovedTwice, ChangesIn;
    EachTold(c, vocabulary, pattern, c.min - 1, end, k);
    BeforeChain(c);
    if Apart(ChainWalk(c, vocabulary, pattern, end), k) && !MovedTwice(c, k, end) {
      WalkDelivers(c, vocabulary, pattern, end, k);
      TwiceMoved(c, vocabulary, pattern, end, k);
    }
  }

  lemma TwiceMoved(c: Chain, vocabulary: Key -> Triple, pattern: Triple, end: int, k: Key)
    requires k in OnceOut(c, vocabulary, pattern, end) && k in OnceIn(c, vocabulary, pattern, end)
    ensures MovedTwice(c, k, end)
  {
    hide Matches, Leaves, Enters;
  }
}
