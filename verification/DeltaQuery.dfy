/** The difference between two versions of a chain, from one merged walk over its trees. */
module DeltaQueries {
  import opened OrderedKeys
  import Selection
  import opened Intervals
  import opened Values
  import opened DeletionValues
  import opened ChainHistory
  import opened Ingestion
  import opened Ranks
  import opened Triples
  import opened Dictionaries
  import opened TreeIndexes
  import opened TreeValues
  import opened PatchTreeIterators
  import opened MergeOrders
  import opened ChainReading
  import opened VersionQueries
  import opened DeltaStreams
  import opened LaterDeletions
  import opened DeltaVerdicts
  import opened ReducedDeltas

  // ----- the walks

  /** The filters of a delta query: any version up to the last one asked for. */
  function DeltaFilters(pattern: Triple, v: int, dropLocal: bool): Filters {
    Filters(Some(v), false, if AllMatching(pattern) then None else Some(pattern), dropLocal, true)
  }

  /** The tree serves: it is the deletion tree in SPO order, or one with reduced values. */
  ghost predicate Serves(dels: map<Key, DeletionData>, s: Store) {
    dels == s.deletions || IsReducedTree(dels, s.deletions)
  }

  /** The deletion tree in the order of the pattern. */
  function TreeFor(s: Store, reduced: map<Key, DeletionData>, pattern: Triple): map<Key, DeletionData> {
    if IsDefaultTree(pattern) then s.deletions else reduced
  }

  /** The values of a tree that serves begin where the full ones do, and can be read. */
  lemma ServedView(s: Store, c: Chain, dels: map<Key, DeletionData>, v: int, k: Key)
    requires Queryable(s, c, v) && Serves(dels, s)
    ensures k in dels <==> k in s.deletions
    ensures k in dels ==>
      var iv, limit := dels[k].patches, s.maxPatchId + 1;
      && iv != [] && s.deletions[k].patches != [] && iv[0].start == s.deletions[k].patches[0].start
      && Overrun(iv, MAX, limit) == 0 && Ids(iv, MAX, limit) != [] && Ids(iv, MAX, limit)[0] == iv[0].start
      && Increasing(Ids(iv, MAX, limit)) && Readable(dels[k])
      && (k in c.snapshot ==> dels[k].localChanges == [])
  {
    hide Queryable, Ids, Overrun;
    FullView(s, c, v, k);
    if k in dels && dels != s.deletions {
      var first, limit := s.deletions[k].patches[0].start, s.maxPatchId + 1;
      FirstStart(s, c, v, k);
      OpenRunView(first, limit);
      ReducedReadable(s.deletions[k]);
    }
  }

  lemma FirstStart(s: Store, c: Chain, v: int, k: Key)
    requires Queryable(s, c, v) && k in s.deletions
    ensures s.deletions[k].patches != [] && s.deletions[k].patches[0].start < s.maxPatchId + 1 <= MAX
  {
    hide RanksTrue, CountsTrue, Represents, RanksOk, Dictionary;
    EntryReadable(s.Nodes(), s.countAdditions, c.snapshot, c.history, c.min, s.vocabulary, c.misranked, k);
  }

  lemma OpenRunView(start: int, limit: int)
    requires start < limit <= MAX
    ensures var iv := [Interval(start, MAX)];
      && Overrun(iv, MAX, limit) == 0 && Ids(iv, MAX, limit) != [] && Ids(iv, MAX, limit)[0] == start
      && Increasing(Ids(iv, MAX, limit))
  {
    OpenRunPlace(start, limit, start);
    IdsCorrect([Interval(start, MAX)], MAX, limit);
  }

  lemma ReducedReadable(d: DeletionData)
    requires Readable(d)
    ensures Readable(Reduced(d))
  {
    if d.patches != [] { Edges(d.patches, 0); }
    if d.localChanges != [] { Edges(d.localChanges, 0); }
    BelowMax(d.patches);
    BelowMax(d.localChanges);
  }

  lemma DeltaHit(s: Store, c: Chain, dels: map<Key, DeletionData>, pattern: Triple, v: int, k: Key)
    requires Queryable(s, c, v) && Serves(dels, s)
    ensures var f, limit := DeltaFilters(pattern, v, false), s.maxPatchId + 1;
      && (DeletionHit(dels, s.vocabulary, f, limit)(k) <==> Matches(s.vocabulary(k), pattern) && DeletedBy(s, k, v))
      && (AdditionHit(s.additions, s.vocabulary, f, limit)(k) <==>
          Matches(s.vocabulary(k), pattern) && AddedBy(s, k, v))
      && (StopAt(s.vocabulary, f)(k) ==> !Matches(s.vocabulary(k), pattern))
  {
    hide Queryable, Ids, Overrun, Untouched, Born, Serves;
    FullView(s, c, v, k);
    ServedView(s, c, dels, v, k);
    BirthOrder(s, c, k, v);
    var limit := s.maxPatchId + 1;
    if k in dels { AnyIsFirst(Ids(dels[k].patches, MAX, limit), v); }
    if k in s.additions {
      AnyIsFirst(Ids(s.additions[k].patches, MAX, limit), v);
      FromZeroIsFirst(Ids(s.additions[k].patches, MAX, limit), v);
    }
  }

  lemma AnyIsFirst(ids: seq<int>, v: int)
    requires Increasing(ids) && ids != []
    ensures AnyUpTo(ids, |ids|, v) <==> ids[0] <= v
  {
    if AnyUpTo(ids, |ids|, v) {
      var i :| 0 <= i < |ids| && ids[i] <= v;
    }
  }

  lemma FromZeroIsFirst(ids: seq<int>, v: int)
    requires Increasing(ids) && ids != []
    ensures AnyFromZeroUpTo(ids, |ids|, v) ==> ids[0] <= v
    ensures 0 < ids[0] <= v ==> AnyFromZeroUpTo(ids, |ids|, v)
  {
    if AnyFromZeroUpTo(ids, |ids|, v) {
      var i :| 0 <= i < |ids| && 0 <= ids[i] <= v;
    }
  }

  /** The triples that a walk at version `v` delivers from the deletion tree and from the addition tree. */
  ghost function WalkedDeletions(s: Store, pattern: Triple, v: int): set<Key> {
    set k | k in s.deletions && DeletedBy(s, k, v) && Matches(s.vocabulary(k), pattern)
  }

  ghost function WalkedAdditions(s: Store, pattern: Triple, v: int): set<Key> {
    set k | k in s.additions && AddedBy(s, k, v) && Matches(s.vocabulary(k), pattern)
  }

  /** They are the matching triples that have gone out of the chain, and come into it, by then. */
  ghost function OnceOut(c: Chain, vocabulary: Key -> Triple, pattern: Triple, v: int): set<Key> {
    set k | k in c.universe && Matches(vocabulary(k), pattern) && exists u :: u <= v && Leaves(c, k, u)
  }

  ghost function OnceIn(c: Chain, vocabulary: Key -> Triple, pattern: Triple, v: int): set<Key> {
    set k | k in c.universe && Matches(vocabulary(k), pattern) && exists u :: u <= v && Enters(c, k, u)
  }

  lemma WalkedHistory(s: Store, c: Chain, pattern: Triple, v: int)
    requires Queryable(s, c, v)
    ensures WalkedDeletions(s, pattern, v) == OnceOut(c, s.vocabulary, pattern, v) <= c.universe
    ensures WalkedAdditions(s, pattern, v) == OnceIn(c, s.vocabulary, pattern, v) <= c.universe
  {
    hide Queryable, Matches, DeletedBy, AddedBy, Leaves, Enters;
    QueryableFacts(s, c, v);
    forall k ensures DeletedBy(s, k, v) <==> exists u :: u <= v && Leaves(c, k, u)
             ensures AddedBy(s, k, v) <==> exists u :: u <= v && Enters(c, k, u)
             ensures DeletedBy(s, k, v) ==> k in s.deletions
             ensures AddedBy(s, k, v) ==> k in s.additions {
      WalkedSince(s, c, v, k);
    }
  }

  lemma WalkedSince(s: Store, c: Chain, v: int, k: Key)
    requires Queryable(s, c, v)
    ensures DeletedBy(s, k, v) <==> exists u :: u <= v && Leaves(c, k, u)
    ensures AddedBy(s, k, v) <==> exists u :: u <= v && Enters(c, k, u)
    ensures (DeletedBy(s, k, v) ==> k in s.deletions) && (AddedBy(s, k, v) ==> k in s.additions)
  {
    hide RanksTrue, CountsTrue, RanksOk, Dictionary, Leaves, Enters;
    var e := s.Nodes().EntryOf(k);
    assert Represents(e, k, c.snapshot, c.history, c.min);
    EntryReadable(s.Nodes(), s.countAdditions, c.snapshot, c.history, c.min, s.vocabulary, c.misranked, k);
    FirstExit(e, k, c);
    FirstEntry(e, k, c);
    assert forall u :: !In([], u);
    if e.del != [] { Edges(e.del, 0); }
    if e.add != [] { Edges(e.add, 0); }
  }

  /** What the two walks deliver, in the order of the pattern. */
  ghost function WalkedOut(s: Store, c: Chain, pattern: Triple, v: int): seq<Key> {
    Arranged(WalkedDeletions(s, pattern, v), c.universe, QueryOrder(pattern), s.vocabulary)
  }

  ghost function WalkedIn(s: Store, c: Chain, pattern: Triple, v: int): seq<Key> {
    Arranged(WalkedAdditions(s, pattern, v), c.universe, QueryOrder(pattern), s.vocabulary)
  }

  /** Both walks, merged in the order of the pattern. */
  ghost function WalkInOrder(s: Store, c: Chain, pattern: Triple, v: int): seq<Found> {
    MergedBy(WalkedOut(s, c, pattern, v), WalkedIn(s, c, pattern, v), OrderOf(pattern, s.vocabulary))
  }

  /** The order of the pattern and the SPO order agree on the matching triples that go out of the chain and come into
      it up to a version, as far as these are neighbours. */
  ghost predicate WalksAgree(c: Chain, vocabulary: Key -> Triple, pattern: Triple, v: int) {
    OrdersAgree(OnceOut(c, vocabulary, pattern, v), OnceIn(c, vocabulary, pattern, v), OrderOf(pattern, vocabulary))
  }

  /** For all patterns but a lone predicate they do. */
  lemma AlwaysAgree(c: Chain, vocabulary: Key -> Triple, pattern: Triple, v: int)
    requires Dictionary(c.universe, vocabulary) && AgreesWithSpo(pattern)
    ensures WalksAgree(c, vocabulary, pattern, v)
  {
    hide Dictionary, AgreesWithSpo, Matches, QueryOrder, Leaves, Enters, OrdersAgree;
    MatchesAgree(OnceOut(c, vocabulary, pattern, v), OnceIn(c, vocabulary, pattern, v), c.universe, vocabulary,
                 pattern);
  }

  /** The merge by the SPO comparator is in the order of the pattern if and only if the orders agree. */
  lemma MergeInOrder(s: Store, c: Chain, pattern: Triple, v: int)
    requires Queryable(s, c, v)
    ensures Merged(WalkedOut(s, c, pattern, v), WalkedIn(s, c, pattern, v)) == WalkInOrder(s, c, pattern, v) <==>
            WalksAgree(c, s.vocabulary, pattern, v)
  {
    hide Queryable, Dictionary, WalkedDeletions, WalkedAdditions, OnceOut, OnceIn, KeysSorted, OrdersAgree, Merged,
         MergedBy, QueryOrder;
    QueryableFacts(s, c, v);
    WalkedHistory(s, c, pattern, v);
    WalksSorted(s, c, pattern, v);
    var dels, adds := WalkedOut(s, c, pattern, v), WalkedIn(s, c, pattern, v);
    assert Elements(dels) == WalkedDeletions(s, pattern, v) && Elements(adds) == WalkedAdditions(s, pattern, v);
    MergesAlike(dels, adds, OrderOf(pattern, s.vocabulary), c.universe);
  }

  lemma WalksSorted(s: Store, c: Chain, pattern: Triple, v: int)
    requires Queryable(s, c, v)
    ensures KeysSorted(WalkedOut(s, c, pattern, v), OrderOf(pattern, s.vocabulary), c.universe)
    ensures KeysSorted(WalkedIn(s, c, pattern, v), OrderOf(pattern, s.vocabulary), c.universe)
  {
    hide Queryable, Dictionary, WalkedDeletions, WalkedAdditions, KeysSorted, QueryOrder;
    QueryableFacts(s, c, v);
    WalkedHistory(s, c, pattern, v);
    ArrangedSorted(WalkedDeletions(s, pattern, v), OrderOf(pattern, s.vocabulary), c.universe);
    ArrangedSorted(WalkedAdditions(s, pattern, v), OrderOf(pattern, s.vocabulary), c.universe);
  }

  /** The stream is the change of the matches between two contents, in the order of the pattern. */
  ghost predicate TellsChange(out: seq<TripleDelta>, s: Store, c: Chain, pattern: Triple, before: set<Key>,
                              after: set<Key>) {
    IsDelta(out, MatchesOf(before, s.vocabulary, pattern), MatchesOf(after, s.vocabulary, pattern),
            OrderOf(pattern, s.vocabulary), c.universe)
  }

  /** What a walk at version `v` in the order of the pattern amounts to, for any verdict that tells the change from
      `before` to version `v`. */
  lemma WalkIsDelta(s: Store, c: Chain, pattern: Triple, v: int, verdict: Found -> Option<bool>, before: set<Key>)
    requires Queryable(s, c, v)
    requires forall k :: DeletedBy(s, k, v) || AddedBy(s, k, v) ==>
               verdict(At(s, k, DeletedBy(s, k, v), AddedBy(s, k, v))) ==
               if (k in before) == (k in Content(c, v)) then None else Some(k in Content(c, v))
    requires forall k :: !DeletedBy(s, k, v) && !AddedBy(s, k, v) ==> (k in before <==> k in Content(c, v))
    ensures TellsChange(Deltas(WalkInOrder(s, c, pattern, v), verdict), s, c, pattern, before, Content(c, v))
  {
    hide Queryable, Dictionary, Matches, DeletedBy, AddedBy, Content, MergedBy, SignIn, KeysSorted, DeltasSorted,
         QueryOrder, AllAbove, Below;
    QueryableFacts(s, c, v);
    WalksSorted(s, c, pattern, v);
    var dels, adds := WalkedOut(s, c, pattern, v), WalkedIn(s, c, pattern, v);
    DeltasSigns(dels, adds, verdict, OrderOf(pattern, s.vocabulary), c.universe);
    var out := Deltas(WalkInOrder(s, c, pattern, v), verdict);
    forall k ensures SignIn(out, k) ==
        if (k in MatchesOf(before, s.vocabulary, pattern)) == (k in MatchesOf(Content(c, v), s.vocabulary, pattern))
        then None else Some(k in MatchesOf(Content(c, v), s.vocabulary, pattern)) {
      WalkedFlags(s, c, pattern, v, k);
    }
  }

  lemma WalkedFlags(s: Store, c: Chain, pattern: Triple, v: int, k: Key)
    ensures k in WalkedOut(s, c, pattern, v) <==> DeletedBy(s, k, v) && Matches(s.vocabulary(k), pattern)
    ensures k in WalkedIn(s, c, pattern, v) <==> AddedBy(s, k, v) && Matches(s.vocabulary(k), pattern)
  {
    hide Matches;
  }

  /** From the snapshot, a tree that serves tells of a triple what the full values tell. */
  lemma ServedPatch(s: Store, c: Chain, dels: map<Key, DeletionData>, k: Key, v: int)
    requires Queryable(s, c, v) && Serves(dels, s) && (DeletedBy(s, k, v) || AddedBy(s, k, v))
    ensures var f, limit := At(s, k, DeletedBy(s, k, v), AddedBy(s, k, v)), s.maxPatchId + 1;
      Dropping(true, PatchVerdict(dels, s.additions, v, limit), dels, s.additions, v, limit)(f) ==
        if (k in c.snapshot) == (k in Content(c, v)) then None else Some(k in Content(c, v))
  {
    hide Queryable, Content, PatchVerdict, LocalFound, Serves;
    PatchVerdictRight(s, c, k, v);
    ServedSame(s, c, dels, k, v);
  }

  lemma ServedSame(s: Store, c: Chain, dels: map<Key, DeletionData>, k: Key, v: int)
    requires Queryable(s, c, v) && Serves(dels, s) && (DeletedBy(s, k, v) || AddedBy(s, k, v))
    ensures var f, limit := At(s, k, DeletedBy(s, k, v), AddedBy(s, k, v)), s.maxPatchId + 1;
      && PatchVerdict(dels, s.additions, v, limit)(f) == PatchVerdict(s.deletions, s.additions, v, limit)(f)
      && (LocalFound(f, dels, s.additions, v, limit) <==> LocalFound(f, s.deletions, s.additions, v, limit))
  {
    hide Queryable, Ids, Overrun, PlaceOf, Content, Untouched, Born, In, Serves;
    BirthOrder(s, c, k, v);
    FullView(s, c, v, k);
    ServedView(s, c, dels, v, k);
    NothingIn();
  }

  /** What a merged walk from the snapshot amounts to. */
  ghost function PatchOut(m: seq<Found>, s: Store, dels: map<Key, DeletionData>, v: int): seq<TripleDelta> {
    var limit := s.maxPatchId + 1;
    Deltas(WithoutLocal(m, true, dels, s.additions, v, limit), PatchVerdict(dels, s.additions, v, limit))
  }

  /** The walk from the snapshot delivers the difference between the snapshot and the version. */
  lemma PatchWalk(s: Store, c: Chain, dels: map<Key, DeletionData>, pattern: Triple, v: int)
    requires Queryable(s, c, v) && Serves(dels, s)
    ensures TellsChange(PatchOut(WalkInOrder(s, c, pattern, v), s, dels, v), s, c, pattern, c.snapshot, Content(c, v))
  {
    hide Queryable, Content, WalkInOrder, Deltas, WithoutLocal, PatchVerdict, Dropping, DeletedBy, AddedBy, TellsChange,
         Serves;
    var limit := s.maxPatchId + 1;
    var verdict := PatchVerdict(dels, s.additions, v, limit);
    DroppedFirst(WalkInOrder(s, c, pattern, v), true, verdict, dels, s.additions, v, limit);
    forall k | DeletedBy(s, k, v) || AddedBy(s, k, v)
      ensures Dropping(true, verdict, dels, s.additions, v, limit)(At(s, k, DeletedBy(s, k, v), AddedBy(s, k, v))) ==
              if (k in c.snapshot) == (k in Content(c, v)) then None else Some(k in Content(c, v)) {
      ServedPatch(s, c, dels, k, v);
    }
    WithinChain(s, c, v);
    forall k | !DeletedBy(s, k, v) && !AddedBy(s, k, v) ensures k in c.snapshot <==> k in Content(c, v) {
      NotDelivered(s, c, k, v, v);
    }
    WalkIsDelta(s, c, pattern, v, Dropping(true, verdict, dels, s.additions, v, limit), c.snapshot);
  }

  /** The change of one triple since the snapshot. */
  ghost function ChangeOf(c: Chain, k: Key, v: int): seq<TripleDelta> {
    if (k in c.snapshot) == (k in Content(c, v)) then [] else [TripleDelta(k, k in Content(c, v))]
  }

  /** A triple of both walks that is delivered apart from each is told wrongly if and only if it was in the snapshot
      and is in the version: then its deletion is told. */
  lemma ToldApart(s: Store, c: Chain, reduced: map<Key, DeletionData>, k: Key, v: int)
    requires Queryable(s, c, v) && IsReducedTree(reduced, s.deletions) && DeletedBy(s, k, v) && AddedBy(s, k, v)
    ensures var out := PatchOut([Found(k, true, false), Found(k, false, true)], s, reduced, v);
      && (out == ChangeOf(c, k, v) <==> !(k in c.snapshot && k in Content(c, v)))
      && (k in c.snapshot ==> out == [TripleDelta(k, false)])
  {
    hide Queryable, Content, PatchVerdict, LocalFound, IsReducedTree, WithoutLocal, Deltas;
    var limit := s.maxPatchId + 1;
    var told := PatchVerdict(reduced, s.additions, v, limit);
    var verdict := Dropping(true, told, reduced, s.additions, v, limit);
    var m := [Found(k, true, false), Found(k, false, true)];
    DroppedFirst(m, true, told, reduced, s.additions, v, limit);
    DeletedApart(s, c, reduced, k, v);
    AddedApart(s, c, reduced, k, v);
    DeltasOf(m, verdict);
    assert m[1..] == [Found(k, false, true)];
    DeltasOf(m[1..], verdict);
    var none: seq<Found> := [];
    assert m[1..][1..] == none;
    NoDeltas(verdict);
  }

  lemma NoDeltas(verdict: Found -> Option<bool>)
    ensures Deltas([], verdict) == []
  {
  }

  lemma DeletedApart(s: Store, c: Chain, reduced: map<Key, DeletionData>, k: Key, v: int)
    requires Queryable(s, c, v) && IsReducedTree(reduced, s.deletions) && DeletedBy(s, k, v)
    ensures var limit := s.maxPatchId + 1;
      var told := PatchVerdict(reduced, s.additions, v, limit);
      Dropping(true, told, reduced, s.additions, v, limit)(Found(k, true, false)) ==
        if k in c.snapshot then Some(false) else None
  {
    hide Queryable, Ids, Overrun, LocalSeen, Readable, AdditionReadable, Untouched, Born, Reduced;
    FullView(s, c, v, k);
    WithinChain(s, c, v);
    FirstStart(s, c, v, k);
    LastIsLatest(s, c, v);
    ReducedRead(s.deletions[k], v, s.maxPatchId + 1);
    var f := Found(k, true, false);
    assert s.deletions[k].localChanges == [] <==> k in c.snapshot;
    assert LocalFound(f, reduced, s.additions, v, s.maxPatchId + 1) <==> k !in c.snapshot;
    assert PatchVerdict(reduced, s.additions, v, s.maxPatchId + 1)(f) == Some(false);
  }

  lemma LastIsLatest(s: Store, c: Chain, v: int)
    requires Queryable(s, c, v)
    ensures v < s.maxPatchId + 1 <= MAX
  {
    hide ChainOk, Dictionary;
  }

  lemma AddedApart(s: Store, c: Chain, reduced: map<Key, DeletionData>, k: Key, v: int)
    requires Queryable(s, c, v) && AddedBy(s, k, v)
    ensures var limit := s.maxPatchId + 1;
      var told := PatchVerdict(reduced, s.additions, v, limit);
      Dropping(true, told, reduced, s.additions, v, limit)(Found(k, false, true)) ==
        if k !in c.snapshot && k in Content(c, v) then Some(true) else None
  {
    hide Queryable, Ids, Overrun, Readable, PlaceOf, Content, Untouched, Born, In;
    BirthOrder(s, c, k, v);
    FullView(s, c, v, k);
    WithinChain(s, c, v);
    LastIsLatest(s, c, v);
    ListedContent(s, c, k, v, v);
    NothingIn();
    ListedIffIn(s.additions[k].patches, v, s.maxPatchId + 1);
    var f, limit := Found(k, false, true), s.maxPatchId + 1;
    assert LocalFound(f, reduced, s.additions, v, limit) <==> k in c.snapshot && In(s.additions[k].patches, v);
    assert In(s.additions[k].patches, v) <==> PlaceOf(Ids(s.additions[k].patches, MAX, limit), v) >= 0;
    assert PatchVerdict(reduced, s.additions, v, limit)(f) ==
           if PlaceOf(Ids(s.additions[k].patches, MAX, limit), v) >= 0 then Some(true) else None;
  }

  /** No matching triple has both gone out of the chain and come into it by then. */
  ghost predicate MovedOnce(c: Chain, vocabulary: Key -> Triple, pattern: Triple, v: int) {
    OnceOut(c, vocabulary, pattern, v) !! OnceIn(c, vocabulary, pattern, v)
  }

  /** What has moved only once has changed since the snapshot. */
  lemma MovedHasChanged(s: Store, c: Chain, v: int, k: Key)
    requires Queryable(s, c, v) && DeletedBy(s, k, v) != AddedBy(s, k, v)
    ensures (k in c.snapshot) != (k in Content(c, v))
  {
    hide Queryable, Ids, PlaceOf, Content, Untouched, Born;
    BirthOrder(s, c, k, v);
    WithinChain(s, c, v);
    ListedContent(s, c, k, v, v);
  }

  /** If no match has moved twice, the walk from the snapshot delivers the difference only in the order of the
      pattern. */
  lemma PatchWalkOnly(s: Store, c: Chain, dels: map<Key, DeletionData>, pattern: Triple, v: int)
    requires Queryable(s, c, v) && Serves(dels, s) && MovedOnce(c, s.vocabulary, pattern, v)
    requires TellsChange(PatchOut(Merged(WalkedOut(s, c, pattern, v), WalkedIn(s, c, pattern, v)), s, dels, v), s, c,
                         pattern, c.snapshot, Content(c, v))
    ensures WalksAgree(c, s.vocabulary, pattern, v)
  {
    hide Queryable, Dictionary, Content, Merged, Deltas, WithoutLocal, PatchVerdict, Dropping, DeletedBy, AddedBy,
         Serves, WalkedOut, WalkedIn, MatchesOf, Matches, SignIn, QueryOrder, Comparator.Less, WalksAgree, KeysSorted;
    var limit := s.maxPatchId + 1;
    var verdict := Dropping(true, PatchVerdict(dels, s.additions, v, limit), dels, s.additions, v, limit);
    var lost, gained := WalkedOut(s, c, pattern, v), WalkedIn(s, c, pattern, v);
    var m := Merged(lost, gained);
    DroppedFirst(m, true, PatchVerdict(dels, s.additions, v, limit), dels, s.additions, v, limit);
    WalksApart(s, c, pattern, v);
    forall i | 0 <= i < |m| ensures verdict(m[i]).Some? {
      DeliveredAlone(lost, gained, i);
      WalkedFlags(s, c, pattern, v, m[i].key);
      MovedHasChanged(s, c, v, m[i].key);
      ServedPatch(s, c, dels, m[i].key, v);
    }
    AllTold(m, verdict);
    forall i, j | 0 <= i < j < |m| ensures OrderOf(pattern, s.vocabulary).Less(m[i].key, m[j].key) {
      assert Deltas(m, verdict)[i].key == m[i].key && Deltas(m, verdict)[j].key == m[j].key;
    }
    QueryableFacts(s, c, v);
    WalksSorted(s, c, pattern, v);
    OnlyInOrder(lost, gained, OrderOf(pattern, s.vocabulary), c.universe);
    MergeInOrder(s, c, pattern, v);
  }

  lemma WalksApart(s: Store, c: Chain, pattern: Triple, v: int)
    requires Queryable(s, c, v) && MovedOnce(c, s.vocabulary, pattern, v)
    ensures forall k :: k in WalkedOut(s, c, pattern, v) ==> k !in WalkedIn(s, c, pattern, v)
  {
    hide Queryable, OnceOut, OnceIn, WalkedDeletions, WalkedAdditions;
    WalkedHistory(s, c, pattern, v);
  }

  lemma {:induction false} AllTold(m: seq<Found>, verdict: Found -> Option<bool>)
    requires forall i :: 0 <= i < |m| ==> verdict(m[i]).Some?
    ensures |Deltas(m, verdict)| == |m| && forall i :: 0 <= i < |m| ==> Deltas(m, verdict)[i].key == m[i].key
  {
    if m != [] { AllTold(m[1..], verdict); }
  }

  /** Reduced values tell a change of the triple exactly if there is one. */
  ghost predicate ChangeTold(c: Chain, k: Key, start: int, end: int) {
    SeenPresent(c, k, start) == SeenPresent(c, k, end) <==> (k in Content(c, start)) == (k in Content(c, end))
  }

  ghost predicate ChangesTold(c: Chain, vocabulary: Key -> Triple, pattern: Triple, start: int, end: int) {
    forall k :: Matches(vocabulary(k), pattern) ==> ChangeTold(c, k, start, end)
  }

  /** What a merged walk between two versions amounts to. */
  ghost function DiffOut(m: seq<Found>, s: Store, dels: map<Key, DeletionData>, start: int,
                         end: int): seq<TripleDelta> {
    var limit := s.maxPatchId + 1;
    Deltas(WithoutLocal(m, false, dels, s.additions, end, limit), DiffVerdict(dels, s.additions, start, end, limit))
  }

  lemma DiffOutIs(m: seq<Found>, s: Store, dels: map<Key, DeletionData>, start: int, end: int)
    ensures DiffOut(m, s, dels, start, end) == Deltas(m, DiffVerdict(dels, s.additions, start, end, s.maxPatchId + 1))
  {
    hide Deltas, WithoutLocal, DiffVerdict;
    KeepingLocal(m, dels, s.additions, end, s.maxPatchId + 1);
  }

  /** The walk between two versions delivers their difference. */
  lemma DiffWalk(s: Store, c: Chain, pattern: Triple, start: int, end: int)
    requires Queryable(s, c, end) && c.min <= start <= end
    ensures TellsChange(DiffOut(WalkInOrder(s, c, pattern, end), s, s.deletions, start, end), s, c, pattern,
                        Content(c, start), Content(c, end))
  {
    hide Queryable, Content, WalkInOrder, Deltas, DiffVerdict, DeletedBy, AddedBy, TellsChange, DiffOut;
    var verdict := DiffVerdict(s.deletions, s.additions, start, end, s.maxPatchId + 1);
    DiffOutIs(WalkInOrder(s, c, pattern, end), s, s.deletions, start, end);
    forall k | DeletedBy(s, k, end) || AddedBy(s, k, end)
      ensures verdict(At(s, k, DeletedBy(s, k, end), AddedBy(s, k, end))) ==
              if (k in Content(c, start)) == (k in Content(c, end)) then None else Some(k in Content(c, end)) {
      DiffVerdictRight(s, c, k, start, end);
    }
    forall k | !DeletedBy(s, k, end) && !AddedBy(s, k, end) ensures k in Content(c, start) <==> k in Content(c, end) {
      NotDelivered(s, c, k, end, start);
      NotDelivered(s, c, k, end, end);
    }
    WalkIsDelta(s, c, pattern, end, verdict, Content(c, start));
  }

  /** Through reduced values it does so exactly if these tell the changes. */
  lemma ReducedDiffWalk(s: Store, c: Chain, reduced: map<Key, DeletionData>, pattern: Triple, start: int, end: int)
    requires Queryable(s, c, end) && c.min <= start <= end && IsReducedTree(reduced, s.deletions)
    ensures TellsChange(DiffOut(WalkInOrder(s, c, pattern, end), s, reduced, start, end), s, c, pattern,
                        Content(c, start), Content(c, end)) <==>
            ChangesTold(c, s.vocabulary, pattern, start, end)
  {
    hide Queryable, Dictionary, Content, MergedBy, Deltas, DiffVerdict, DeletedBy, AddedBy, Matches, MatchesOf,
         ChangeTold, DiffOut, SignIn, IsReducedTree, WalkedOut, WalkedIn, VerdictAt, Below, AllAbove, KeysSorted,
         DeltasSorted, QueryOrder;
    var verdict := DiffVerdict(reduced, s.additions, start, end, s.maxPatchId + 1);
    DiffOutIs(WalkInOrder(s, c, pattern, end), s, reduced, start, end);
    QueryableFacts(s, c, end);
    WalksSorted(s, c, pattern, end);
    DeltasSigns(WalkedOut(s, c, pattern, end), WalkedIn(s, c, pattern, end), verdict, OrderOf(pattern, s.vocabulary),
                c.universe);
    var out := DiffOut(WalkInOrder(s, c, pattern, end), s, reduced, start, end);
    var before, after := MatchesOf(Content(c, start), s.vocabulary, pattern),
                         MatchesOf(Content(c, end), s.vocabulary, pattern);
    forall k
      ensures SignIn(out, k) == (if (k in before) == (k in after) then None else Some(k in after)) <==>
              (Matches(s.vocabulary(k), pattern) ==> ChangeTold(c, k, start, end)) {
      ReducedSign(s, c, reduced, pattern, start, end, k);
    }
  }

  /** One triple of that walk. */
  lemma ReducedSign(s: Store, c: Chain, reduced: map<Key, DeletionData>, pattern: Triple, start: int, end: int, k: Key)
    requires Queryable(s, c, end) && c.min <= start <= end && IsReducedTree(reduced, s.deletions)
    ensures
      var before, after := MatchesOf(Content(c, start), s.vocabulary, pattern),
                           MatchesOf(Content(c, end), s.vocabulary, pattern);
      VerdictAt(k, WalkedOut(s, c, pattern, end), WalkedIn(s, c, pattern, end),
                DiffVerdict(reduced, s.additions, start, end, s.maxPatchId + 1)) ==
        (if (k in before) == (k in after) then None else Some(k in after)) <==>
      (Matches(s.vocabulary(k), pattern) ==> ChangeTold(c, k, start, end))
  {
    hide Queryable, Content, DiffVerdict, DeletedBy, AddedBy, Matches, SeenPresent, IsReducedTree, WalkedOut,
         WalkedIn;
    WalkedFlags(s, c, pattern, end, k);
    if DeletedBy(s, k, end) || AddedBy(s, k, end) {
      ReducedDiffIff(s, c, reduced, k, start, end);
    } else {
      NotDelivered(s, c, k, end, start);
      NotDelivered(s, c, k, end, end);
      UndeliveredSeen(s, c, k, start, end);
    }
  }

  /** What the walk amounts to through the tree of a pattern. */
  lemma TreeDiff(s: Store, c: Chain, reduced: map<Key, DeletionData>, pattern: Triple, start: int, end: int)
    requires Queryable(s, c, end) && c.min <= start <= end && IsReducedTree(reduced, s.deletions)
    ensures TellsChange(DiffOut(WalkInOrder(s, c, pattern, end), s, TreeFor(s, reduced, pattern), start, end), s, c,
                        pattern, Content(c, start), Content(c, end)) <==>
            IsDefaultTree(pattern) || ChangesTold(c, s.vocabulary, pattern, start, end)
    ensures Serves(TreeFor(s, reduced, pattern), s)
  {
    hide Queryable, TellsChange, DiffOut, Content, ChangesTold, IsDefaultTree, IsReducedTree, WalkInOrder;
    DiffWalk(s, c, pattern, start, end);
    ReducedDiffWalk(s, c, reduced, pattern, start, end);
  }

  lemma UndeliveredSeen(s: Store, c: Chain, k: Key, start: int, end: int)
    requires Queryable(s, c, end) && c.min <= start <= end && !DeletedBy(s, k, end) && !AddedBy(s, k, end)
    ensures SeenPresent(c, k, start) == SeenPresent(c, k, end)
  {
    hide Queryable, Content, DeletedBy, AddedBy, GoneUpTo, StayUpTo;
    forall w | c.min <= w <= end ensures k in Content(c, w) <==> k in c.snapshot {
      NotDelivered(s, c, k, end, w);
    }
  }

  lemma {:induction false} KeepingLocal(m: seq<Found>, deletions: map<Key, DeletionData>,
                                        additions: map<Key, AdditionData>, v: int, limit: int)
    ensures WithoutLocal(m, false, deletions, additions, v, limit) == m
  {
    if m != [] {
      KeepingLocal(m[1..], deletions, additions, v, limit);
      assert m == [m[0]] + m[1..];
    }
  }

  // ----- the iterators

  /** A merged walk over the two trees in the order of the pattern, from the first match on. */
  method StartWalk(s: Store, ghost c: Chain, dels: map<Key, DeletionData>, deletionKeys: seq<Key>,
                   additionKeys: seq<Key>, pattern: Triple, v: int, dropLocal: bool)
    returns (it: PatchTreeIterator, value: PatchTreeValue)
    requires Queryable(s, c, v) && IsPattern(pattern) && Serves(dels, s)
    requires IsIndex(deletionKeys, s.deletions.Keys, QueryOrder(pattern), s.vocabulary)
    requires IsIndex(additionKeys, s.additions.Keys, QueryOrder(pattern), s.vocabulary)
    ensures fresh(it) && FreshValue(value) && it.Merging(value) && it.filters == DeltaFilters(pattern, v, dropLocal)
    ensures it.deletions == dels && it.additions == s.additions && value.addition.maxPatchId == s.maxPatchId + 1
    ensures it.ToDeliver(s.maxPatchId + 1) ==
            WithoutLocal(Merged(WalkedOut(s, c, pattern, v), WalkedIn(s, c, pattern, v)), dropLocal, dels, s.additions,
                         v, s.maxPatchId + 1)
    ensures forall k :: k in dels ==> Ids(dels[k].patches, MAX, s.maxPatchId + 1) != []
  {
    hide Queryable, Matches, Merged, WithoutLocal, DeletionHit, AdditionHit, StopAt, Stream, StopsAreFinal, Readable,
         AdditionReadable, Jump, Ahead, QueryOrder, IsPattern, IsIndex, WalkedOut, WalkedIn,
         Serves, Ids;
    QueryableFacts(s, c, v);
    value := new PatchTreeValue(s.maxPatchId);
    var order := QueryOrder(pattern);
    it := new PatchTreeIterator(s.vocabulary, deletionKeys, dels, additionKeys, s.additions,
                                Jump(deletionKeys, order, s.vocabulary, pattern),
                                Jump(additionKeys, order, s.vocabulary, pattern),
                                DeltaFilters(pattern, v, dropLocal), false);
    IndexKeys(deletionKeys, s.deletions.Keys, order, s.vocabulary);
    IndexKeys(additionKeys, s.additions.Keys, order, s.vocabulary);
    ValuesReadable(s, c, v);
    ServedReadable(s, c, dels, v);
    WalkStarts(s, c, dels, deletionKeys, additionKeys, pattern, v);
    assert it.Undropped() == DeltaFilters(pattern, v, false);
  }

  twostate predicate FreshValue(new value: PatchTreeValue) {
    && fresh(value) && fresh(value.addition) && fresh(value.addition.patches) && fresh(value.addition.localChanges)
    && fresh(value.deletion) && fresh(value.deletion.patches) && fresh(value.deletion.localChanges)
    && fresh(value.deletion.patchPositions)
  }

  lemma ValuesReadable(s: Store, c: Chain, v: int)
    requires Queryable(s, c, v)
    ensures forall k :: k in s.deletions ==>
            Readable(s.deletions[k]) && Ids(s.deletions[k].patches, MAX, s.maxPatchId + 1) != []
    ensures forall k :: k in s.additions ==> AdditionReadable(s.additions[k])
  {
    hide Queryable, Readable, AdditionReadable, Ids;
    forall k | k in s.deletions
      ensures Readable(s.deletions[k]) && Ids(s.deletions[k].patches, MAX, s.maxPatchId + 1) != [] {
      FullView(s, c, v, k);
    }
    forall k | k in s.additions ensures AdditionReadable(s.additions[k]) { FullView(s, c, v, k); }
  }

  lemma ServedReadable(s: Store, c: Chain, dels: map<Key, DeletionData>, v: int)
    requires Queryable(s, c, v) && Serves(dels, s)
    ensures forall k :: k in dels <==> k in s.deletions
    ensures forall k :: k in dels ==> Readable(dels[k]) && Ids(dels[k].patches, MAX, s.maxPatchId + 1) != []
  {
    hide Queryable, Readable, Ids, Serves;
    forall k ensures k in dels <==> k in s.deletions
             ensures k in dels ==> Readable(dels[k]) && Ids(dels[k].patches, MAX, s.maxPatchId + 1) != [] {
      ServedView(s, c, dels, v, k);
    }
  }

  lemma WalkStarts(s: Store, c: Chain, dels: map<Key, DeletionData>, deletionKeys: seq<Key>, additionKeys: seq<Key>,
                   pattern: Triple, v: int)
    requires Queryable(s, c, v) && IsPattern(pattern) && Serves(dels, s)
    requires IsIndex(deletionKeys, s.deletions.Keys, QueryOrder(pattern), s.vocabulary)
    requires IsIndex(additionKeys, s.additions.Keys, QueryOrder(pattern), s.vocabulary)
    ensures var f, limit := DeltaFilters(pattern, v, false), s.maxPatchId + 1;
      var aheadD, aheadA := Ahead(deletionKeys, Jump(deletionKeys, QueryOrder(pattern), s.vocabulary, pattern), false),
                            Ahead(additionKeys, Jump(additionKeys, QueryOrder(pattern), s.vocabulary, pattern), false);
      && Stream(aheadD, DeletionHit(dels, s.vocabulary, f, limit), StopAt(s.vocabulary, f)) ==
           WalkedOut(s, c, pattern, v)
      && Stream(aheadA, AdditionHit(s.additions, s.vocabulary, f, limit), StopAt(s.vocabulary, f)) ==
           WalkedIn(s, c, pattern, v)
      && StopsAreFinal(aheadA, AdditionHit(s.additions, s.vocabulary, f, limit), StopAt(s.vocabulary, f))
  {
    hide Queryable, Matches, DeletionHit, AdditionHit, StopAt, Stream, StopsAreFinal, Jump, Ahead, DeletedBy,
         AddedBy, QueryOrder, IsIndex, Serves, Selection.Select;
    var f, limit := DeltaFilters(pattern, v, false), s.maxPatchId + 1;
    var hitD, hitA := DeletionHit(dels, s.vocabulary, f, limit), AdditionHit(s.additions, s.vocabulary, f, limit);
    QueryableFacts(s, c, v);
    forall k ensures hitD(k) <==> Matches(s.vocabulary(k), pattern) && DeletedBy(s, k, v)
             ensures hitA(k) <==> Matches(s.vocabulary(k), pattern) && AddedBy(s, k, v)
             ensures StopAt(s.vocabulary, f)(k) ==> !Matches(s.vocabulary(k), pattern) {
      DeltaHit(s, c, dels, pattern, v, k);
    }
    JumpedSelect(deletionKeys, s.deletions.Keys, c.universe, s.vocabulary, pattern, hitD, StopAt(s.vocabulary, f));
    SelectIndex(deletionKeys, s.deletions.Keys, c.universe, QueryOrder(pattern), s.vocabulary, hitD);
    JumpedSelect(additionKeys, s.additions.Keys, c.universe, s.vocabulary, pattern, hitA, StopAt(s.vocabulary, f));
    SelectIndex(additionKeys, s.additions.Keys, c.universe, QueryOrder(pattern), s.vocabulary, hitA);
    WalkedHits(s, pattern, v, hitD, hitA);
  }

  lemma WalkedHits(s: Store, pattern: Triple, v: int, hitD: Key -> bool, hitA: Key -> bool)
    requires forall k :: hitD(k) <==> Matches(s.vocabulary(k), pattern) && DeletedBy(s, k, v)
    requires forall k :: hitA(k) <==> Matches(s.vocabulary(k), pattern) && AddedBy(s, k, v)
    ensures HitsIn(s.deletions.Keys, hitD) == WalkedDeletions(s, pattern, v)
    ensures HitsIn(s.additions.Keys, hitA) == WalkedAdditions(s, pattern, v)
  {
    hide Matches;
    assert forall k :: k in HitsIn(s.deletions.Keys, hitD) <==> k in WalkedDeletions(s, pattern, v);
    assert forall k :: k in HitsIn(s.additions.Keys, hitA) <==> k in WalkedAdditions(s, pattern, v);
  }

  lemma DeltasStep(m: seq<Found>, verdict: Found -> Option<bool>)
    ensures m == [] ==> Deltas(m, verdict) == []
    ensures m != [] && verdict(m[0]).None? ==> Deltas(m, verdict) == Deltas(m[1..], verdict)
    ensures m != [] && verdict(m[0]).Some? ==>
              Deltas(m, verdict) != [] && Deltas(m, verdict)[0] == TripleDelta(m[0].key, verdict(m[0]).value) &&
              Deltas(m, verdict)[1..] == Deltas(m[1..], verdict)
  {
  }

  /** A walk with the value it reads into. */
  ghost predicate Walking(it: PatchTreeIterator, value: PatchTreeValue)
    reads it, value, value.addition, value.addition.patches, value.addition.localChanges
    reads value.deletion, value.deletion.patches, value.deletion.localChanges, value.deletion.patchPositions
  {
    && it.Merging(value)
    && forall k :: k in it.deletions ==> Ids(it.deletions[k].patches, MAX, value.deletion.maxPatchId) != []
  }

  class ForwardPatchIterator {
    const it: PatchTreeIterator
    const value: PatchTreeValue

    ghost predicate Valid()
      reads it, value, value.addition, value.addition.patches, value.addition.localChanges
      reads value.deletion, value.deletion.patches, value.deletion.localChanges, value.deletion.patchPositions
    {
      Walking(it, value)
    }

    /** What is still to be delivered. */
    ghost function Rest(): seq<TripleDelta>
      reads it, value.addition
      requires it.filters.patchId.Some?
    {
      Deltas(it.ToDeliver(value.addition.maxPatchId),
             PatchVerdict(it.deletions, it.additions, it.filters.patchId.value, value.addition.maxPatchId))
    }

    constructor (it: PatchTreeIterator, value: PatchTreeValue)
      ensures this.it == it && this.value == value
    {
      this.it, this.value := it, value;
    }

    /** What becomes of a delivered triple. */
    method Judge(ghost f: Found) returns (verdict: Option<bool>)
      requires Valid() && Loaded(value, f, it.deletions, it.additions)
      ensures verdict == PatchVerdict(it.deletions, it.additions, it.filters.patchId.value,
                                      value.addition.maxPatchId)(f)
    {
      hide DeletionHit, AdditionHit, Stream, StopAt, StopsAreFinal, Ahead, AdditionReadable, Ids, FirstDeleted,
           PlaceOf;
      var addition := value.IsAddition(it.filters.patchId.value);
      if addition {
        return Some(true);
      }
      var existed := value.ExistsInSnapshot();
      verdict := if existed then Some(false) else None;
    }

    method Next() returns (found: bool, triple: TripleDelta)
      requires Valid()
      modifies it, value, value.addition.patches, value.addition.localChanges
      modifies value.deletion.patches, value.deletion.localChanges, value.deletion.patchPositions
      ensures Valid()
      ensures var rest := old(Rest());
        if rest == [] then !found else found && triple == rest[0] && Rest() == rest[1..]
    {
      hide DeletionHit, AdditionHit, Stream, StopAt, StopsAreFinal, Readable, AdditionReadable, Ids, Merged,
           WithoutLocal, Deltas, PatchVerdict, DiffVerdict, PlaceOf, Ahead;
      ghost var limit, v := value.addition.maxPatchId, it.filters.patchId.value;
      ghost var verdict := PatchVerdict(it.deletions, it.additions, v, limit);
      triple := TripleDelta(0, false);
      while true
        invariant Valid() && it.filters == old(it.filters) && Rest() == old(Rest())
        decreases |it.ToDeliver(limit)|
      {
        ghost var m := it.ToDeliver(limit);
        DeltasStep(m, verdict);
        var key;
        found, key := it.Next(value);
        if !found {
          return;
        }
        var r := Judge(m[0]);
        if r.Some? {
          return true, TripleDelta(key, r.value);
        }
      }
    }
  }

  class ForwardDiffIterator {
    const it: PatchTreeIterator
    const value: PatchTreeValue
    const patchIdStart: int
    const patchIdEnd: int

    ghost predicate Valid()
      reads it, value, value.addition, value.addition.patches, value.addition.localChanges
      reads value.deletion, value.deletion.patches, value.deletion.localChanges, value.deletion.patchPositions
    {
      Walking(it, value)
    }

    /** What is still to be delivered. */
    ghost function Rest(): seq<TripleDelta>
      reads it, value.addition
      requires it.filters.patchId.Some?
    {
      Deltas(it.ToDeliver(value.addition.maxPatchId),
             DiffVerdict(it.deletions, it.additions, patchIdStart, patchIdEnd, value.addition.maxPatchId))
    }

    constructor (it: PatchTreeIterator, value: PatchTreeValue, patchIdStart: int, patchIdEnd: int)
      ensures this.it == it && this.value == value && this.patchIdStart == patchIdStart && this.patchIdEnd == patchIdEnd
    {
      this.it, this.value, this.patchIdStart, this.patchIdEnd := it, value, patchIdStart, patchIdEnd;
    }

    /** What becomes of a delivered triple. */
    method Judge(ghost f: Found) returns (verdict: Option<bool>)
      requires Valid() && Loaded(value, f, it.deletions, it.additions)
      ensures verdict == DiffVerdict(it.deletions, it.additions, patchIdStart, patchIdEnd, value.addition.maxPatchId)(f)
    {
      hide DeletionHit, AdditionHit, Stream, StopAt, StopsAreFinal, Ahead, AdditionReadable, Ids, PresentIn, PlaceOf;
      var same := value.IsDeltaTypeEqual(patchIdStart, patchIdEnd);
      if same {
        return None;
      }
      var addition := value.IsAddition(patchIdEnd);
      verdict := Some(addition);
    }

    method Next() returns (found: bool, triple: TripleDelta)
      requires Valid()
      modifies it, value, value.addition.patches, value.addition.localChanges
      modifies value.deletion.patches, value.deletion.localChanges, value.deletion.patchPositions
      ensures Valid()
      ensures var rest := old(Rest());
        if rest == [] then !found else found && triple == rest[0] && Rest() == rest[1..]
    {
      hide DeletionHit, AdditionHit, Stream, StopAt, StopsAreFinal, Readable, AdditionReadable, Ids, Merged,
           WithoutLocal, Deltas, PatchVerdict, DiffVerdict, PlaceOf, Ahead;
      ghost var limit := value.addition.maxPatchId;
      ghost var verdict := DiffVerdict(it.deletions, it.additions, patchIdStart, patchIdEnd, limit);
      triple := TripleDelta(0, false);
      while true
        invariant Valid() && it.filters == old(it.filters) && Rest() == old(Rest())
        decreases |it.ToDeliver(limit)|
      {
        ghost var m := it.ToDeliver(limit);
        DeltasStep(m, verdict);
        var key;
        found, key := it.Next(value);
        if !found {
          return;
        }
        var r := Judge(m[0]);
        if r.Some? {
          return true, TripleDelta(key, r.value);
        }
      }
    }
  }

  /** `single_delta_query` from the snapshot. The iterator delivers the two walks merged by the SPO comparator: the
      difference between the snapshot and version `end`, through whatever trees, if this is the order of the
      pattern. */
  method ForwardPatch(s: Store, ghost c: Chain, reduced: map<Key, DeletionData>, deletionKeys: seq<Key>,
                      additionKeys: seq<Key>, pattern: Triple, end: int)
    returns (r: ForwardPatchIterator)
    requires Queryable(s, c, end) && IsPattern(pattern) && IsReducedTree(reduced, s.deletions)
    requires IsIndex(deletionKeys, s.deletions.Keys, QueryOrder(pattern), s.vocabulary)
    requires IsIndex(additionKeys, s.additions.Keys, QueryOrder(pattern), s.vocabulary)
    ensures fresh(r) && r.Valid() && fresh(r.it) && FreshValue(r.value)
    ensures r.Rest() == PatchOut(Merged(WalkedOut(s, c, pattern, end), WalkedIn(s, c, pattern, end)), s,
                                 TreeFor(s, reduced, pattern), end)
    ensures WalksAgree(c, s.vocabulary, pattern, end) ==>
              TellsChange(r.Rest(), s, c, pattern, c.snapshot, Content(c, end))
    ensures MovedOnce(c, s.vocabulary, pattern, end) &&
            TellsChange(r.Rest(), s, c, pattern, c.snapshot, Content(c, end)) ==>
              WalksAgree(c, s.vocabulary, pattern, end)
  {
    hide Queryable, IsPattern, IsDefaultTree, IsIndex, TellsChange, Content, Deltas, PatchVerdict, WithoutLocal, Merged,
         Ids, WalkedOut, WalkedIn, WalkInOrder, Readable, AdditionReadable, DeletionHit, AdditionHit, StopAt,
         StopsAreFinal, Stream, Ahead, Loaded, QueryOrder, IsReducedTree, WalksAgree,
         MovedOnce;
    var dels := TreeFor(s, reduced, pattern);
    PatchWalk(s, c, dels, pattern, end);
    if MovedOnce(c, s.vocabulary, pattern, end) &&
       TellsChange(PatchOut(Merged(WalkedOut(s, c, pattern, end), WalkedIn(s, c, pattern, end)), s, dels, end), s, c,
                   pattern, c.snapshot, Content(c, end)) {
      PatchWalkOnly(s, c, dels, pattern, end);
    }
    MergeInOrder(s, c, pattern, end);
    var it, value := StartWalk(s, c, dels, deletionKeys, additionKeys, pattern, end, true);
    r := new ForwardPatchIterator(it, value);
  }

  /** `single_delta_query` from a patch, likewise: the difference between versions `start` and `end` of the chain;
      through the trees in other orders exactly if their values tell the changes. */
  method ForwardDiff(s: Store, ghost c: Chain, reduced: map<Key, DeletionData>, deletionKeys: seq<Key>,
                     additionKeys: seq<Key>, pattern: Triple, start: int, end: int)
    returns (r: ForwardDiffIterator)
    requires Queryable(s, c, end) && IsPattern(pattern) && IsReducedTree(reduced, s.deletions)
    requires IsIndex(deletionKeys, s.deletions.Keys, QueryOrder(pattern), s.vocabulary)
    requires IsIndex(additionKeys, s.additions.Keys, QueryOrder(pattern), s.vocabulary)
    requires c.min <= start <= end
    ensures fresh(r) && r.Valid() && fresh(r.it) && FreshValue(r.value)
    ensures r.Rest() == DiffOut(Merged(WalkedOut(s, c, pattern, end), WalkedIn(s, c, pattern, end)), s,
                                TreeFor(s, reduced, pattern), start, end)
    ensures WalksAgree(c, s.vocabulary, pattern, end) ==>
      (TellsChange(r.Rest(), s, c, pattern, Content(c, start), Content(c, end)) <==>
       IsDefaultTree(pattern) || ChangesTold(c, s.vocabulary, pattern, start, end))
  {
    hide Queryable, IsPattern, IsDefaultTree, IsIndex, TellsChange, Content, Deltas, DiffVerdict, WithoutLocal, Merged,
         Ids, WalkedOut, WalkedIn, WalkInOrder, Readable, AdditionReadable, QueryOrder, IsReducedTree, ChangesTold,
         Serves, TreeFor, DeletionHit, AdditionHit, StopAt, StopsAreFinal, Stream, Ahead, Loaded, WalksAgree;
    var dels := TreeFor(s, reduced, pattern);
    TreeDiff(s, c, reduced, pattern, start, end);
    MergeInOrder(s, c, pattern, end);
    var it, value := StartWalk(s, c, dels, deletionKeys, additionKeys, pattern, end, false);
    r := new ForwardDiffIterator(it, value, start, end);
  }
}
