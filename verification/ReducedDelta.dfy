/** Differences between versions through the trees in other orders, whose values have lost their gaps. */
module ReducedDeltas {
  import opened OrderedKeys
  import opened Intervals
  import opened Values
  import opened DeletionValues
  import opened ChainHistory
  import opened Ingestion
  import opened Ranks
  import opened Dictionaries
  import opened TreeValues
  import opened PatchTreeIterators
  import opened ChainReading
  import opened VersionQueries
  import opened LaterDeletions
  import opened DeltaVerdicts

  /** The gaps that a reduced value has lost do not matter to a delta from the snapshot, which asks of a deletion only
      where it begins. */
  lemma ReducedPatchSame(deletions: map<Key, DeletionData>, reduced: map<Key, DeletionData>,
                         additions: map<Key, AdditionData>, v: int, limit: int, f: Found)
    requires reduced.Keys == deletions.Keys && limit <= MAX
    requires forall k :: k in deletions ==>
      WellFormed(deletions[k].patches, MAX) && deletions[k].patches != [] && deletions[k].patches[0].start < limit &&
      reduced[k] == Reduced(deletions[k])
    ensures PatchVerdict(reduced, additions, v, limit)(f) == PatchVerdict(deletions, additions, v, limit)(f)
  {
    if f.deleted && f.key in deletions {
      FirstOfRuns(deletions[f.key].patches, limit);
      FirstOfRuns(Reduced(deletions[f.key]).patches, limit);
    }
  }

  lemma FirstOfRuns(iv: seq<Interval>, limit: int)
    requires WellFormed(iv, MAX) && iv != [] && iv[0].start < limit
    ensures Ids(iv, MAX, limit) != [] && Ids(iv, MAX, limit)[0] == iv[0].start
  {
  }

  /** The versions up to `v` that hold a triple which has not gone yet. */
  ghost function StayUpTo(c: Chain, k: Key, v: int): set<int> {
    set u | c.min <= u <= v && k in Content(c, u) && GoneUpTo(c, k, u) == {}
  }

  /** Where a reduced value tells that a triple is: a triple of the snapshot until it is lost for the first time,
      another one as long as it has been gone for fewer versions than it had stayed at first. */
  ghost predicate SeenPresent(c: Chain, k: Key, v: int) {
    if k in c.snapshot then forall w :: c.min <= w <= v ==> k in Content(c, w)
    else k in Content(c, v) && |GoneUpTo(c, k, v)| < |StayUpTo(c, k, v)|
  }

  /** The place of a version in a list is the number of versions before it. */
  lemma PlaceIsCount(iv: seq<Interval>, limit: int, u: int)
    requires WellFormed(iv, MAX) && iv != [] && In(iv, u) && u < limit <= MAX
    ensures PlaceOf(Ids(iv, MAX, limit), u) == |HeldIn(iv, iv[0].start, u)|
  {
    hide Ids, In;
    var ids := Ids(iv, MAX, limit);
    IdsCorrect(iv, MAX, limit);
    Edges(iv, 0);
    PlaceInList(ids, u);
    var place := PlaceOf(ids, u);
    var before := ids[..place];
    forall x ensures x in before <==> x in HeldIn(iv, iv[0].start, u) {
      if x in before {
        var i :| 0 <= i < |before| && before[i] == x;
        assert ids[i] in ids;
      }
      if x in HeldIn(iv, iv[0].start, u) {
        var i :| 0 <= i < |ids| && ids[i] == x;
        assert i < place && before[i] == x;
      }
    }
    ListedSet(before, HeldIn(iv, iv[0].start, u));
  }

  /** One open run lists everything from its start on. */
  lemma OpenRunPlace(start: int, limit: int, u: int)
    requires start < limit <= MAX && u < limit
    ensures var ids := Ids([Interval(start, MAX)], MAX, limit);
      ids != [] && ids[0] == start && PlaceOf(ids, u) == if start <= u then u - start else -1
  {
    var ids := Ids([Interval(start, MAX)], MAX, limit);
    var none: seq<Interval> := [];
    IdsFirst(Interval(start, MAX), none, MAX, limit);
    assert [Interval(start, MAX)] + none == [Interval(start, MAX)];
    assert ids == Run(start, limit);
    RunMembers(start, limit, u);
    if start <= u { IncreasingPlace(ids, u, u - start); }
  }

  /** A triple of the snapshot. */
  lemma ReducedOfSnapshot(e: Entry, k: Key, c: Chain, limit: int, u: int)
    requires Represents(e, k, c.snapshot, c.history, c.min) && k in c.snapshot && e.del != []
    requires c.min <= u < limit <= MAX && limit == c.min + |c.history| && e.del[0].start < limit
    ensures SeenPresent(c, k, u) <==> u < e.del[0].start
    ensures e.add != [] ==> e.del[0].start < e.add[0].start
    ensures e.add != [] && e.add[0].start < limit && In(e.add, u) ==>
              PlaceOf(Ids(e.add, MAX, limit), u) <= u - e.add[0].start && e.add[0].start <= u
  {
    hide Ids;
    forall w | c.min <= w < c.min + |c.history|
      ensures Member(k, w, c.snapshot, c.history, c.min) == (k in Content(c, w)) {}
    hide Content, Member;
    assert k !in Content(c, e.del[0].start);
    if e.add != [] {
      Edges(e.add, 0);
      if In(e.add, u) {
        PlaceIsCount(e.add, limit, u);
        HeldOrMissed(e.add, e.add[0].start, u);
      }
    }
  }

  /** A triple that the snapshot lacks. */
  lemma ReducedOfNew(e: Entry, k: Key, c: Chain, limit: int, u: int)
    requires Represents(e, k, c.snapshot, c.history, c.min) && k !in c.snapshot && e.add != [] && 0 < c.min
    requires c.min <= u < limit <= MAX && limit == c.min + |c.history|
    ensures (In(e.add, u) <==> k in Content(c, u)) && (!In(e.add, u) ==> !SeenPresent(c, k, u))
    ensures e.add[0].start >= c.min && (e.del != [] ==> e.add[0].start < e.del[0].start)
    ensures e.del == [] || u < e.del[0].start ==> (SeenPresent(c, k, u) <==> In(e.add, u))
    ensures e.del != [] && e.del[0].start <= u && In(e.add, u) ==>
              (SeenPresent(c, k, u) <==> u - e.del[0].start < PlaceOf(Ids(e.add, MAX, limit), u))
  {
    hide Ids;
    var b := e.add[0].start;
    NewMembers(e, k, c);
    if e.del != [] { Edges(e.del, 0); }
    hide Content, WellFormed, In;
    GoneAreDeleted(e, k, c, u);
    if e.del == [] || u < e.del[0].start {
      assert GoneUpTo(c, k, u) == {};
      if In(e.add, u) { assert u in StayUpTo(c, k, u); }
    } else if In(e.add, u) {
      var d := e.del[0].start;
      PlaceIsCount(e.add, limit, u);
      HeldOrMissed(e.add, b, u);
      assert MissedIn(e.add, b, u) == GoneUpTo(c, k, u);
      StayIsFirstRun(e, k, c, u);
    }
  }

  lemma NewMembers(e: Entry, k: Key, c: Chain)
    requires Represents(e, k, c.snapshot, c.history, c.min) && k !in c.snapshot && e.add != [] &&
             c.min + |c.history| <= MAX
    ensures c.min <= e.add[0].start < c.min + |c.history| && k in Content(c, e.add[0].start)
    ensures forall w :: c.min <= w < c.min + |c.history| ==> (In(e.add, w) <==> k in Content(c, w))
    ensures forall w :: c.min <= w < c.min + |c.history| ==>
            (In(e.del, w) <==> k !in Content(c, w) && e.add[0].start <= w)
    ensures forall w :: In(e.add, w) || In(e.del, w) ==> e.add[0].start <= w
    ensures WellFormed(e.add, MAX) && WellFormed(e.del, MAX)
  {
    forall w | c.min <= w < c.min + |c.history|
      ensures Member(k, w, c.snapshot, c.history, c.min) == (k in Content(c, w)) {}
  }

  lemma GoneAreDeleted(e: Entry, k: Key, c: Chain, u: int)
    requires e.add != [] && c.min <= e.add[0].start < c.min + |c.history| && k in Content(c, e.add[0].start)
    requires c.min <= u < c.min + |c.history|
    requires forall w :: c.min <= w < c.min + |c.history| ==> (In(e.add, w) <==> k in Content(c, w))
    requires forall w :: c.min <= w < c.min + |c.history| ==>
             (In(e.del, w) <==> k !in Content(c, w) && e.add[0].start <= w)
    requires forall w :: In(e.add, w) || In(e.del, w) ==> e.add[0].start <= w
    ensures forall w :: w in GoneUpTo(c, k, u) <==> c.min <= w <= u && In(e.del, w)
  {
    hide Content, In;
    forall w ensures w in GoneUpTo(c, k, u) <==> c.min <= w <= u && In(e.del, w) {
      if c.min <= w <= u && In(e.del, w) {
        assert e.add[0].start != w;
      }
    }
  }

  /** Until its first deletion the triple stays. */
  lemma StayIsFirstRun(e: Entry, k: Key, c: Chain, u: int)
    requires e.add != [] && c.min <= e.add[0].start < c.min + |c.history| && k in Content(c, e.add[0].start)
    requires e.del != [] && e.add[0].start < e.del[0].start <= u < c.min + |c.history|
    requires forall w :: c.min <= w < c.min + |c.history| ==> (In(e.add, w) <==> k in Content(c, w))
    requires forall w :: c.min <= w < c.min + |c.history| ==>
             (In(e.del, w) <==> k !in Content(c, w) && e.add[0].start <= w)
    requires forall w :: In(e.add, w) || In(e.del, w) ==> e.add[0].start <= w
    requires In(e.del, e.del[0].start) && forall w :: In(e.del, w) ==> e.del[0].start <= w
    ensures |StayUpTo(c, k, u)| == e.del[0].start - e.add[0].start
  {
    hide Content, In;
    var b, d := e.add[0].start, e.del[0].start;
    HeldOrMissed(e.add, b, d);
    assert MissedIn(e.add, b, d) == {};
    forall w ensures w in StayUpTo(c, k, u) <==> w in HeldIn(e.add, b, d) {
      if c.min <= w <= u {
        GoneAreDeleted(e, k, c, w);
        if w < d { assert GoneUpTo(c, k, w) == {}; } else { assert d in GoneUpTo(c, k, w); }
      }
    }
    assert StayUpTo(c, k, u) == HeldIn(e.add, b, d);
  }

  /** What is told of a delivered triple through a tree of reduced values. */
  lemma ReducedPresent(s: Store, c: Chain, reduced: map<Key, DeletionData>, k: Key, v: int, u: int)
    requires Queryable(s, c, v) && c.min <= u <= v && (DeletedBy(s, k, v) || AddedBy(s, k, v))
    requires IsReducedTree(reduced, s.deletions)
    ensures var f, limit := At(s, k, DeletedBy(s, k, v), AddedBy(s, k, v)), s.maxPatchId + 1;
      PresentIn(AddedIds(f, s.additions, limit), DeletedIds(f, reduced, limit), u) <==> SeenPresent(c, k, u)
  {
    hide RanksTrue, CountsTrue, RanksOk, Dictionary, Represents, Ids, WellFormed, In, SeenPresent, Untouched, Born,
         Content;
    var e, limit := s.Nodes().EntryOf(k), s.maxPatchId + 1;
    WithinChain(s, c, v);
    BirthOrder(s, c, k, v);
    FullView(s, c, v, k);
    assert Represents(e, k, c.snapshot, c.history, c.min);
    if DeletedBy(s, k, v) { OpenRunPlace(e.del[0].start, limit, u); }
    ListedIffIn(e.add, u, limit);
    if k in c.snapshot {
      ReducedOfSnapshot(e, k, c, limit, u);
    } else {
      ReducedOfNew(e, k, c, limit, u);
    }
  }

  /** Between two versions a triple is told rightly through a tree of reduced values if and only if these tell a change
      exactly where there is one. */
  lemma ReducedDiffIff(s: Store, c: Chain, reduced: map<Key, DeletionData>, k: Key, start: int, end: int)
    requires Queryable(s, c, end) && c.min <= start <= end && (DeletedBy(s, k, end) || AddedBy(s, k, end))
    requires IsReducedTree(reduced, s.deletions)
    ensures var f, limit := At(s, k, DeletedBy(s, k, end), AddedBy(s, k, end)), s.maxPatchId + 1;
      DiffVerdict(reduced, s.additions, start, end, limit)(f) ==
        (if (k in Content(c, start)) == (k in Content(c, end)) then None else Some(k in Content(c, end))) <==>
      (SeenPresent(c, k, start) == SeenPresent(c, k, end) <==> (k in Content(c, start)) == (k in Content(c, end)))
  {
    hide Queryable, Ids, PlaceOf, Content, Untouched, Born, FirstDeleted, PresentIn, SeenPresent;
    ReducedPresent(s, c, reduced, k, end, start);
    ReducedPresent(s, c, reduced, k, end, end);
    PresentTold(s, c, k, end, end);
    if k in Content(c, end) && k !in Content(c, start) { AddedIfNew(s, c, k, start, end); }
  }

  /** So a triple of the snapshot that is lost in one version and back in the other is never told. */
  lemma ComesBackUntold(s: Store, c: Chain, reduced: map<Key, DeletionData>, k: Key, start: int, end: int)
    requires Queryable(s, c, end) && c.min <= start <= end && (DeletedBy(s, k, end) || AddedBy(s, k, end))
    requires IsReducedTree(reduced, s.deletions)
    requires k in c.snapshot && k !in Content(c, start) && k in Content(c, end)
    ensures var f, limit := At(s, k, DeletedBy(s, k, end), AddedBy(s, k, end)), s.maxPatchId + 1;
      && DiffVerdict(reduced, s.additions, start, end, limit)(f) == None
      && DiffVerdict(s.deletions, s.additions, start, end, limit)(f) == Some(true)
  {
    hide Queryable, Ids, PlaceOf, Content, FirstDeleted, PresentIn, IsReducedTree, AddedIds, DeletedIds, DeletedBy,
         AddedBy;
    ReducedPresent(s, c, reduced, k, end, start);
    ReducedPresent(s, c, reduced, k, end, end);
    assert !SeenPresent(c, k, start) && !SeenPresent(c, k, end);
    DiffVerdictRight(s, c, k, start, end);
  }
}
