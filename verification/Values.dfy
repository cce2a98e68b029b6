/** The values of the addition and the deletion trees: in which versions of a chain a triple is added or deleted. */
module Values {
  import opened OrderedKeys
  import opened Intervals
  import opened Positions

  const MAX := 0x7FFF_FFFF

  /** A stored addition value. */
  datatype AdditionData = AdditionData(patches: seq<Interval>, localChanges: seq<Interval>)

  /** A stored deletion value. */
  datatype DeletionData = DeletionData(patches: seq<Interval>, localChanges: seq<Interval>,
                                       positions: seq<VersionPositions>)

  /** One entry of a deletion value, spelled out. */
  datatype DeletionElement = DeletionElement(patchId: int, localChange: bool, positions: PatchPositions)

  /** From version `w` on nothing changes any more. */
  ghost predicate Steady(iv: seq<Interval>, w: int) {
    forall x :: w <= x < MAX ==> (In(iv, x) <==> In(iv, w))
  }

  /** `after` also holds everything from `v` on. */
  ghost predicate OpenedAt(before: seq<Interval>, v: int, after: seq<Interval>) {
    && WellFormed(after, MAX)
    && forall x :: In(after, x) <==> In(before, x) || v <= x < MAX
  }

  /** `after` holds nothing from `v` on any more. */
  ghost predicate ClosedAt(before: seq<Interval>, v: int, after: seq<Interval>) {
    && WellFormed(after, MAX)
    && forall x :: In(after, x) <==> In(before, x) && x < v
  }

  /** A run is maximal: the ids just before and just after it are missing. */
  lemma Edges(iv: seq<Interval>, i: nat)
    requires WellFormed(iv, MAX) && i < |iv|
    ensures In(iv, iv[i].start) && !In(iv, iv[i].start - 1)
    ensures In(iv, iv[i].end - 1) && !In(iv, iv[i].end)
    ensures i == 0 ==> forall x :: In(iv, x) ==> iv[0].start <= x
  {
    InAt(iv, i, iv[i].start);
    InAt(iv, i, iv[i].end - 1);
    Outside(iv, MAX, i);
    Split(iv, i);
    if i == 0 { assert iv[..0] == []; }
  }

  /** Lists of runs with the same ids are the same list. */
  lemma {:induction false} Canonical(a: seq<Interval>, b: seq<Interval>)
    requires WellFormed(a, MAX) && WellFormed(b, MAX)
    requires forall x :: In(a, x) <==> In(b, x)
    ensures a == b
  {
    if a != [] && b != [] {
      TailWellFormed(a, MAX);
      TailWellFormed(b, MAX);
      Edges(a, 0);
      Edges(b, 0);
      assert a[0] == b[0];
      Canonical(a[1..], b[1..]);
      assert a == [a[0]] + a[1..] && b == [b[0]] + b[1..];
    } else {
      if a != [] { InAt(a, 0, a[0].start); }
      if b != [] { InAt(b, 0, b[0].start); }
    }
  }

  /** In a list that is steady from `w`, no run starts after `w`. */
  lemma SteadyNext(iv: seq<Interval>, w: int, e: int)
    requires WellFormed(iv, MAX) && Steady(iv, w) && w <= e < MAX
    ensures NextStart(iv, e, MAX) == MAX
  {
    var i := LowerBound(iv, e + 1);
    if i < |iv| {
      Edges(iv, i);
    }
  }

  lemma SteadyStart(iv: seq<Interval>, w: int)
    requires WellFormed(iv, MAX) && Steady(iv, w)
    ensures iv != [] ==> iv[0].start <= w
  {
    if iv != [] { Edges(iv, 0); }
  }

  lemma AddedSteady(before: seq<Interval>, w: int, v: int, after: seq<Interval>)
    requires WellFormed(before, MAX) && WellFormed(after, MAX) && Steady(before, w) && w <= v < MAX
    requires Added(before, MAX, v, after)
    ensures OpenedAt(before, v, after)
  {
    SteadyNext(before, w, v);
    assert In(before, v) ==> forall x :: v <= x < MAX ==> In(before, x);
  }

  lemma DeletedSteady(before: seq<Interval>, w: int, v: int, after: seq<Interval>)
    requires WellFormed(before, MAX) && WellFormed(after, MAX) && Steady(before, w) && w <= v < MAX
    requires Deleted(before, MAX, v, after)
    ensures ClosedAt(before, v, after)
  {
    SteadyNext(before, w, v);
    forall x | In(before, x) ensures x < MAX {
      var i :| 0 <= i < |before| && before[i].start <= x < before[i].end;
    }
    assert !In(before, v) ==> forall x :: v <= x < MAX ==> !In(before, x);
  }

  /** What the plain list of a steady value shows a reader who knows of the versions before `limit`: all of them, with
      the one in force last. */
  lemma SteadyListed(iv: seq<Interval>, v: int, limit: int)
    requires WellFormed(iv, MAX) && Steady(iv, v - 1) && iv != [] && v <= limit <= MAX
    ensures Overrun(iv, MAX, limit) == 0
    ensures var ids := Ids(iv, MAX, limit);
      && ids != [] && ids[0] == iv[0].start
      && (forall x :: x in ids <==> In(iv, x) && x < limit)
      && (In(iv, v - 1) ==> ids[|ids| - 1] == limit - 1)
      && (!In(iv, v - 1) ==> ids[|ids| - 1] < v - 1)
  {
    var ids := Ids(iv, MAX, limit);
    SteadyIds(iv, v, limit);
    IdsCorrect(iv, MAX, limit);
    Edges(iv, 0);
    SteadyRuns(iv, v);
    FirstListed(ids, iv[0].start);
    var last := ids[|ids| - 1];
    assert last in ids;
    if In(iv, v - 1) {
      LastListed(ids, limit - 1);
    }
  }

  /** The same, without the list in full. */
  lemma ListedEnds(iv: seq<Interval>, v: int, limit: int)
    requires WellFormed(iv, MAX) && Steady(iv, v - 1) && iv != [] && v <= limit <= MAX
    ensures var ids := Ids(iv, MAX, limit);
      && Overrun(iv, MAX, limit) == 0 && ids != [] && ids[0] == iv[0].start < v
      && (In(iv, v - 1) ==> ids[|ids| - 1] == limit - 1)
      && (!In(iv, v - 1) ==> ids[|ids| - 1] < v - 1)
      && In(iv, ids[|ids| - 1])
      && (limit == v ==> PlaceOf(ids, v) == -1)
  {
    SteadyListed(iv, v, limit);
    SteadyRuns(iv, v);
    var ids := Ids(iv, MAX, limit);
    var last := ids[|ids| - 1];
    assert last in ids;
  }

  /** In a list that is steady from `v - 1`, every run has started, and every end has come, before `v`. */
  lemma SteadyRuns(iv: seq<Interval>, v: int)
    requires WellFormed(iv, MAX) && Steady(iv, v - 1)
    ensures forall i :: 0 <= i < |iv| ==> iv[i].start < v && (iv[i].end < v || iv[i].end == MAX)
  {
    forall i | 0 <= i < |iv| ensures iv[i].start < v && (iv[i].end < v || iv[i].end == MAX) {
      Edges(iv, i);
    }
  }

  lemma SteadyIds(iv: seq<Interval>, v: int, limit: int)
    requires WellFormed(iv, MAX) && Steady(iv, v - 1) && v <= limit <= MAX
    ensures forall x :: x in Ids(iv, MAX, limit) <==> In(iv, x) && x < limit
  {
    IdsCorrect(iv, MAX, limit);
    SteadyRuns(iv, v);
    assert forall x :: InEnded(iv, MAX, x) ==> x < v;
  }

  lemma FirstListed(ids: seq<int>, s: int)
    requires Increasing(ids) && s in ids && forall x :: x in ids ==> s <= x
    ensures ids[0] == s
  {
    var f := ids[0];
    assert f in ids;
    var i :| 0 <= i < |ids| && ids[i] == s;
  }

  lemma LastListed(ids: seq<int>, s: int)
    requires Increasing(ids) && s in ids && forall x :: x in ids ==> x <= s
    ensures ids[|ids| - 1] == s
  {
    var f := ids[|ids| - 1];
    assert f in ids;
    var i :| 0 <= i < |ids| && ids[i] == s;
  }
}
