/** The value of one triple in the deletion trees, held as runs of versions and a list of rank changes. */
module DeletionValues {
  import opened OrderedKeys
  import opened Intervals
  import opened Positions
  import opened Values

  /** What is stored for one version. */
  ghost function ElementFor(d: DeletionData, patchId: int): DeletionElement {
    DeletionElement(patchId, In(d.localChanges, patchId), RanksAt(d.positions, patchId))
  }

  /** What `get_size` answers a reader who knows of no version at or past `limit`. */
  function SizeSeen(d: DeletionData, limit: int): int {
    |Ids(d.patches, MAX, limit)| - Overrun(d.patches, MAX, limit)
  }

  /** What `to_reduced` keeps: one run from the first version on, and one from the first local change on. */
  function Reduced(d: DeletionData): DeletionData {
    DeletionData(if d.patches == [] then [] else [Interval(d.patches[0].start, MAX)],
                 if d.localChanges == [] then [] else [Interval(d.localChanges[0].start, MAX)], [])
  }

  /** The deletion trees in the other orders hold every triple of the SPO tree with its reduced value. */
  ghost predicate IsReducedTree(reduced: map<Key, DeletionData>, deletions: map<Key, DeletionData>) {
    && reduced.Keys == deletions.Keys
    && forall k :: k in reduced ==> deletions[k].patches != [] && reduced[k] == Reduced(deletions[k])
  }

  /** The flags and ranks can be looked up for every listed version. */
  ghost predicate Readable(d: DeletionData) {
    && WellFormed(d.patches, MAX) && WellFormed(d.localChanges, MAX) && InOrder(d.positions)
    && (d.localChanges != [] && d.patches != [] ==> d.localChanges[0].start <= d.patches[0].start)
    && (d.positions != [] && d.patches != [] ==> d.positions[0].patchId <= d.patches[0].start)
  }

  /** The flags and ranks can be looked up for version `x`: they do not begin after it. */
  ghost predicate BegunBy(d: DeletionData, x: int) {
    && (d.localChanges == [] || d.localChanges[0].start <= x)
    && (d.positions == [] || d.positions[0].patchId <= x)
  }

  /** The version that `get` answers for, to a reader who knows of no version at or past `limit`. */
  ghost function VersionRead(d: DeletionData, patchId: int, limit: int): int {
    var k, size := PlaceOf(Ids(d.patches, MAX, limit), patchId), SizeSeen(d, limit);
    IdAt(d.patches, MAX, limit, if k < 0 || k >= size then size - 1 else k)
  }

  class DeletionValue {
    const patches: IntervalList
    const localChanges: IntervalList
    const patchPositions: PositionsContainer
    const maxPatchId: int  // one past the last version this reader knows of

    ghost predicate Valid()
      reads this, patches, localChanges, patchPositions
    {
      && patches != localChanges
      && patches.max == localChanges.max == MAX
      && patches.Valid() && localChanges.Valid() && patchPositions.Valid()
    }

    ghost function Data(): DeletionData
      reads patches, localChanges, patchPositions
    {
      DeletionData(patches.intervals, localChanges.intervals, patchPositions.positionVec)
    }

    ghost function Listed(): seq<int>
      reads patches
    {
      Ids(patches.intervals, MAX, maxPatchId)
    }

    constructor (maxPatchId: int)
      ensures Valid() && Data() == DeletionData([], [], []) && this.maxPatchId == maxPatchId + 1
      ensures fresh(patches) && fresh(localChanges) && fresh(patchPositions)
    {
      patches := new IntervalList(MAX);
      localChanges := new IntervalList(MAX);
      patchPositions := new PositionsContainer();
      this.maxPatchId := maxPatchId + 1;
    }

    method Load(d: DeletionData)
      requires Valid() && WellFormed(d.patches, MAX) && WellFormed(d.localChanges, MAX) && InOrder(d.positions)
      modifies patches, localChanges, patchPositions
      ensures Valid() && Data() == d
    {
      patches.intervals := d.patches;
      localChanges.intervals := d.localChanges;
      patchPositions.positionVec := d.positions;
    }

    method Store() returns (d: DeletionData)
      requires Valid()
      ensures d == Data()
    {
      return DeletionData(patches.intervals, localChanges.intervals, patchPositions.positionVec);
    }

    method Add(element: DeletionElement) returns (hasChanged: bool)
      requires Valid() && element.patchId < MAX
      requires patches.Reaches(element.patchId) && localChanges.Reaches(element.patchId)
      requires patchPositions.Reaches(element.patchId)
      modifies patches, localChanges, patchPositions
      ensures Valid()
      ensures Added(old(patches.intervals), MAX, element.patchId, patches.intervals)
      ensures if element.localChange
              then Added(old(localChanges.intervals), MAX, element.patchId, localChanges.intervals)
              else localChanges.intervals == old(localChanges.intervals)
      ensures Stored(old(patchPositions.positionVec), element.patchId, element.positions, patchPositions.positionVec)
      ensures patchPositions.positionVec != []
      ensures patchPositions.positionVec[0].patchId ==
              if old(patchPositions.positionVec) == [] then element.patchId
              else old(patchPositions.positionVec[0].patchId)
      ensures old(In(patches.intervals, element.patchId)) ==> patches.intervals == old(patches.intervals)
      ensures old(In(localChanges.intervals, element.patchId)) ==> localChanges.intervals == old(localChanges.intervals)
      ensures patchPositions.positionVec[|patchPositions.positionVec| - 1].patchId <= element.patchId ||
              (old(patchPositions.positionVec) != [] &&
               patchPositions.positionVec[|patchPositions.positionVec| - 1].patchId <=
                 old(patchPositions.positionVec[|patchPositions.positionVec| - 1].patchId))
      ensures !hasChanged ==> Data() == old(Data())
    {
      hasChanged := patches.Addition(element.patchId);
      if element.localChange {
        var l := localChanges.Addition(element.patchId);
        hasChanged := hasChanged || l;
      }
      var p := patchPositions.InsertPositions(element.patchId, element.positions);
      hasChanged := hasChanged || p;
    }

    /** The ranks stay where they are: the container never forgets a version. */
    method Del(patchId: int) returns (hasChanged: bool)
      requires Valid() && patches.Reaches(patchId) && localChanges.Reaches(patchId)
      modifies patches, localChanges
      ensures Valid() && patchPositions.positionVec == old(patchPositions.positionVec)
      ensures Deleted(old(patches.intervals), MAX, patchId, patches.intervals)
      ensures Deleted(old(localChanges.intervals), MAX, patchId, localChanges.intervals)
      ensures !old(In(patches.intervals, patchId)) ==> patches.intervals == old(patches.intervals)
      ensures !old(In(localChanges.intervals, patchId)) ==> localChanges.intervals == old(localChanges.intervals)
      ensures !hasChanged ==> Data() == old(Data())
    {
      hasChanged := patches.Deletion(patchId);
      var l := localChanges.Deletion(patchId);
      hasChanged := hasChanged || l;
    }

    method GetPatchvalueIndex(patchId: int) returns (r: int)
      requires Valid() && maxPatchId <= MAX
      ensures r == PlaceOf(Listed(), patchId)
    {
      r := patches.GetIndex(patchId, maxPatchId);
    }

    method GetSize() returns (r: int)
      requires Valid()
      ensures r == SizeSeen(Data(), maxPatchId)
    {
      r := patches.GetSize(maxPatchId);
    }

    method GetPatchAt(index: int) returns (r: DeletionElement)
      requires Valid() && maxPatchId <= MAX
      requires (Readable(Data()) && 0 <= index < |Listed()|) ||
               BegunBy(Data(), IdAt(patches.intervals, MAX, maxPatchId, index))
      ensures r == ElementFor(Data(), IdAt(patches.intervals, MAX, maxPatchId, index))
      ensures 0 <= index < |Listed()| ==> r == ElementFor(Data(), Listed()[index])
    {
      if Readable(Data()) && 0 <= index < |Listed()| { ListedReadable(Data(), maxPatchId, index); }
      var patchId := patches.GetElementAt(index, maxPatchId);
      var localChange := localChanges.IsIn(patchId);
      var p := patchPositions.GetPositions(patchId, UNSET);
      r := DeletionElement(patchId, localChange, p);
    }

    /** The entry for a version, or the last entry when there seems to be none; when there seems to be no entry at all,
        what is stored for a version before the first one, if anything is. */
    method Get(patchId: int) returns (r: DeletionElement)
      requires Valid() && maxPatchId <= MAX && BegunBy(Data(), VersionRead(Data(), patchId, maxPatchId))
      ensures r == ElementFor(Data(), VersionRead(Data(), patchId, maxPatchId))
    {
      var index := GetPatchvalueIndex(patchId);
      var size := GetSize();
      if index < 0 || index >= size {
        r := GetPatchAt(size - 1);
      } else {
        r := GetPatchAt(index);
      }
    }

    /** `to_reduced` adds the listed versions one by one to interval lists; these close no run, so the gaps are lost. */
    method ToReduced() returns (d: DeletionData)
      requires Valid() && Readable(Data()) && maxPatchId <= MAX && SizeSeen(Data(), maxPatchId) > 0
      requires patches.intervals != []
      requires localChanges.intervals == [] || localChanges.intervals == patches.intervals
      ensures d == Reduced(Data())
    {
      hide Ids, Overrun, RanksAt, In, Added, InOrder, IdAt, BegunBy;
      ghost var first := patches.intervals[0].start;
      assert forall x :: !In([], x) by { NothingIn(); }
      var ids := new IntervalList(MAX);
      var flags := new IntervalList(MAX);
      var size := GetSize();
      var i := 0;
      while i < size
        invariant 0 <= i <= size && ids.Valid() && flags.Valid() && ids.max == MAX && flags.max == MAX
        invariant fresh(ids) && fresh(flags) && ids != flags
        invariant ids.intervals == if i == 0 then [] else [Interval(first, MAX)]
        invariant flags.intervals == if localChanges.intervals == [] then [] else ids.intervals
      {
        ListedStart(patches.intervals, maxPatchId, i);
        var e := GetPatchAt(i);
        AddReduced(ids, flags, e, first);
        i := i + 1;
      }
      return DeletionData(ids.intervals, flags.intervals, []);
    }

    method IsLocalChange(patchId: int) returns (r: bool)
      requires Valid() && Readable(Data()) && maxPatchId <= MAX
      requires var k, size := PlaceOf(Listed(), patchId), SizeSeen(Data(), maxPatchId); k >= 0 || size >= 0
      ensures var k, size := PlaceOf(Listed(), patchId), SizeSeen(Data(), maxPatchId);
              r <==> size != 0 && In(localChanges.intervals, if k >= 0 then patchId else Listed()[size - 1])
    {
      var size := GetSize();
      if size == 0 {
        return false;
      }
      var index := GetPatchvalueIndex(patchId);
      var e;
      if index >= 0 {
        e := GetPatchAt(index);
      } else {
        e := GetPatchAt(size - 1);
      }
      return e.localChange;
    }
  }

  lemma ListedReadable(d: DeletionData, limit: int, i: nat)
    requires Readable(d) && limit <= MAX && i < |Ids(d.patches, MAX, limit)|
    ensures BegunBy(d, Ids(d.patches, MAX, limit)[i])
  {
    IdsCorrect(d.patches, MAX, limit);
    var x := Ids(d.patches, MAX, limit)[i];
    assert x in Ids(d.patches, MAX, limit);
    if d.patches != [] { Edges(d.patches, 0); }
  }

  /** If there seems to be an entry, `get` answers for a version of the value: the version itself if its place seems to
      exist, else the last one that seems to. */
  lemma ReadsListed(d: DeletionData, patchId: int, limit: int)
    requires Readable(d) && limit <= MAX && SizeSeen(d, limit) > 0
    ensures BegunBy(d, VersionRead(d, patchId, limit))
    ensures var ids, size := Ids(d.patches, MAX, limit), SizeSeen(d, limit);
      VersionRead(d, patchId, limit) == if 0 <= PlaceOf(ids, patchId) < size then patchId else ids[size - 1]
  {
    var ids, size := Ids(d.patches, MAX, limit), SizeSeen(d, limit);
    var k := PlaceOf(ids, patchId);
    ListedReadable(d, limit, if k < 0 || k >= size then size - 1 else k);
  }

  /** If there seems to be none, it looks below the first version of the value. */
  lemma ReadsBelow(d: DeletionData, patchId: int, limit: int)
    requires Readable(d) && d.patches != [] && limit <= MAX && SizeSeen(d, limit) <= 0
    ensures VersionRead(d, patchId, limit) == d.patches[0].start + SizeSeen(d, limit) - 1
  {
    var iv := d.patches;
    TotalLengthCorrect(iv, MAX, limit);
    if |iv| == 1 { assert iv[1..] == []; } else { assert iv[0].end < iv[1].start < iv[1].end <= MAX; }
  }

  /** So the ranks of a stored value can be read exactly if there seems to be an entry. */
  lemma GetDefinedIff(d: DeletionData, patchId: int, limit: int)
    requires Readable(d) && d.patches != [] && limit <= MAX
    requires d.positions != [] && d.positions[0].patchId == d.patches[0].start
    ensures BegunBy(d, VersionRead(d, patchId, limit)) <==> SizeSeen(d, limit) > 0
  {
    hide SizeSeen, VersionRead, WellFormed;
    if SizeSeen(d, limit) > 0 { ReadsListed(d, patchId, limit); } else { ReadsBelow(d, patchId, limit); }
  }

  method AddReduced(ids: IntervalList, flags: IntervalList, e: DeletionElement, ghost first: int)
    requires ids.Valid() && flags.Valid() && ids.max == MAX && flags.max == MAX && ids != flags
    requires first <= e.patchId < MAX && (ids.intervals == [] ==> e.patchId == first)
    requires ids.intervals == [] || ids.intervals == [Interval(first, MAX)]
    requires flags.intervals == [] || flags.intervals == ids.intervals
    requires e.localChange ==> flags.intervals == ids.intervals
    modifies ids, flags
    ensures ids.Valid() && flags.Valid()
    ensures ids.intervals == [Interval(first, MAX)]
    ensures flags.intervals == if e.localChange then ids.intervals else old(flags.intervals)
  {
    hide In, Added;
    InOpenRun(first, e.patchId);
    ghost var before, flagged := ids.intervals, flags.intervals;
    var changed := ids.Addition(e.patchId);
    OpenRun(before, e.patchId, ids.intervals);
    if e.localChange {
      changed := flags.Addition(e.patchId);
      OpenRun(flagged, e.patchId, flags.intervals);
    }
  }

  /** The listed versions begin with the first run, and are stored. */
  lemma ListedStart(iv: seq<Interval>, limit: int, i: nat)
    requires WellFormed(iv, MAX) && limit <= MAX && i < |Ids(iv, MAX, limit)|
    ensures var x := Ids(iv, MAX, limit)[i]; In(iv, x) && iv != [] && iv[0].start <= x < MAX
    ensures i == 0 && 0 < |Ids(iv, MAX, limit)| - Overrun(iv, MAX, limit) ==> Ids(iv, MAX, limit)[0] == iv[0].start
  {
    var ids := Ids(iv, MAX, limit);
    IdsCorrect(iv, MAX, limit);
    var x := ids[i];
    assert x in ids;
    Edges(iv, 0);
    var j :| 0 <= j < |iv| && iv[j].start <= x < iv[j].end;
    if i == 0 && 0 < |ids| - Overrun(iv, MAX, limit) {
      FirstRunListed(iv, limit);
    }
  }

  lemma FirstRunListed(iv: seq<Interval>, limit: int)
    requires WellFormed(iv, MAX) && iv != [] && limit <= MAX && 0 < |Ids(iv, MAX, limit)| - Overrun(iv, MAX, limit)
    ensures Ids(iv, MAX, limit)[0] == iv[0].start
  {
  }

  /** A reader who knows of all starts sees something. */
  lemma SeenNotEmpty(iv: seq<Interval>, limit: int)
    requires WellFormed(iv, MAX) && iv != [] && iv[0].start < limit <= MAX && iv[|iv| - 1].start <= limit
    ensures |Ids(iv, MAX, limit)| - Overrun(iv, MAX, limit) > 0
  {
    IdsCorrect(iv, MAX, limit);
    Edges(iv, 0);
    assert iv[0].start in Ids(iv, MAX, limit);
  }

  lemma NothingIn()
    ensures forall x :: !In([], x)
  {
  }

  lemma InOpenRun(start: int, e: int)
    ensures In([Interval(start, MAX)], e) <==> start <= e < MAX
  {
    assert In([Interval(start, MAX)], e) ==> start <= e < MAX;
    if start <= e < MAX { InAt([Interval(start, MAX)], 0, e); }
  }

  /** The first version added to an empty list opens a run. */
  lemma OpenRun(before: seq<Interval>, e: int, after: seq<Interval>)
    requires WellFormed(after, MAX) && Added(before, MAX, e, after) && e < MAX
    ensures before == [] ==> after == [Interval(e, MAX)]
  {
    if before == [] {
      assert forall x :: !In([], x);
      forall x { InOpenRun(e, x); }
      Canonical(after, [Interval(e, MAX)]);
    }
  }
}
