/** The value of one triple in the addition trees, held as runs of versions. */
module AdditionValues {
  import opened Intervals
  import opened Values

  class AdditionValue {
    const patches: IntervalList
    const localChanges: IntervalList
    var maxPatchId: int  // one past the last version this reader knows of

    ghost predicate Valid()
      reads this, patches, localChanges
    {
      && patches != localChanges
      && patches.max == localChanges.max == MAX
      && patches.Valid() && localChanges.Valid()
    }

    ghost function Data(): AdditionData
      reads patches, localChanges
    {
      AdditionData(patches.intervals, localChanges.intervals)
    }

    ghost function Listed(): seq<int>
      reads this, patches
    {
      Ids(patches.intervals, MAX, maxPatchId)
    }

    constructor (maxPatchId: int)
      ensures Valid() && Data() == AdditionData([], []) && this.maxPatchId == maxPatchId + 1
      ensures fresh(patches) && fresh(localChanges)
    {
      patches := new IntervalList(MAX);
      localChanges := new IntervalList(MAX);
      this.maxPatchId := maxPatchId + 1;
    }

    /** `deserialize`: the stored runs replace the held ones, the known versions stay as they were. */
    method Load(d: AdditionData)
      requires Valid() && WellFormed(d.patches, MAX) && WellFormed(d.localChanges, MAX)
      modifies patches, localChanges
      ensures Valid() && Data() == d
    {
      patches.intervals := d.patches;
      localChanges.intervals := d.localChanges;
    }

    /** `serialize`. */
    method Store() returns (d: AdditionData)
      requires Valid()
      ensures d == Data()
    {
      return AdditionData(patches.intervals, localChanges.intervals);
    }

    method SetMaxPatchId(id: int)
      requires Valid()
      modifies `maxPatchId
      ensures Valid() && maxPatchId == id
    {
      maxPatchId := id;
    }

    method Add(patchId: int) returns (hasChanged: bool)
      requires Valid() && patches.Reaches(patchId) && patchId < MAX
      modifies `maxPatchId, patches
      ensures Valid() && localChanges.intervals == old(localChanges.intervals)
      ensures Added(old(patches.intervals), MAX, patchId, patches.intervals)
      ensures hasChanged <==> !old(In(patches.intervals, patchId))
      ensures !hasChanged ==> patches.intervals == old(patches.intervals)
      ensures maxPatchId == if patchId >= old(maxPatchId) then patchId + 1 else old(maxPatchId)
    {
      if patchId >= maxPatchId {
        maxPatchId := patchId + 1;
      }
      hasChanged := patches.Addition(patchId);
    }

    method Del(patchId: int) returns (hasChanged: bool)
      requires Valid() && patches.Reaches(patchId)
      modifies `maxPatchId, patches
      ensures Valid() && localChanges.intervals == old(localChanges.intervals)
      ensures Deleted(old(patches.intervals), MAX, patchId, patches.intervals)
      ensures hasChanged <==> old(In(patches.intervals, patchId))
      ensures !hasChanged ==> patches.intervals == old(patches.intervals)
      ensures maxPatchId == if patchId >= old(maxPatchId) then patchId + 1 else old(maxPatchId)
    {
      if patchId >= maxPatchId {
        maxPatchId := patchId + 1;
      }
      hasChanged := patches.Deletion(patchId);
    }

    method IsPatchId(patchId: int) returns (r: bool)
      requires Valid() && (0 <= patchId < maxPatchId ==> patches.Reaches(patchId))
      ensures r <==> 0 <= patchId < maxPatchId && In(patches.intervals, patchId)
    {
      if patchId >= 0 && patchId < maxPatchId {
        r := patches.IsIn(patchId);
      } else {
        r := false;
      }
    }

    method GetPatchvalueIndex(patchId: int) returns (r: int)
      requires Valid() && maxPatchId <= MAX
      ensures r == PlaceOf(Listed(), patchId)
    {
      r := patches.GetIndex(patchId, maxPatchId);
    }

    method GetPatchIdAt(i: nat) returns (r: int)
      requires Valid() && maxPatchId <= MAX
      ensures r == if i < |Listed()| then Listed()[i] else -1
    {
      IdsCorrect(patches.intervals, MAX, maxPatchId);
      ListedBelowMax(patches.intervals, maxPatchId, i);
      var p := patches.GetElementAt(i, maxPatchId);
      r := if p == MAX then -1 else p;
    }

    method GetSize() returns (r: int)
      requires Valid()
      ensures r == |Listed()| - Overrun(patches.intervals, MAX, maxPatchId)
    {
      r := patches.GetSize(maxPatchId);
    }

    method SetLocalChange(patchId: int) returns (hasChanged: bool)
      requires Valid() && localChanges.Reaches(patchId) && patchId < MAX
      modifies localChanges
      ensures Valid() && patches.intervals == old(patches.intervals)
      ensures Added(old(localChanges.intervals), MAX, patchId, localChanges.intervals)
      ensures hasChanged <==> !old(In(localChanges.intervals, patchId))
      ensures !hasChanged ==> localChanges.intervals == old(localChanges.intervals)
    {
      hasChanged := localChanges.Addition(patchId);
    }

    method UnsetLocalChange(patchId: int) returns (hasChanged: bool)
      requires Valid() && localChanges.Reaches(patchId)
      modifies localChanges
      ensures Valid() && patches.intervals == old(patches.intervals)
      ensures Deleted(old(localChanges.intervals), MAX, patchId, localChanges.intervals)
      ensures hasChanged <==> old(In(localChanges.intervals, patchId))
      ensures !hasChanged ==> localChanges.intervals == old(localChanges.intervals)
    {
      hasChanged := localChanges.Deletion(patchId);
    }

    method IsLocalChange(patchId: int) returns (r: bool)
      requires Valid() && localChanges.Reaches(patchId)
      ensures r <==> In(localChanges.intervals, patchId)
    {
      r := localChanges.IsIn(patchId);
    }
  }

  lemma ListedBelowMax(iv: seq<Interval>, limit: int, i: nat)
    requires WellFormed(iv, MAX) && limit <= MAX
    ensures i < |Ids(iv, MAX, limit)| ==> Ids(iv, MAX, limit)[i] < MAX
  {
    if i < |Ids(iv, MAX, limit)| {
      IdsCorrect(iv, MAX, limit);
      var x := Ids(iv, MAX, limit)[i];
      assert x in Ids(iv, MAX, limit);
      var j :| 0 <= j < |iv| && iv[j].start <= x < iv[j].end;
    }
  }
}
