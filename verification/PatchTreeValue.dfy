/** What both trees hold of one triple, and what this says of its presence. */
module TreeValues {
  import opened OrderedKeys
  import opened Intervals
  import opened Values
  import opened AdditionValues
  import opened DeletionValues

  /** Whether the triple was in the snapshot, as far as the values tell: its first change was a deletion. */
  ghost predicate FirstDeleted(a: Option<seq<int>>, d: Option<seq<int>>) {
    && d.Some?
    && (a.Some? ==> d.value != [] && d.value[0] < if a.value != [] then a.value[0] else -1)
  }

  function IndexIn(ids: Option<seq<int>>, v: int): int {
    if ids.Some? then PlaceOf(ids.value, v) else -1
  }

  /** Whether the triple is in a version, as far as the values tell. */
  ghost predicate PresentIn(a: Option<seq<int>>, d: Option<seq<int>>, v: int) {
    if IndexIn(a, v) == -1 && IndexIn(d, v) == -1 then FirstDeleted(a, d) else IndexIn(d, v) < IndexIn(a, v)
  }

  class PatchTreeValue {
    const addition: AdditionValue
    const deletion: DeletionValue
    var hasAddition: bool
    var hasDeletion: bool

    ghost predicate Valid()
      reads addition, addition.patches, addition.localChanges
      reads deletion, deletion.patches, deletion.localChanges, deletion.patchPositions
    {
      && addition.Valid() && deletion.Valid() && addition.maxPatchId == deletion.maxPatchId <= MAX
      && addition.patches != deletion.patches && addition.patches != deletion.localChanges
      && addition.localChanges != deletion.patches && addition.localChanges != deletion.localChanges
    }

    ghost function Additions(): Option<seq<int>>
      reads this, addition, addition.patches
    {
      if hasAddition then Some(addition.Listed()) else None
    }

    ghost function Deletions(): Option<seq<int>>
      reads this, deletion, deletion.patches
    {
      if hasDeletion then Some(deletion.Listed()) else None
    }

    constructor (maxPatchId: int)
      requires maxPatchId < MAX
      ensures Valid() && addition.maxPatchId == maxPatchId + 1
      ensures fresh(addition) && fresh(addition.patches) && fresh(addition.localChanges)
      ensures fresh(deletion) && fresh(deletion.patches) && fresh(deletion.localChanges) &&
              fresh(deletion.patchPositions)
    {
      addition := new AdditionValue(maxPatchId);
      deletion := new DeletionValue(maxPatchId);
      hasAddition, hasDeletion := false, false;
    }

    method GetAdditionPatchId(patchId: int) returns (r: int)
      requires Valid()
      ensures r == IndexIn(Additions(), patchId)
    {
      if hasAddition {
        r := addition.GetPatchvalueIndex(patchId);
      } else {
        r := -1;
      }
    }

    method GetDeletionPatchId(patchId: int) returns (r: int)
      requires Valid()
      ensures r == IndexIn(Deletions(), patchId)
    {
      if hasDeletion {
        r := deletion.GetPatchvalueIndex(patchId);
      } else {
        r := -1;
      }
    }

    method IsAddition(patchId: int) returns (r: bool)
      requires Valid()
      ensures r <==> IndexIn(Additions(), patchId) >= 0
    {
      var i := GetAdditionPatchId(patchId);
      r := i >= 0;
    }

    method ExistsInSnapshot() returns (r: bool)
      requires Valid() && (hasDeletion ==> deletion.Listed() != [] && Readable(deletion.Data()))
      ensures r <==> FirstDeleted(Additions(), Deletions())
    {
      if hasDeletion {
        if hasAddition {
          var d := deletion.GetPatchAt(0);
          var a := addition.GetPatchIdAt(0);
          return d.patchId < a;
        }
        return true;
      }
      return false;
    }

    method IsPresent(patchId: int) returns (r: bool)
      requires Valid() && (hasDeletion ==> deletion.Listed() != [] && Readable(deletion.Data()))
      ensures r <==> PresentIn(Additions(), Deletions(), patchId)
    {
      var a := GetAdditionPatchId(patchId);
      var d := GetDeletionPatchId(patchId);
      if a == -1 && d == -1 {
        r := ExistsInSnapshot();
      } else {
        r := d < a;
      }
    }

    method IsDeltaTypeEqual(patchIdStart: int, patchIdEnd: int) returns (r: bool)
      requires Valid() && (hasDeletion ==> deletion.Listed() != [] && Readable(deletion.Data()))
      ensures r <==> (PresentIn(Additions(), Deletions(), patchIdStart) <==>
                      PresentIn(Additions(), Deletions(), patchIdEnd))
    {
      var s := IsPresent(patchIdStart);
      var e := IsPresent(patchIdEnd);
      r := s == e;
    }

    method IsLocalChange(patchId: int) returns (r: bool)
      requires Valid() && (hasAddition ==> addition.localChanges.Reaches(patchId))
      requires hasDeletion ==> Readable(deletion.Data())
      requires hasDeletion && !hasAddition ==> SizeSeen(deletion.Data(), deletion.maxPatchId) >= 0
      ensures hasAddition ==> (r <==> In(addition.localChanges.intervals, patchId))
      ensures !hasAddition && hasDeletion ==>
        var ids, size := deletion.Listed(), SizeSeen(deletion.Data(), deletion.maxPatchId);
        (r <==> size != 0 && In(deletion.localChanges.intervals,
                                if PlaceOf(ids, patchId) >= 0 then patchId else ids[size - 1]))
      ensures !hasAddition && !hasDeletion ==> !r
    {
      if hasAddition {
        r := addition.IsLocalChange(patchId);
      } else if hasDeletion {
        r := deletion.IsLocalChange(patchId);
      } else {
        r := false;
      }
    }
  }
}
