/** The plain form of an addition value, a sorted list of all versions, and the compact form that replaces it. */
module ListedAdditionValues {
  import opened OrderedKeys
  import opened Intervals
  import opened Values
  import opened AdditionValues

  lemma InsertedAt(s: seq<int>, x: int)
    requires Increasing(s) && x !in s
    ensures var r := s[..LowerPlace(s, x)] + [x] + s[LowerPlace(s, x)..];
      Increasing(r) && forall y :: y in r <==> y in s || y == x
  {
    var p := LowerPlace(s, x);
    var below, above := s[..p], s[p..];
    assert s == below + above;
    forall y | y in above ensures x < y {
      var i :| 0 <= i < |above| && above[i] == y;
      assert s[p] <= s[p + i] && s[p + i] != x;
    }
    forall y | y in below ensures y < x {
      var i :| 0 <= i < |below| && below[i] == y;
    }
    hide LowerPlace;
    IncreasingConcat(below, [x]);
    IncreasingConcat(below + [x], above);
  }

  /** The form of the build without compression. */
  class ListedAdditionValue {
    var patches: seq<int>

    ghost predicate Valid()
      reads this
    {
      Increasing(patches)
    }

    constructor ()
      ensures Valid() && patches == []
    {
      patches := [];
    }

    method Add(patchId: int)
      requires Valid()
      modifies this
      ensures Valid() && forall x :: x in patches <==> x in old(patches) || x == patchId
    {
      var it := LowerPlace(patches, patchId);
      if it == |patches| || patches[it] != patchId {
        assert patchId !in patches;
        InsertedAt(patches, patchId);
        patches := patches[..it] + [patchId] + patches[it..];
      }
    }

    method IsPatchId(patchId: int) returns (r: bool)
      requires Valid()
      ensures r <==> patchId in patches
    {
      var i := GetPatchvalueIndex(patchId);
      r := i >= 0;
    }

    method GetPatchvalueIndex(patchId: int) returns (r: int)
      requires Valid()
      ensures r == PlaceOf(patches, patchId)
    {
      var it := LowerPlace(patches, patchId);
      if it != |patches| && patches[it] == patchId {
        IncreasingPlace(patches, patchId, it);
        return it;
      }
      return -1;
    }

    method GetPatchIdAt(i: nat) returns (r: int)
      ensures r == if i < |patches| then patches[i] else -1
    {
      r := if i < |patches| then patches[i] else -1;
    }

    method GetSize() returns (r: int)
      ensures r == |patches|
    {
      r := |patches|;
    }
  }

  /** One more version: the plain list behind the runs grows by it, or stays as it was. */
  lemma NextListed(before: seq<Interval>, after: seq<Interval>, v: int)
    requires WellFormed(before, MAX) && WellFormed(after, MAX) && v < MAX
    requires Steady(before, v - 1) && Steady(after, v) && forall x :: x < v ==> (In(before, x) <==> In(after, x))
    ensures Ids(after, MAX, v + 1) == Ids(before, MAX, v) + if In(after, v) then [v] else []
  {
    hide Ids, In, WellFormed;
    var shorter, longer := Ids(before, MAX, v), Ids(after, MAX, v + 1);
    IdsCorrect(before, MAX, v);
    IdsCorrect(after, MAX, v + 1);
    SteadyIds(before, v, v);
    SteadyIds(after, v + 1, v + 1);
    var grown := shorter + if In(after, v) then [v] else [];
    IncreasingConcat(shorter, if In(after, v) then [v] else []);
    IncreasingUnique(longer, grown);
  }

  /** Every lookup gives the same answer in both forms: membership, place, element and size. */
  ghost predicate SameAnswers(compact: AdditionValue, listed: ListedAdditionValue)
    reads compact, compact.patches, listed
  {
    && compact.Listed() == listed.patches
    && (forall id :: id in listed.patches <==> 0 <= id < compact.maxPatchId && In(compact.patches.intervals, id))
    && |compact.Listed()| - Overrun(compact.patches.intervals, MAX, compact.maxPatchId) == |listed.patches|
  }

  /** Behind both forms lies the same set of versions before `v`; the compact one goes on as it stands at `v - 1`. */
  ghost predicate InStep(iv: seq<Interval>, listed: seq<int>, v: int) {
    WellFormed(iv, MAX) && Steady(iv, v - 1) && Ids(iv, MAX, v) == listed
  }

  lemma StepAdded(before: seq<Interval>, after: seq<Interval>, v: int, shorter: seq<int>, longer: seq<int>)
    requires InStep(before, shorter, v) && WellFormed(after, MAX) && Added(before, MAX, v, after) && v < MAX
    requires Increasing(longer) && forall x :: x in longer <==> x in shorter || x == v
    ensures InStep(after, longer, v + 1)
  {
    hide Ids;
    AddedSteady(before, v - 1, v, after);
    NextListed(before, after, v);
    IdsCorrect(after, MAX, v + 1);
    IncreasingUnique(longer, Ids(after, MAX, v + 1));
  }

  lemma StepDeleted(before: seq<Interval>, after: seq<Interval>, v: int, listed: seq<int>)
    requires InStep(before, listed, v) && WellFormed(after, MAX) && Deleted(before, MAX, v, after) && v < MAX
    ensures InStep(after, listed, v + 1)
  {
    hide Ids;
    DeletedSteady(before, v - 1, v, after);
    NextListed(before, after, v);
    assert Ids(before, MAX, v) + [] == Ids(before, MAX, v);
  }

  lemma StepKept(iv: seq<Interval>, v: int, listed: seq<int>)
    requires InStep(iv, listed, v) && !In(iv, v - 1) && v < MAX
    ensures InStep(iv, listed, v + 1)
  {
    hide Ids;
    NextListed(iv, iv, v);
    assert Ids(iv, MAX, v) + [] == Ids(iv, MAX, v);
  }

  lemma StepsAgree(iv: seq<Interval>, listed: seq<int>, v: int)
    requires InStep(iv, listed, v) && iv != [] && 0 <= iv[0].start && v <= MAX
    ensures forall id :: id in listed <==> 0 <= id < v && In(iv, id)
    ensures Overrun(iv, MAX, v) == 0
  {
    hide Ids;
    SteadyListed(iv, v, v);
    Edges(iv, 0);
  }

  /** One version: where the triple is added, both forms are told; where an addition ends, only the compact form is. */
  method Step(compact: AdditionValue, listed: ListedAdditionValue, v: int, present: bool, was: bool)
    requires compact.Valid() && listed.Valid() && InStep(compact.patches.intervals, listed.patches, v)
    requires compact.patches.Reaches(v) && v < MAX && (was <==> In(compact.patches.intervals, v - 1))
    modifies compact, compact.patches, listed
    ensures compact.Valid() && listed.Valid() && InStep(compact.patches.intervals, listed.patches, v + 1)
    ensures present <==> In(compact.patches.intervals, v)
    ensures forall x :: x in listed.patches <==> x in old(listed.patches) || (present && x == v)
    ensures forall x :: x < v ==> (In(compact.patches.intervals, x) <==> old(In(compact.patches.intervals, x)))
  {
    hide In, Ids, Increasing, WellFormed;
    ghost var before, list := compact.patches.intervals, listed.patches;
    if present {
      var changed := compact.Add(v);
      listed.Add(v);
      StepAdded(before, compact.patches.intervals, v, list, listed.patches);
    } else if was {
      var changed := compact.Del(v);
      StepDeleted(before, compact.patches.intervals, v, list);
    } else {
      StepKept(before, v, list);
    }
  }

  /** The first version that a list of runs holds is where it starts. */
  lemma StartIs(iv: seq<Interval>, first: int)
    requires WellFormed(iv, MAX) && In(iv, first) && forall x :: In(iv, x) ==> first <= x
    ensures iv != [] && iv[0].start == first
  {
    Edges(iv, 0);
  }

  lemma SteadyBelow(iv: seq<Interval>, first: int, v: int)
    requires WellFormed(iv, MAX) && Steady(iv, v) && v < MAX && first <= v
    requires forall x :: x <= v && In(iv, x) ==> first <= x
    ensures forall x :: In(iv, x) ==> first <= x
  {
  }

  /** A run of versions from the first that adds the triple: both forms, driven side by side, answer alike, and list
      exactly the versions that add it. */
  method Drive(first: int, presence: seq<bool>) returns (compact: AdditionValue, listed: ListedAdditionValue)
    requires 0 <= first && first + |presence| < MAX && presence != [] && presence[0]
    ensures compact.Valid() && listed.Valid() && compact.maxPatchId == first + |presence| &&
            SameAnswers(compact, listed)
    ensures forall v :: v in listed.patches <==> first <= v < first + |presence| && presence[v - first]
  {
    hide Ids, Increasing, WellFormed, InStep, Added, Deleted, Steady;
    compact := new AdditionValue(first - 1);
    listed := new ListedAdditionValue();
    NothingYet(first);
    var i := 0;
    while i < |presence|
      invariant 0 <= i <= |presence| && compact.Valid() && listed.Valid()
      invariant fresh(compact) && fresh(compact.patches) && fresh(listed)
      invariant InStep(compact.patches.intervals, listed.patches, first + i)
      invariant i == 0 ==> compact.patches.intervals == [] && listed.patches == []
      invariant i > 0 ==> compact.patches.intervals != [] && compact.patches.intervals[0].start == first
      invariant i > 0 ==> (presence[i - 1] <==> In(compact.patches.intervals, first + i - 1))
      invariant forall v :: v in listed.patches <==> first <= v < first + i && presence[v - first]
    {
      ghost var before := compact.patches.intervals;
      Step(compact, listed, first + i, presence[i], i > 0 && presence[i - 1]);
      StartsStill(before, compact.patches.intervals, listed.patches, first, first + i);
      i := i + 1;
    }
    compact.SetMaxPatchId(first + |presence|);
    StepsAgree(compact.patches.intervals, listed.patches, first + |presence|);
    SameListed(compact.patches.intervals, listed.patches, first + |presence|);
  }

  lemma NothingYet(first: int)
    ensures InStep([], [], first) && !In([], first - 1)
  {
  }

  lemma SameListed(iv: seq<Interval>, listed: seq<int>, v: int)
    requires InStep(iv, listed, v)
    ensures Ids(iv, MAX, v) == listed
  {
  }

  lemma StartsStill(before: seq<Interval>, after: seq<Interval>, listed: seq<int>, first: int, v: int)
    requires WellFormed(before, MAX) && InStep(after, listed, v + 1) && first <= v < MAX
    requires forall x :: x < v ==> (In(before, x) <==> In(after, x))
    requires if v == first then before == [] && In(after, v) else before != [] && before[0].start == first
    ensures after != [] && after[0].start == first
  {
    hide Ids;
    if v > first { Edges(before, 0); }
    assert In(after, first);
    SteadyBelow(after, first, v);
    StartIs(after, first);
  }
}
