/** Which versions of a chain hold a triple, for every triple that was ever in the chain. */
module VersionAnnotation {
  import opened OrderedKeys
  import opened Intervals
  import opened Positions
  import opened Values
  import opened AdditionValues
  import opened DeletionValues
  import opened ChainHistory
  import opened Ingestion
  import opened Ranks
  import opened Triples
  import opened Dictionaries
  import opened TreeIndexes
  import opened PatchTreeIterators
  import opened ChainReading
  import opened VersionQueries
  import Selection
  import opened DeltaVerdicts
  import opened DeltaQueries

  /** A triple and the versions that hold it, in order. */
  datatype TripleVersions = TripleVersions(key: Key, versions: seq<int>)

  function Erased(s: seq<int>, lo: nat, hi: nat): seq<int>
    requires lo <= hi <= |s|
  {
    s[..lo] + s[hi..]
  }

  lemma SliceBelow(s: seq<int>, lo: nat, x: int)
    requires lo <= |s| && (forall i :: 0 <= i < lo ==> s[i] < x) && (forall i :: lo <= i < |s| ==> x <= s[i])
    ensures forall y :: y in s[..lo] <==> y in s && y < x
  {
    forall y | y in s && y < x ensures y in s[..lo] {
      var i :| 0 <= i < |s| && s[i] == y;
      assert s[..lo][i] == y;
    }
  }

  lemma SliceAbove(s: seq<int>, hi: nat, x: int)
    requires hi <= |s| && (forall i :: 0 <= i < hi ==> s[i] <= x) && (forall i :: hi <= i < |s| ==> x < s[i])
    ensures forall y :: y in s[hi..] <==> y in s && x < y
  {
    forall y | y in s && x < y ensures y in s[hi..] {
      var i :| 0 <= i < |s| && s[i] == y;
      assert s[hi..][i - hi] == y;
    }
  }

  lemma PlaceSplits(s: seq<int>, x: int)
    requires Increasing(s)
    ensures forall i :: LowerPlace(s, x) <= i < |s| ==> x <= s[i]
  {
  }

  /** Erasing the range equal to `x` takes `x` out of an increasing list. */
  lemma ErasedRange(s: seq<int>, x: int)
    requires Increasing(s)
    ensures var lo, hi := LowerPlace(s, x), LowerPlace(s, x + 1);
      && lo <= hi && Increasing(Erased(s, lo, hi))
      && forall y :: y in Erased(s, lo, hi) <==> y in s && y != x
  {
    var lo, hi := LowerPlace(s, x), LowerPlace(s, x + 1);
    PlaceSplits(s, x);
    PlaceSplits(s, x + 1);
    hide LowerPlace;
    assert lo <= hi;
    SliceBelow(s, lo, x);
    SliceAbove(s, hi, x);
    IncreasingConcat(s[..lo], s[hi..]);
  }

  /** The versions from `initial` to `last` that are not among the deleted ones. */
  ghost predicate NotDeleted(versions: seq<int>, initial: int, last: int, deleted: set<int>) {
    Increasing(versions) && forall v :: v in versions <==> initial <= v <= last && v !in deleted
  }

  /** `eraseDeletedVersions` for a triple whose deletion value, if it has one, is given. */
  method EraseDeletedVersions(deletion: Option<DeletionData>, initial: int, last: int) returns (versions: seq<int>)
    requires initial <= last + 1 && last + 1 < MAX
    requires deletion.Some? ==> Readable(deletion.value) && Overrun(deletion.value.patches, MAX, last + 1) == 0
    ensures NotDeleted(versions, initial, last,
                       if deletion.Some? then Elements(Ids(deletion.value.patches, MAX, last + 1)) else {})
  {
    hide Ids, Overrun, Readable, Run;
    versions := Run(initial, last + 1);
    forall v { RunMembers(initial, last + 1, v); }
    if deletion.Some? {
      versions := EraseListed(versions, deletion.value, last);
    }
  }

  /** `equal_range`, then `erase`. */
  method EraseVersion(all: seq<int>, x: int) returns (versions: seq<int>)
    requires Increasing(all)
    ensures Increasing(versions) && forall v :: v in versions <==> v in all && v != x
  {
    ErasedRange(all, x);
    var lo, hi := LowerPlace(all, x), LowerPlace(all, x + 1);
    versions := Erased(all, lo, hi);
  }

  lemma OneMoreListed(ids: seq<int>, i: nat)
    requires i < |ids|
    ensures forall v :: v in ids[..i + 1] <==> v in ids[..i] || v == ids[i]
  {
    assert ids[..i + 1] == ids[..i] + [ids[i]];
  }

  method EraseListed(all: seq<int>, d: DeletionData, last: int) returns (versions: seq<int>)
    requires Increasing(all) && last + 1 < MAX && Readable(d) && Overrun(d.patches, MAX, last + 1) == 0
    ensures Increasing(versions)
    ensures forall v :: v in versions <==> v in all && v !in Ids(d.patches, MAX, last + 1)
  {
    hide Ids, Overrun, InOrder, Increasing, WellFormed, In, RanksAt;
    var value := new DeletionValue(last);
    value.Load(d);
    ghost var ids := value.Listed();
    versions := all;
    var size := value.GetSize();
    var i := 0;
    while i < size
      invariant 0 <= i <= size == |ids| && value.Valid() && value.Data() == d
      invariant Increasing(versions)
      invariant forall v :: v in versions <==> v in all && v !in ids[..i]
    {
      var element := value.GetPatchAt(i);
      versions := EraseVersion(versions, element.patchId);
      OneMoreListed(ids, i);
      i := i + 1;
    }
    assert ids[..size] == ids;
  }

  // ----- what the deleted versions tell

  function LastVersion(c: Chain): int {
    c.min + |c.history| - 1
  }

  /** The annotation lists exactly the versions from `start` on that hold the triple. */
  ghost predicate AnnotatedFrom(t: TripleVersions, c: Chain, start: int) {
    Increasing(t.versions) && forall v :: v in t.versions <==> start <= v <= LastVersion(c) && t.key in Content(c, v)
  }

  /** From a version that holds the triple, or from its first addition on, not being deleted is being there. */
  lemma NotDeletedIsThere(s: Store, c: Chain, k: Key, start: int, v: int)
    requires Queryable(s, c, LastVersion(c)) && c.min - 1 <= start <= v <= LastVersion(c)
    requires k in Content(c, start) ||
             (k in s.additions && s.additions[k].patches != [] && start == s.additions[k].patches[0].start)
    ensures k in Content(c, v) <==> k !in s.deletions || v !in Ids(s.deletions[k].patches, MAX, LastVersion(c) + 1)
  {
    hide RanksTrue, CountsTrue, RanksOk, Dictionary, Ids, Content, In, Represents, WellFormed;
    var e := s.Nodes().EntryOf(k);
    assert Represents(e, k, c.snapshot, c.history, c.min);
    BirthOrder(s, c, k, LastVersion(c));
    ContentAt(s, c, k, v);
    ContentAt(s, c, k, start);
    if k in s.deletions {
      EntryReadable(s.Nodes(), s.countAdditions, c.snapshot, c.history, c.min, s.vocabulary, c.misranked, k);
      SteadyIds(e.del, LastVersion(c) + 1, LastVersion(c) + 1);
    }
  }

  /** Presence in a version, the snapshot's included, in terms of the deletion entry. */
  lemma ContentAt(s: Store, c: Chain, k: Key, v: int)
    requires Queryable(s, c, LastVersion(c)) && c.min - 1 <= v <= LastVersion(c)
    ensures var e, here := s.Nodes().EntryOf(k), k in c.snapshot;
      var born := !Untouched(e) && Born(e, here) <= v;
      && (In(e.del, v) <==> born && k !in Content(c, v)) && (!born ==> (k in Content(c, v) <==> here))
      && (k !in s.deletions ==> !In(e.del, v))
  {
    hide RanksTrue, CountsTrue, RanksOk, Dictionary;
    var e := s.Nodes().EntryOf(k);
    assert Represents(e, k, c.snapshot, c.history, c.min);
    assert forall x :: !In([], x);
    if v >= c.min { EntryTells(e, k, c, v); }
  }

  // ----- the merge of snapshot and additions

  /** The union of two sorted lists of triples, in their order. */
  ghost function MergeKeys(a: seq<Key>, b: seq<Key>, cmp: Comparator): seq<Key>
    decreases |a| + |b|
  {
    if a == [] then b
    else if b == [] then a
    else if cmp.Less(a[0], b[0]) then [a[0]] + MergeKeys(a[1..], b, cmp)
    else if cmp.Less(b[0], a[0]) then [b[0]] + MergeKeys(a, b[1..], cmp)
    else [a[0]] + MergeKeys(a[1..], b[1..], cmp)
  }

  lemma {:induction false} MergeKeysUnion(a: seq<Key>, b: seq<Key>, cmp: Comparator, universe: set<Key>)
    requires Dictionary(universe, cmp.vocabulary) && KeysSorted(a, cmp, universe) && KeysSorted(b, cmp, universe)
    ensures KeysSorted(MergeKeys(a, b, cmp), cmp, universe)
    ensures forall k :: k in MergeKeys(a, b, cmp) <==> k in a || k in b
    decreases |a| + |b|
  {
    hide Dictionary, Comparator.Less, KeysSorted;
    if a != [] && b != [] {
      SortedHead(a, cmp, universe);
      SortedHead(b, cmp, universe);
      var x, y := a[0], b[0];
      InUniverse(a, cmp, universe, x);
      InUniverse(b, cmp, universe, y);
      LessTotal(cmp, universe, x, y);
      if cmp.Less(x, y) {
        MergeKeysUnion(a[1..], b, cmp, universe);
        BeforeHead(x, b, cmp, universe);
        PutBefore(x, MergeKeys(a[1..], b, cmp), cmp, universe);
      } else if cmp.Less(y, x) {
        MergeKeysUnion(a, b[1..], cmp, universe);
        BeforeHead(y, a, cmp, universe);
        PutBefore(y, MergeKeys(a, b[1..], cmp), cmp, universe);
      } else {
        MergeKeysUnion(a[1..], b[1..], cmp, universe);
        PutBefore(x, MergeKeys(a[1..], b[1..], cmp), cmp, universe);
      }
    }
  }

  /** Merging two sets of known triples, each in order, arranges their union. */
  lemma MergeArranged(a: set<Key>, b: set<Key>, cmp: Comparator, universe: set<Key>)
    requires Dictionary(universe, cmp.vocabulary) && a <= universe && b <= universe
    ensures MergeKeys(Arranged(a, universe, cmp.order, cmp.vocabulary),
                      Arranged(b, universe, cmp.order, cmp.vocabulary), cmp) ==
            Arranged(a + b, universe, cmp.order, cmp.vocabulary)
    ensures KeysSorted(Arranged(a, universe, cmp.order, cmp.vocabulary), cmp, universe)
    ensures KeysSorted(Arranged(b, universe, cmp.order, cmp.vocabulary), cmp, universe)
  {
    hide Dictionary, Comparator.Less, MergeKeys;
    var left, right := Arranged(a, universe, cmp.order, cmp.vocabulary),
                       Arranged(b, universe, cmp.order, cmp.vocabulary);
    MergeKeysUnion(left, right, cmp, universe);
    SameIndex(MergeKeys(left, right, cmp), Arranged(a + b, universe, cmp.order, cmp.vocabulary), a + b, universe,
              cmp.order, cmp.vocabulary);
  }

  /** The version from which a delivered triple is annotated. */
  ghost function StartOf(s: Store, c: Chain, firstVersion: int, k: Key): int {
    if k in Content(c, firstVersion) then firstVersion
    else if k in s.additions && s.additions[k].patches != [] then s.additions[k].patches[0].start
    else firstVersion
  }

  ghost function HeldKeys(status: bool, t: Key, rest: seq<Key>): seq<Key> {
    if status then [t] + rest else []
  }

  /** The chain, version and tree that an annotation is made of: its first version, the triples of that version that
      match, and the addition tree. */
  ghost predicate AnnotationReady(s: Store, c: Chain, firstVersion: int) {
    Queryable(s, c, LastVersion(c)) && c.min - 1 <= firstVersion <= LastVersion(c)
  }

  class PatchTreeTripleVersionsIterator {
    const s: Store
    const triples: seq<Key>
    const additionIt: PatchTreeIterator
    const value: AdditionValue
    const firstVersion: int
    const cmp: Comparator
    var position: nat
    var status1: bool
    var t1: Key
    var status2: bool
    var t2: Key
    ghost const c: Chain

    ghost function Left(): seq<Key>
      reads `position, `status1, `t1
    {
      HeldKeys(status1, t1, if position <= |triples| then triples[position..] else [])
    }

    ghost function Right(): seq<Key>
      reads `status2, `t2, additionIt
    {
      HeldKeys(status2, t2, additionIt.RestAdditions(s.maxPatchId + 1))
    }

    /** The triples still to be delivered. */
    ghost function Rest(): seq<Key>
      reads this, additionIt
    {
      MergeKeys(Left(), Right(), cmp)
    }

    /** The addition stream and the value it is read into. */
    ghost predicate StreamOk()
      reads `status2, `t2, additionIt, value, value.patches, value.localChanges
    {
      && additionIt.Valid() && additionIt.filters.patchId.None? && additionIt.additions == s.additions
      && additionIt.AdditionStopsAreFinal(s.maxPatchId + 1)
      && value.Valid() && value.maxPatchId == s.maxPatchId + 1
      && (status2 ==> t2 in s.additions && value.Data() == s.additions[t2])
      && (!status2 ==> additionIt.RestAdditions(s.maxPatchId + 1) == [])
    }

    /** Both lists are sorted, hold what they should, and what the version has of the additions is in the first. */
    ghost predicate ListsOk(left: seq<Key>, right: seq<Key>) {
      && KeysSorted(left, cmp, c.universe) && KeysSorted(right, cmp, c.universe)
      && (forall k :: k in left ==> k in Content(c, firstVersion))
      && (forall k :: k in right ==> k in s.additions && (k in Content(c, firstVersion) ==> k in left))
    }

    ghost predicate Valid()
      reads this, additionIt, value, value.patches, value.localChanges
    {
      && AnnotationReady(s, c, firstVersion) && cmp.vocabulary == s.vocabulary && position <= |triples| &&
         (!status1 ==> position == |triples|)
      && StreamOk() && ListsOk(Left(), Right())
    }

    method StepSnapshot()
      requires position <= |triples|
      modifies `position, `status1, `t1
      ensures position <= |triples| && (!status1 ==> position == |triples|)
      ensures Left() == if old(position) == |triples| then [] else triples[old(position)..]
    {
      if position < |triples| {
        t1 := triples[position];
        position := position + 1;
        status1 := true;
      } else {
        status1 := false;
      }
    }

    method FetchAddition()
      requires additionIt.Valid() && additionIt.filters.patchId.None? && additionIt.additions == s.additions
      requires value.Valid() && value.maxPatchId == s.maxPatchId + 1 <= MAX
      requires additionIt.AdditionStopsAreFinal(s.maxPatchId + 1)
      modifies `status2, `t2, additionIt, value.patches, value.localChanges
      ensures StreamOk() && Right() == old(additionIt.RestAdditions(s.maxPatchId + 1))
    {
      hide AdditionHit, StopAt, StopsAreFinal, Stream, Ahead, AdditionReadable, Readable, WalksSafely, Unbegun;
      additionIt.NothingAsked(value.maxPatchId, 1);
      status2, t2 := additionIt.NextAddition(value);
    }

    method StepAdditions()
      requires StreamOk() && status2 && s.maxPatchId + 1 <= MAX
      modifies `status2, `t2, additionIt, value.patches, value.localChanges
      ensures StreamOk() && Right() == old(Right())[1..]
    {
      hide AdditionHit, StopAt, StopsAreFinal, Stream, Ahead, AdditionReadable, Readable;
      HeldHead(status2, t2, additionIt.RestAdditions(s.maxPatchId + 1));
      FetchAddition();
    }

    /** Takes the two streams over and reads the first triple of each. */
    constructor (s: Store, ghost c: Chain, triples: seq<Key>, additionIt: PatchTreeIterator, firstVersion: int,
                 cmp: Comparator)
      requires AnnotationReady(s, c, firstVersion) && cmp.vocabulary == s.vocabulary
      requires additionIt.Valid() && additionIt.filters.patchId.None? && additionIt.additions == s.additions
      requires additionIt.AdditionStopsAreFinal(s.maxPatchId + 1)
      requires KeysSorted(triples, cmp, c.universe) &&
               KeysSorted(additionIt.RestAdditions(s.maxPatchId + 1), cmp, c.universe)
      requires forall k :: k in triples ==> k in Content(c, firstVersion)
      requires forall k :: k in additionIt.RestAdditions(s.maxPatchId + 1) ==>
                 k in s.additions && (k in Content(c, firstVersion) ==> k in triples)
      modifies additionIt
      ensures Valid() && this.s == s && this.c == c && this.firstVersion == firstVersion &&
              this.additionIt == additionIt
      ensures this.cmp == cmp
      ensures fresh(value) && fresh(value.patches) && fresh(value.localChanges)
      ensures Left() == triples && Right() == old(additionIt.RestAdditions(s.maxPatchId + 1))
    {
      hide Queryable, AdditionHit, StopAt, StopsAreFinal, Stream, Ahead, AdditionReadable, Readable, Content,
           KeysSorted;
      this.s, this.c, this.triples, this.additionIt, this.firstVersion := s, c, triples, additionIt, firstVersion;
      this.cmp := cmp;
      position, status1, t1, status2, t2 := 0, false, 0, false, 0;
      value := new AdditionValue(s.maxPatchId);
      new;
      QueryableFacts(s, c, LastVersion(c));
      StepSnapshot();
      FetchAddition();
    }

    /** The versions of a triple, from `start` on. */
    method VersionsOf(k: Key, start: int) returns (versions: seq<int>)
      requires AnnotationReady(s, c, firstVersion) && c.min - 1 <= start <= LastVersion(c)
      requires k in Content(c, start) ||
               (k in s.additions && s.additions[k].patches != [] && start == s.additions[k].patches[0].start)
      ensures AnnotatedFrom(TripleVersions(k, versions), c, start)
    {
      hide Queryable, Ids, Overrun, Readable, Content;
      var deletion := if k in s.deletions then Some(s.deletions[k]) else None;
      LastIsMax(s, c);
      DeletionErasable(s, c, k);
      versions := EraseDeletedVersions(deletion, start, s.maxPatchId);
      forall v | start <= v <= LastVersion(c)
        ensures k in Content(c, v) <==>
                k !in s.deletions || v !in Ids(s.deletions[k].patches, MAX, LastVersion(c) + 1) {
        NotDeletedIsThere(s, c, k, start, v);
      }
    }

    /** The first list goes on behind its head; it may be the head of the second one too. */
    lemma LeftStep(left: seq<Key>, right: seq<Key>, t: Key)
      requires AnnotationReady(s, c, firstVersion) && cmp.vocabulary == s.vocabulary && ListsOk(left, right)
      requires left != [] && left[0] == t && (right != [] ==> cmp.Less(t, right[0]) || !cmp.Less(right[0], t))
      ensures var both := right != [] && !cmp.Less(t, right[0]);
        && t in Content(c, firstVersion) && ListsOk(left[1..], if both then right[1..] else right)
        && MergeKeys(left, right, cmp) == [t] + MergeKeys(left[1..], if both then right[1..] else right, cmp)
        && (both ==> right[0] == t)
    {
      hide Queryable, Content, Comparator.Less, KeysSorted, Dictionary;
      QueryableFacts(s, c, LastVersion(c));
      SortedHead(left, cmp, c.universe);
      InUniverse(left, cmp, c.universe, t);
      if right != [] {
        SortedHead(right, cmp, c.universe);
        InUniverse(right, cmp, c.universe, right[0]);
        LessTotal(cmp, c.universe, t, right[0]);
        if cmp.Less(t, right[0]) { BeforeHead(t, right, cmp, c.universe); }
      }
    }

    /** The second list does so alone. */
    lemma RightStep(left: seq<Key>, right: seq<Key>, t: Key)
      requires AnnotationReady(s, c, firstVersion) && cmp.vocabulary == s.vocabulary && ListsOk(left, right)
      requires right != [] && right[0] == t && (left != [] ==> cmp.Less(t, left[0]))
      ensures t in s.additions && t !in Content(c, firstVersion) && ListsOk(left, right[1..])
      ensures MergeKeys(left, right, cmp) == [t] + MergeKeys(left, right[1..], cmp)
    {
      hide Queryable, Content, Comparator.Less, KeysSorted, Dictionary;
      QueryableFacts(s, c, LastVersion(c));
      SortedHead(right, cmp, c.universe);
      InUniverse(right, cmp, c.universe, t);
      if left != [] {
        SortedHead(left, cmp, c.universe);
        InUniverse(left, cmp, c.universe, left[0]);
        LessTotal(cmp, c.universe, t, left[0]);
        BeforeHead(t, left, cmp, c.universe);
      }
    }

    /** Delivers the snapshot triple. */
    method EmitSnapshot() returns (t: TripleVersions)
      requires Valid() && status1 && (status2 ==> cmp.Less(t1, t2))
      modifies `position, `status1, `t1
      ensures Valid()
      ensures old(Rest()) == [t.key] + Rest() && AnnotatedFrom(t, c, StartOf(s, c, firstVersion, t.key))
    {
      hide Queryable, Content, AnnotatedFrom, MergeKeys, StreamOk, AdditionHit, StopAt, Stream, Ahead, HeldKeys,
           PatchTreeIterator.RestAdditions, ListsOk, Comparator.Less;
      ghost var left, right := Left(), Right();
      HeldStep(triples, position, t1);
      HeldHead(status2, t2, additionIt.RestAdditions(s.maxPatchId + 1));
      LeftStep(left, right, t1);
      var versions := VersionsOf(t1, firstVersion);
      t := TripleVersions(t1, versions);
      StepSnapshot();
      assert Right() == right;
      assert Left() == left[1..];
    }

    /** Delivers the snapshot triple, and steps over the same triple among the additions. */
    method EmitShared() returns (t: TripleVersions)
      requires Valid() && status1 && status2 && !cmp.Less(t1, t2) && !cmp.Less(t2, t1)
      modifies `position, `status1, `t1, `status2, `t2, additionIt, value.patches, value.localChanges
      ensures Valid()
      ensures old(Rest()) == [t.key] + Rest() && AnnotatedFrom(t, c, StartOf(s, c, firstVersion, t.key))
    {
      hide Queryable, Content, AnnotatedFrom, MergeKeys, StreamOk, AdditionHit, StopAt, Stream, Ahead, HeldKeys,
           PatchTreeIterator.RestAdditions, StopsAreFinal, Ids, AdditionReadable, Readable, WalksSafely, Unbegun,
           ListsOk, Comparator.Less;
      ghost var left, right := Left(), Right();
      HeldStep(triples, position, t1);
      HeldHead(status2, t2, additionIt.RestAdditions(s.maxPatchId + 1));
      LeftStep(left, right, t1);
      LastIsMax(s, c);
      var versions := VersionsOf(t1, firstVersion);
      t := TripleVersions(t1, versions);
      StepAdditions();
      assert Left() == left;
      StepSnapshot();
      assert Right() == right[1..];
    }

    /** Delivers the triple of the addition tree alone. */
    method EmitAddition() returns (t: TripleVersions)
      requires Valid() && status2 && (status1 ==> cmp.Less(t2, t1))
      modifies `status2, `t2, additionIt, value.patches, value.localChanges
      ensures Valid()
      ensures old(Rest()) == [t.key] + Rest() && AnnotatedFrom(t, c, StartOf(s, c, firstVersion, t.key))
    {
      hide Queryable, Content, AnnotatedFrom, MergeKeys, AdditionHit, StopAt, Stream, Ahead, StopsAreFinal,
           PatchTreeIterator.RestAdditions, Ids, AdditionReadable, Readable, ListsOk, Comparator.Less;
      ghost var left, right := Left(), Right();
      HeldHead(status2, t2, additionIt.RestAdditions(s.maxPatchId + 1));
      HeldHead(status1, t1, triples[position..]);
      RightStep(left, right, t2);
      LastIsMax(s, c);
      AdditionBegins(s, c, t2);
      var start := value.GetPatchIdAt(0);
      var versions := VersionsOf(t2, start);
      t := TripleVersions(t2, versions);
      StepAdditions();
      assert Left() == left;
    }

    method Next() returns (found: bool, t: TripleVersions)
      requires Valid()
      modifies this, additionIt, value.patches, value.localChanges
      ensures Valid()
      ensures if found then old(Rest()) == [t.key] + Rest() && AnnotatedFrom(t, c, StartOf(s, c, firstVersion, t.key))
              else old(Rest()) == []
    {
      hide Queryable, AdditionHit, StopAt, StopsAreFinal, Stream, Ahead, AdditionReadable, Readable, Content,
           AnnotatedFrom, StartOf, Comparator.Less;
      t := TripleVersions(0, []);
      if status1 && status2 {
        if cmp.Less(t1, t2) {
          t := EmitSnapshot();
        } else if cmp.Less(t2, t1) {
          t := EmitAddition();
        } else {
          t := EmitShared();
        }
        return true, t;
      }
      if status1 && !status2 {
        t := EmitSnapshot();
        return true, t;
      }
      if !status1 && status2 {
        t := EmitAddition();
        return true, t;
      }
      return false, t;
    }
  }

  lemma HeldStep(triples: seq<Key>, position: nat, t: Key)
    requires position <= |triples|
    ensures var left := HeldKeys(true, t, triples[position..]);
      left != [] && left[0] == t && left[1..] == (if position == |triples| then [] else triples[position..])
  {
  }

  lemma HeldHead(status: bool, t: Key, rest: seq<Key>)
    ensures status ==> HeldKeys(status, t, rest) != [] && HeldKeys(status, t, rest)[0] == t
    ensures !status ==> HeldKeys(status, t, rest) == []
  {
  }

  /** The first listed version of an addition is where its runs begin. */
  lemma AdditionBegins(s: Store, c: Chain, k: Key)
    requires Queryable(s, c, LastVersion(c)) && k in s.additions
    ensures var a, limit := s.additions[k], s.maxPatchId + 1;
      && a.patches != [] && Ids(a.patches, MAX, limit) != [] && Ids(a.patches, MAX, limit)[0] == a.patches[0].start
      && c.min <= a.patches[0].start <= LastVersion(c)
  {
    hide RanksTrue, CountsTrue, RanksOk, Dictionary, Ids;
    FullView(s, c, LastVersion(c), k);
    var e := s.Nodes().EntryOf(k);
    assert Represents(e, k, c.snapshot, c.history, c.min);
    Edges(e.add, 0);
    RepresentsOk(e, k, c.snapshot, c.history, c.min);
  }

  lemma LastIsMax(s: Store, c: Chain)
    requires Queryable(s, c, LastVersion(c))
    ensures s.maxPatchId == LastVersion(c) && s.maxPatchId + 1 < MAX
  {
    hide ChainOk, Dictionary;
  }

  lemma DeletionErasable(s: Store, c: Chain, k: Key)
    requires Queryable(s, c, LastVersion(c))
    ensures k in s.deletions ==>
            Readable(s.deletions[k]) && Overrun(s.deletions[k].patches, MAX, LastVersion(c) + 1) == 0
  {
    hide Queryable, Readable, Ids, Overrun;
    LastIsMax(s, c);
    FullView(s, c, LastVersion(c), k);
  }

  // ----- one chain

  /** The triples that some version of the chain holds, its snapshot included. */
  ghost predicate EverIn(c: Chain, k: Key) {
    exists v :: c.min - 1 <= v <= LastVersion(c) && k in Content(c, v)
  }

  /** The filters of `addition_iterator`: the pattern alone. */
  function PatternFilters(pattern: Triple): Filters {
    Filters(None, false, if AllMatching(pattern) then None else Some(pattern), false, true)
  }

  ghost function MatchingAdditions(s: Store, pattern: Triple): set<Key> {
    set k | k in s.additions && Matches(s.vocabulary(k), pattern)
  }

  /** What is delivered: the matches of a version and all matching additions, in the order of the pattern. */
  ghost function AnnotatedKeys(s: Store, c: Chain, pattern: Triple, firstVersion: int): seq<Key> {
    Arranged(MatchesOf(Content(c, firstVersion), s.vocabulary, pattern) + MatchingAdditions(s, pattern), c.universe,
             QueryOrder(pattern), s.vocabulary)
  }

  /** The merge of a version's matches, sorted in the order of the pattern, with all matching additions. */
  method AnnotateChain(s: Store, ghost c: Chain, additionKeys: seq<Key>, triples: seq<Key>, pattern: Triple,
                       firstVersion: int)
    returns (r: PatchTreeTripleVersionsIterator)
    requires AnnotationReady(s, c, firstVersion) && IsPattern(pattern)
    requires IsIndex(additionKeys, s.additions.Keys, QueryOrder(pattern), s.vocabulary)
    requires IsIndex(triples, MatchesOf(Content(c, firstVersion), s.vocabulary, pattern), QueryOrder(pattern),
                     s.vocabulary)
    ensures fresh(r) && fresh(r.additionIt) && fresh(r.value) && fresh(r.value.patches) && fresh(r.value.localChanges)
    ensures r.Valid() && r.s == s && r.c == c && r.firstVersion == firstVersion
    ensures r.Rest() == AnnotatedKeys(s, c, pattern, firstVersion)
  {
    hide Queryable, QueryOrder, Matches, MatchesOf, AdditionHit, AdditionReadable, StopAt, Compare, Arranged,
         KeysSorted, StopsAreFinal, Stream, Ahead, Dictionary, IsIndex, HitsIn, Content, IsPattern, MatchingAdditions,
         MergeKeys, Readable, Unbegun, WalksSafely;
    var f := PatternFilters(pattern);
    QueryableFacts(s, c, LastVersion(c));
    IndexKeys(additionKeys, s.additions.Keys, QueryOrder(pattern), s.vocabulary);
    ValuesReadable(s, c, LastVersion(c));
    var it := new PatchTreeIterator(s.vocabulary, [], map[], additionKeys, s.additions,
                                    0, Jump(additionKeys, QueryOrder(pattern), s.vocabulary, pattern), f, false);
    AdditionsWalk(s, c, additionKeys, pattern);
    it.NothingAsked(s.maxPatchId + 1, 0);
    ChainLists(s, c, triples, pattern, firstVersion);
    r := new PatchTreeTripleVersionsIterator(s, c, triples, it, firstVersion,
                                             Comparator(QueryOrder(pattern), s.vocabulary));
  }

  /** The matching additions, in the order of the pattern. */
  ghost function ArrangedAdditions(s: Store, c: Chain, pattern: Triple): seq<Key> {
    Arranged(MatchingAdditions(s, pattern), c.universe, QueryOrder(pattern), s.vocabulary)
  }

  /** The two lists are in that order, and their union is what is delivered. */
  lemma ChainLists(s: Store, c: Chain, triples: seq<Key>, pattern: Triple, firstVersion: int)
    requires AnnotationReady(s, c, firstVersion)
    requires IsIndex(triples, MatchesOf(Content(c, firstVersion), s.vocabulary, pattern), QueryOrder(pattern),
                     s.vocabulary)
    ensures var cmp, additions := Comparator(QueryOrder(pattern), s.vocabulary), ArrangedAdditions(s, c, pattern);
      && MergeKeys(triples, additions, cmp) == AnnotatedKeys(s, c, pattern, firstVersion)
      && KeysSorted(triples, cmp, c.universe) && KeysSorted(additions, cmp, c.universe)
      && (forall k :: k in triples ==> k in Content(c, firstVersion))
      && (forall k :: k in additions ==> k in s.additions && (k in Content(c, firstVersion) ==> k in triples))
  {
    hide Queryable, Matches, Content, QueryOrder, MergeKeys, KeysSorted, SortedBy, Dictionary;
    var matches := MatchesOf(Content(c, firstVersion), s.vocabulary, pattern);
    QueryableFacts(s, c, LastVersion(c));
    ContentKnown(s, c, firstVersion);
    assert forall k :: k in matches ==> k in Content(c, firstVersion);
    SameIndex(triples, Arranged(matches, c.universe, QueryOrder(pattern), s.vocabulary), matches, c.universe,
              QueryOrder(pattern), s.vocabulary);
    MergeArranged(matches, MatchingAdditions(s, pattern), Comparator(QueryOrder(pattern), s.vocabulary), c.universe);
  }

  /** Every triple of a chain is known. */
  lemma ContentKnown(s: Store, c: Chain, v: int)
    requires Queryable(s, c, LastVersion(c)) && c.min - 1 <= v <= LastVersion(c)
    ensures Content(c, v) <= c.universe
  {
    hide ChainOk, Dictionary, Content;
    forall k | k in Content(c, v) ensures k in c.universe {
      assert EverIn(c, k);
      WholeChainAnnotated(s, c, k);
      SnapshotFirst(c);
    }
  }

  lemma SnapshotFirst(c: Chain)
    ensures Content(c, c.min - 1) == c.snapshot
  {
  }

  lemma AdditionsWalk(s: Store, c: Chain, additionKeys: seq<Key>, pattern: Triple)
    requires Queryable(s, c, LastVersion(c)) && IsPattern(pattern)
    requires IsIndex(additionKeys, s.additions.Keys, QueryOrder(pattern), s.vocabulary)
    ensures var f, limit := PatternFilters(pattern), s.maxPatchId + 1;
      var ahead := Ahead(additionKeys, Jump(additionKeys, QueryOrder(pattern), s.vocabulary, pattern), false);
      && Stream(ahead, AdditionHit(s.additions, s.vocabulary, f, limit), StopAt(s.vocabulary, f)) ==
           ArrangedAdditions(s, c, pattern)
      && StopsAreFinal(ahead, AdditionHit(s.additions, s.vocabulary, f, limit), StopAt(s.vocabulary, f))
  {
    hide Queryable, Matches, Stream, StopsAreFinal, Jump, Ahead, Arranged, Compare, QueryOrder, IsIndex,
         Selection.Select;
    var f, limit := PatternFilters(pattern), s.maxPatchId + 1;
    var hit := AdditionHit(s.additions, s.vocabulary, f, limit);
    QueryableFacts(s, c, LastVersion(c));
    forall k ensures hit(k) <==> k in s.additions && Matches(s.vocabulary(k), pattern)
             ensures StopAt(s.vocabulary, f)(k) ==> !Matches(s.vocabulary(k), pattern) {
      AllMatch(pattern, s.vocabulary(k));
    }
    JumpedSelect(additionKeys, s.additions.Keys, c.universe, s.vocabulary, pattern, hit, StopAt(s.vocabulary, f));
    SelectIndex(additionKeys, s.additions.Keys, c.universe, QueryOrder(pattern), s.vocabulary, hit);
    assert HitsIn(s.additions.Keys, hit) == MatchingAdditions(s, pattern);
  }

  lemma AllMatch(pattern: Triple, t: Triple)
    ensures AllMatching(pattern) ==> Matches(t, pattern)
  {
  }

  /** With the chain's own snapshot, the triples delivered are those ever in the chain, and each is annotated with all
      of its versions. */
  lemma WholeChainAnnotated(s: Store, c: Chain, k: Key)
    requires Queryable(s, c, LastVersion(c))
    ensures k in Content(c, c.min - 1) || k in s.additions <==> EverIn(c, k)
    ensures forall t: TripleVersions :: t.key == k && EverIn(c, k) ==>
      (AnnotatedFrom(t, c, StartOf(s, c, c.min - 1, k)) ==> AnnotatedFrom(t, c, c.min - 1))
  {
    hide Queryable, Content;
    if k in Content(c, c.min - 1) {
    } else if k in s.additions {
      AdditionBegins(s, c, k);
      FirstHere(s, c, k, s.additions[k].patches[0].start);
    } else {
      NeverAdded(s, c, k);
    }
  }

  /** A triple that the snapshot lacks is in no version before its first addition, and in that one. */
  lemma FirstHere(s: Store, c: Chain, k: Key, start: int)
    requires Queryable(s, c, LastVersion(c)) && k !in Content(c, c.min - 1) && k in s.additions
    requires s.additions[k].patches != [] && start == s.additions[k].patches[0].start &&
             c.min <= start <= LastVersion(c)
    ensures k in Content(c, start) && forall v :: c.min - 1 <= v < start ==> k !in Content(c, v)
  {
    hide RanksTrue, CountsTrue, RanksOk, Dictionary, Represents;
    var e := s.Nodes().EntryOf(k);
    assert Represents(e, k, c.snapshot, c.history, c.min);
    EntryTells(e, k, c, start);
    Edges(e.add, 0);
    forall v | c.min - 1 <= v < start ensures k !in Content(c, v) {
      ContentAt(s, c, k, v);
      if v >= c.min { EntryTells(e, k, c, v); }
    }
  }

  /** A triple is there when it is first added. */
  lemma ThereWhenAdded(s: Store, c: Chain, k: Key)
    requires Queryable(s, c, LastVersion(c)) && k in s.additions
    ensures s.additions[k].patches != [] && c.min <= s.additions[k].patches[0].start <= LastVersion(c)
    ensures k in Content(c, s.additions[k].patches[0].start)
  {
    AdditionBegins(s, c, k);
    hide RanksTrue, CountsTrue, RanksOk, Dictionary, Represents;
    var e := s.Nodes().EntryOf(k);
    assert Represents(e, k, c.snapshot, c.history, c.min);
    EntryTells(e, k, c, s.additions[k].patches[0].start);
    Edges(e.add, 0);
  }

  lemma NeverAdded(s: Store, c: Chain, k: Key)
    requires Queryable(s, c, LastVersion(c)) && k !in Content(c, c.min - 1) && k !in s.additions
    ensures !EverIn(c, k)
  {
    hide RanksTrue, CountsTrue, RanksOk, Dictionary, Represents;
    var e := s.Nodes().EntryOf(k);
    assert Represents(e, k, c.snapshot, c.history, c.min);
    assert forall x :: !In([], x);
    forall v | c.min - 1 <= v <= LastVersion(c) ensures k !in Content(c, v) {
      if v >= c.min { EntryTells(e, k, c, v); }
    }
  }
}
