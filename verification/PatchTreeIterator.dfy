/** Walking the deletion and the addition tree of a chain, filtered, apart or merged. */
module PatchTreeIterators {
  import opened OrderedKeys
  import opened Intervals
  import opened Positions
  import opened Values
  import opened AdditionValues
  import opened DeletionValues
  import opened Triples
  import opened TreeIndexes
  import opened TreeValues

  /** The filters of an iterator. Local changes are dropped relative to the patch filter. */
  datatype Filters = Filters(patchId: Option<int>, exact: bool, pattern: Option<Triple>, dropLocal: bool,
                             earlyBreak: bool) {
    predicate Valid() {
      dropLocal ==> patchId.Some?
    }

    predicate Selects(t: Triple) {
      pattern.None? || Matches(t, pattern.value)
    }

    predicate StopsAt(t: Triple) {
      earlyBreak && !Selects(t)
    }
  }

  function AllMatching(pattern: Triple): bool {
    pattern == Triple(BLANK, BLANK, BLANK)
  }

  /** What `is_local_change` answers a reader of a deletion value who knows of no version at or past `limit`. */
  ghost predicate LocalSeen(d: DeletionData, v: int, limit: int) {
    var ids, size := Ids(d.patches, MAX, limit), SizeSeen(d, limit);
    var k := PlaceOf(ids, v);
    size != 0 && (k >= 0 || 0 < size <= |ids|) && In(d.localChanges, if k >= 0 then v else ids[size - 1])
  }

  /** One of the first `size` listed versions is at or before `v`. */
  ghost predicate AnyUpTo(ids: seq<int>, size: int, v: int) {
    exists i :: 0 <= i < size && i < |ids| && ids[i] <= v
  }

  ghost predicate AnyFromZeroUpTo(ids: seq<int>, size: int, v: int) {
    exists i :: 0 <= i < size && i < |ids| && 0 <= ids[i] <= v
  }

  /** Which deletion values a patch filter lets pass: those that hold the version, or any version up to it. */
  ghost predicate DeletionPasses(d: DeletionData, f: Filters, limit: int) {
    f.patchId.Some? ==>
      var ids := Ids(d.patches, MAX, limit);
      if f.exact then PlaceOf(ids, f.patchId.value) >= 0
      else AnyUpTo(ids, SizeSeen(d, limit), f.patchId.value)
  }

  ghost predicate AdditionPasses(d: AdditionData, f: Filters, limit: int) {
    f.patchId.Some? ==>
      if f.exact then 0 <= f.patchId.value < limit && In(d.patches, f.patchId.value)
      else
        var ids := Ids(d.patches, MAX, limit);
        AnyFromZeroUpTo(ids, |ids| - Overrun(d.patches, MAX, limit), f.patchId.value)
  }

  ghost function DeletionHit(m: map<Key, DeletionData>, vocabulary: Key -> Triple, f: Filters,
                             limit: int): Key -> bool {
    (k: Key) =>
      && k in m && f.Selects(vocabulary(k)) && DeletionPasses(m[k], f, limit)
      && (f.dropLocal && f.patchId.Some? ==> !LocalSeen(m[k], f.patchId.value, limit))
  }

  ghost function AdditionHit(m: map<Key, AdditionData>, vocabulary: Key -> Triple, f: Filters,
                             limit: int): Key -> bool {
    (k: Key) =>
      && k in m && f.Selects(vocabulary(k)) && AdditionPasses(m[k], f, limit)
      && (f.dropLocal && f.patchId.Some? ==> !In(m[k].localChanges, f.patchId.value))
  }

  /** Looking for the version in the runs of such a key steps back from the first of them, which is undefined. */
  ghost function Unbegun(m: map<Key, AdditionData>, vocabulary: Key -> Triple, f: Filters, limit: int): Key -> bool {
    (k: Key) =>
      && k in m && f.Selects(vocabulary(k)) && f.patchId.Some? && f.exact && 0 <= f.patchId.value < limit
      && m[k].patches != [] && f.patchId.value < m[k].patches[0].start
  }

  ghost function StopAt(vocabulary: Key -> Triple, f: Filters): Key -> bool {
    (k: Key) => f.StopsAt(vocabulary(k))
  }

  ghost predicate AdditionReadable(d: AdditionData) {
    && WellFormed(d.patches, MAX) && WellFormed(d.localChanges, MAX)
    && (d.localChanges != [] && d.patches != [] ==> d.localChanges[0].start <= d.patches[0].start)
  }

  lemma StreamStep(keys: seq<Key>, c: int, reverse: bool, hit: Key -> bool, stop: Key -> bool)
    requires 0 <= c < |keys|
    ensures var k, rest := keys[c], Stream(Ahead(keys, if reverse then c - 1 else c + 1, reverse), hit, stop);
            Stream(Ahead(keys, c, reverse), hit, stop) ==
            if stop(k) then [] else if hit(k) then [k] + rest else rest
  {
    var rest := Ahead(keys, if reverse then c - 1 else c + 1, reverse);
    AheadStep(keys, c, reverse);
    assert ([keys[c]] + rest)[1..] == rest;
  }

  lemma StreamEnd(keys: seq<Key>, c: int, reverse: bool, hit: Key -> bool, stop: Key -> bool)
    requires c < 0 || c >= |keys|
    ensures Stream(Ahead(keys, c, reverse), hit, stop) == []
  {
  }

  lemma StopsWhere(vocabulary: Key -> Triple, f: Filters, k: Key)
    ensures StopAt(vocabulary, f)(k) <==> f.StopsAt(vocabulary(k))
  {
  }

  /** No listed version lies below the first run. */
  lemma ListedFrom(iv: seq<Interval>, limit: int, i: nat)
    requires WellFormed(iv, MAX) && limit <= MAX && i < |Ids(iv, MAX, limit)|
    ensures iv != [] && iv[0].start <= Ids(iv, MAX, limit)[i]
  {
    IdsCorrect(iv, MAX, limit);
    var x := Ids(iv, MAX, limit)[i];
    assert x in Ids(iv, MAX, limit);
    if iv != [] { Edges(iv, 0); }
  }

  /** A triple delivered by the merge of the two trees, and which of them hold it. */
  datatype Found = Found(key: Key, deleted: bool, added: bool)

  /** The merge of two walks; a triple of both is delivered once. */
  ghost function Merged(dels: seq<Key>, adds: seq<Key>): seq<Found>
    decreases |dels| + |adds|
  {
    if dels == [] && adds == [] then []
    else if adds == [] || (dels != [] && dels[0] < adds[0]) then [Found(dels[0], true, false)] + Merged(dels[1..], adds)
    else if dels == [] || adds[0] < dels[0] then [Found(adds[0], false, true)] + Merged(dels, adds[1..])
    else [Found(dels[0], true, true)] + Merged(dels[1..], adds[1..])
  }

  /** The head of the merge, and what is left of it. */
  lemma MergedHead(dels: seq<Key>, adds: seq<Key>)
    ensures var m := Merged(dels, adds);
      if dels == [] && adds == [] then m == []
      else if adds == [] || (dels != [] && dels[0] < adds[0]) then
        m != [] && m[0] == Found(dels[0], true, false) && m[1..] == Merged(dels[1..], adds)
      else if dels == [] || adds[0] < dels[0] then
        m != [] && m[0] == Found(adds[0], false, true) && m[1..] == Merged(dels, adds[1..])
      else m != [] && m[0] == Found(dels[0], true, true) && m[1..] == Merged(dels[1..], adds[1..])
  {
  }

  /** The flag of a delivered triple is that of its addition, if it has one. */
  ghost predicate LocalFound(f: Found, deletions: map<Key, DeletionData>, additions: map<Key, AdditionData>, v: int,
                             limit: int) {
    if f.added then f.key in additions && In(additions[f.key].localChanges, v)
    else f.key in deletions && LocalSeen(deletions[f.key], v, limit)
  }

  ghost function WithoutLocal(m: seq<Found>, drop: bool, deletions: map<Key, DeletionData>,
                              additions: map<Key, AdditionData>, v: int, limit: int): seq<Found> {
    if m == [] then []
    else (if drop && LocalFound(m[0], deletions, additions, v, limit) then [] else [m[0]]) +
         WithoutLocal(m[1..], drop, deletions, additions, v, limit)
  }

  lemma DeliverStep(m: seq<Found>, drop: bool, deletions: map<Key, DeletionData>,
                    additions: map<Key, AdditionData>, v: int, limit: int)
    ensures m == [] ==> WithoutLocal(m, drop, deletions, additions, v, limit) == []
    ensures m != [] ==>
      var rest := WithoutLocal(m[1..], drop, deletions, additions, v, limit);
      && (drop && LocalFound(m[0], deletions, additions, v, limit) ==>
            WithoutLocal(m, drop, deletions, additions, v, limit) == rest)
      && (!(drop && LocalFound(m[0], deletions, additions, v, limit)) ==>
            && WithoutLocal(m, drop, deletions, additions, v, limit) != []
            && WithoutLocal(m, drop, deletions, additions, v, limit)[0] == m[0]
            && WithoutLocal(m, drop, deletions, additions, v, limit)[1..] == rest)
  {
  }

  /** `value` holds what the trees have of a delivered triple. */
  ghost predicate Loaded(value: PatchTreeValue, f: Found, deletions: map<Key, DeletionData>,
                         additions: map<Key, AdditionData>)
    reads value, value.addition.patches, value.addition.localChanges
    reads value.deletion.patches, value.deletion.localChanges, value.deletion.patchPositions
  {
    && value.hasDeletion == f.deleted && value.hasAddition == f.added
    && (f.deleted ==> f.key in deletions && value.deletion.Data() == deletions[f.key])
    && (f.added ==> f.key in additions && value.addition.Data() == additions[f.key])
  }

  class PatchTreeIterator {
    const vocabulary: Key -> Triple
    const deletionKeys: seq<Key>  // the deletion tree in the order of the index walked over
    const deletions: map<Key, DeletionData>
    const additionKeys: seq<Key>
    const additions: map<Key, AdditionData>
    var cursorDeletions: int
    var cursorAdditions: int
    var filters: Filters
    var reverse: bool
    var hasTempKeyDeletion: bool  // a key already fetched, to be delivered in a later turn of the merge
    var hasTempKeyAddition: bool
    var tempKeyDeletion: Key
    var tempKeyAddition: Key

    constructor (vocabulary: Key -> Triple, deletionKeys: seq<Key>, deletions: map<Key, DeletionData>,
                 additionKeys: seq<Key>, additions: map<Key, AdditionData>,
                 cursorDeletions: int, cursorAdditions: int, filters: Filters, reverse: bool)
      ensures this.vocabulary == vocabulary && this.deletionKeys == deletionKeys && this.deletions == deletions
      ensures this.additionKeys == additionKeys && this.additions == additions
      ensures this.cursorDeletions == cursorDeletions && this.cursorAdditions == cursorAdditions
      ensures this.filters == filters && this.reverse == reverse && !hasTempKeyDeletion && !hasTempKeyAddition
    {
      this.vocabulary := vocabulary;
      this.deletionKeys, this.deletions := deletionKeys, deletions;
      this.additionKeys, this.additions := additionKeys, additions;
      this.cursorDeletions, this.cursorAdditions := cursorDeletions, cursorAdditions;
      this.filters, this.reverse := filters, reverse;
      hasTempKeyDeletion, hasTempKeyAddition, tempKeyDeletion, tempKeyAddition := false, false, 0, 0;
    }

    ghost predicate Valid()
      reads `filters
    {
      && filters.Valid()
      && (forall k :: k in deletionKeys ==> k in deletions) && (forall k :: k in deletions ==> Readable(deletions[k]))
      && (forall k :: k in additionKeys ==> k in additions) &&
         (forall k :: k in additions ==> AdditionReadable(additions[k]))
    }

    /** A walk over the additions from a position on can go on for `n` hits: all values asked for the version begin at
        or before it. */
    ghost predicate ReachFrom(c: int, limit: int, n: nat)
      reads `reverse, `filters
    {
      WalksSafely(Ahead(additionKeys, c, reverse), AdditionHit(additions, vocabulary, filters, limit),
                  StopAt(vocabulary, filters), Unbegun(additions, vocabulary, filters, limit), n)
    }

    ghost predicate InReach(limit: int, n: nat)
      reads `cursorAdditions, `reverse, `filters
    {
      ReachFrom(cursorAdditions, limit, n)
    }

    lemma FewerInReach(limit: int, n: nat, m: nat)
      requires InReach(limit, n) && m <= n
      ensures InReach(limit, m)
    {
      SafeFewer(Ahead(additionKeys, cursorAdditions, reverse), AdditionHit(additions, vocabulary, filters, limit),
                StopAt(vocabulary, filters), Unbegun(additions, vocabulary, filters, limit), n, m);
    }

    lemma NoneInReach(limit: int)
      ensures InReach(limit, 0)
    {
    }

    lemma ReachStep(limit: int)
      requires 0 <= cursorAdditions < |additionKeys|
      ensures var k, next := additionKeys[cursorAdditions],
                           if reverse then cursorAdditions - 1 else cursorAdditions + 1;
        var hit, stop := AdditionHit(additions, vocabulary, filters, limit)(k), StopAt(vocabulary, filters)(k);
        && (forall n: nat :: n > 0 ==>
              (InReach(limit, n) <==>
               stop || (!Unbegun(additions, vocabulary, filters, limit)(k) &&
                        ReachFrom(next, limit, if hit then n - 1 else n))))
        && (AdditionStopsAreFinal(limit) && stop ==> forall n: nat :: ReachFrom(next, limit, n))
    {
      hide AdditionHit, StopAt, StopsAreFinal, Ahead, Unbegun, WalksSafely;
      var hit, stop := AdditionHit(additions, vocabulary, filters, limit), StopAt(vocabulary, filters);
      var bad := Unbegun(additions, vocabulary, filters, limit);
      forall n: nat { SafeStep(additionKeys, cursorAdditions, reverse, hit, stop, bad, n); }
      var next := if reverse then cursorAdditions - 1 else cursorAdditions + 1;
      if AdditionStopsAreFinal(limit) && stop(additionKeys[cursorAdditions]) {
        forall n: nat ensures ReachFrom(next, limit, n) {
          SafeBehindStop(additionKeys, cursorAdditions, reverse, hit, stop, bad, n);
        }
      }
    }

    /** Without an exact patch filter no value is asked for a version. */
    lemma NothingAsked(limit: int, n: nat)
      requires filters.patchId.None? || !filters.exact
      ensures InReach(limit, n)
      ensures StopsAreFinal(Ahead(additionKeys, cursorAdditions, reverse),
                            Unbegun(additions, vocabulary, filters, limit), StopAt(vocabulary, filters))
    {
      NothingBad(Ahead(additionKeys, cursorAdditions, reverse), AdditionHit(additions, vocabulary, filters, limit),
                 StopAt(vocabulary, filters), Unbegun(additions, vocabulary, filters, limit), n);
    }

    /** What is left to be delivered from the deletion tree. */
    ghost function RestDeletions(limit: int): (r: seq<Key>)
      reads `cursorDeletions, `reverse, `filters
      ensures forall k :: k in r ==> k in deletionKeys && k in deletions
    {
      Stream(Ahead(deletionKeys, cursorDeletions, reverse), DeletionHit(deletions, vocabulary, filters, limit),
             StopAt(vocabulary, filters))
    }

    ghost predicate AdditionStopsAreFinal(limit: int)
      reads `cursorAdditions, `reverse, `filters
    {
      var ahead, stop := Ahead(additionKeys, cursorAdditions, reverse), StopAt(vocabulary, filters);
      && StopsAreFinal(ahead, AdditionHit(additions, vocabulary, filters, limit), stop)
      && StopsAreFinal(ahead, Unbegun(additions, vocabulary, filters, limit), stop)
    }

    ghost function RestAdditions(limit: int): seq<Key>
      reads `cursorAdditions, `reverse, `filters
    {
      Stream(Ahead(additionKeys, cursorAdditions, reverse), AdditionHit(additions, vocabulary, filters, limit),
             StopAt(vocabulary, filters))
    }

    method NextDeletion(value: DeletionValue, silentStep: bool) returns (found: bool, key: Key)
      requires Valid() && value.Valid() && value.maxPatchId <= MAX
      modifies `cursorDeletions, value.patches, value.localChanges, value.patchPositions
      ensures Valid() && value.Valid()
      ensures var rest := old(RestDeletions(value.maxPatchId));
        if rest == [] then !found && RestDeletions(value.maxPatchId) == []
        else
          && found && key == rest[0] && key in deletions && value.Data() == deletions[key]
          && RestDeletions(value.maxPatchId) == if silentStep then rest else rest[1..]
    {
      hide DeletionHit, WellFormed, InOrder, StopAt, Stream;
      ghost var limit := value.maxPatchId;
      key := 0;
      while true
        invariant Valid() && value.Valid() && filters == old(filters) && reverse == old(reverse)
        invariant RestDeletions(limit) == old(RestDeletions(limit))
        decreases if reverse then cursorDeletions else |deletionKeys| - cursorDeletions
      {
        if cursorDeletions < 0 || cursorDeletions >= |deletionKeys| {
          StreamEnd(deletionKeys, cursorDeletions, reverse, DeletionHit(deletions, vocabulary, filters, limit),
                    StopAt(vocabulary, filters));
          return false, key;
        }
        key := deletionKeys[cursorDeletions];
        assert key in deletionKeys;
        value.Load(deletions[key]);
        StreamStep(deletionKeys, cursorDeletions, reverse, DeletionHit(deletions, vocabulary, filters, limit),
                   StopAt(vocabulary, filters));
        StopsWhere(vocabulary, filters, key);
        if filters.earlyBreak && !filters.Selects(vocabulary(key)) {
          return false, key;
        }
        var valid := AcceptsDeletion(key, value);
        if !silentStep || !valid {
          cursorDeletions := if reverse then cursorDeletions - 1 else cursorDeletions + 1;
        }
        if valid {
          return true, key;
        }
      }
    }

    method AcceptsDeletion(key: Key, value: DeletionValue) returns (valid: bool)
      requires filters.Valid() && key in deletions && Readable(deletions[key])
      requires value.Valid() && value.maxPatchId <= MAX && value.Data() == deletions[key]
      ensures valid <==> DeletionHit(deletions, vocabulary, filters, value.maxPatchId)(key)
    {
      hide Ids, Overrun, PlaceOf, In, Readable, AnyUpTo, Matches;
      valid := filters.Selects(vocabulary(key));
      if valid && filters.patchId.Some? {
        if filters.exact {
          var element := value.GetPatchvalueIndex(filters.patchId.value);
          valid := element >= 0;
        } else {
          valid := HasVersionUpTo(filters.patchId.value, value);
        }
      }
      if valid && filters.dropLocal {
        var isLocalChange := value.IsLocalChange(filters.patchId.value);
        valid := !isLocalChange;
      }
    }

    method HasVersionUpTo(patchId: int, value: DeletionValue) returns (valid: bool)
      requires value.Valid() && value.maxPatchId <= MAX && Readable(value.Data())
      ensures valid ==> SizeSeen(value.Data(), value.maxPatchId) > 0
      ensures valid <==> AnyUpTo(value.Listed(), SizeSeen(value.Data(), value.maxPatchId), patchId)
    {
      valid := false;
      var size := value.GetSize();
      var i := size - 1;
      while i >= 0 && !valid
        invariant i < size
        invariant valid ==> exists j :: 0 <= j < size && j < |value.Listed()| && value.Listed()[j] <= patchId
        invariant !valid ==> forall j :: i < j < size && j < |value.Listed()| && 0 <= j ==> value.Listed()[j] > patchId
      {
        var element := value.GetPatchAt(i);
        if element.patchId <= patchId {
          valid := true;
        }
        i := i - 1;
      }
    }

    method NextAddition(value: AdditionValue) returns (found: bool, key: Key)
      requires Valid() && InReach(value.maxPatchId, 1) && value.Valid() && value.maxPatchId <= MAX
      modifies `cursorAdditions, value.patches, value.localChanges
      ensures Valid() && value.Valid()
      ensures old(AdditionStopsAreFinal(value.maxPatchId)) ==>
                && AdditionStopsAreFinal(value.maxPatchId)
                && (!found ==> RestAdditions(value.maxPatchId) == [] && forall n: nat :: InReach(value.maxPatchId, n))
      ensures found ==> forall n: nat :: InReach(value.maxPatchId, n) <==> old(InReach(value.maxPatchId, n + 1))
      ensures !found ==> forall n: nat :: old(InReach(value.maxPatchId, n))
      ensures var rest := old(RestAdditions(value.maxPatchId));
        if rest == [] then !found
        else
          && found && key == rest[0] && key in additions && value.Data() == additions[key]
          && RestAdditions(value.maxPatchId) == rest[1..]
    {
      hide AdditionHit, WellFormed, StopAt, StopsAreFinal, Stream, Ahead, Unbegun, ReachFrom;
      NoneInReach(value.maxPatchId);
      key := 0;
      while true
        invariant Valid() && value.Valid()
        invariant forall n: nat :: n > 0 ==> (InReach(value.maxPatchId, n) <==> old(InReach(value.maxPatchId, n)))
        invariant RestAdditions(value.maxPatchId) == old(RestAdditions(value.maxPatchId))
        invariant old(AdditionStopsAreFinal(value.maxPatchId)) ==> AdditionStopsAreFinal(value.maxPatchId)
        decreases if reverse then cursorAdditions else |additionKeys| - cursorAdditions
      {
        if cursorAdditions < 0 || cursorAdditions >= |additionKeys| {
          StreamEnd(additionKeys, cursorAdditions, reverse,
                    AdditionHit(additions, vocabulary, filters, value.maxPatchId), StopAt(vocabulary, filters));
          OffTheEnd(value.maxPatchId);
          return false, key;
        }
        var ended;
        found, ended, key := TryAddition(value);
        if found || ended {
          return found, key;
        }
      }
    }

    lemma OffTheEnd(limit: int)
      requires cursorAdditions < 0 || cursorAdditions >= |additionKeys|
      ensures forall n: nat :: InReach(limit, n)
    {
    }

    /** One turn of the loop: reads the record under the cursor and steps off it. */
    method TryAddition(value: AdditionValue) returns (found: bool, ended: bool, key: Key)
      requires Valid() && InReach(value.maxPatchId, 1) && value.Valid() && value.maxPatchId <= MAX
      requires 0 <= cursorAdditions < |additionKeys|
      modifies `cursorAdditions, value.patches, value.localChanges
      ensures Valid() && value.Valid()
      ensures cursorAdditions == if reverse then old(cursorAdditions) - 1 else old(cursorAdditions) + 1
      ensures old(AdditionStopsAreFinal(value.maxPatchId)) ==>
                && AdditionStopsAreFinal(value.maxPatchId)
                && (ended ==> RestAdditions(value.maxPatchId) == [] && forall n: nat :: InReach(value.maxPatchId, n))
      ensures !ended ==> forall n: nat :: n > 0 ==>
                (old(InReach(value.maxPatchId, n)) <==> InReach(value.maxPatchId, if found then n - 1 else n))
      ensures ended ==> forall n: nat :: n > 0 ==> old(InReach(value.maxPatchId, n))
      ensures ended ==> !found && old(RestAdditions(value.maxPatchId)) == []
      ensures found ==> key in additions && value.Data() == additions[key]
      ensures !ended ==>
                old(RestAdditions(value.maxPatchId)) == (if found then [key] else []) + RestAdditions(value.maxPatchId)
    {
      hide AdditionHit, WellFormed, StopAt, StopsAreFinal, Stream, Ahead, Unbegun, ReachFrom;
      ghost var hit, stop := AdditionHit(additions, vocabulary, filters, value.maxPatchId), StopAt(vocabulary, filters);
      key := additionKeys[cursorAdditions];
      assert key in additionKeys;
      StreamStep(additionKeys, cursorAdditions, reverse, hit, stop);
      StopsWhere(vocabulary, filters, key);
      ReachStep(value.maxPatchId);
      if AdditionStopsAreFinal(value.maxPatchId) {
        StopEnds(additionKeys, cursorAdditions, reverse, hit, stop);
        StopEnds(additionKeys, cursorAdditions, reverse, Unbegun(additions, vocabulary, filters, value.maxPatchId),
                 stop);
      }
      cursorAdditions := if reverse then cursorAdditions - 1 else cursorAdditions + 1;
      value.Load(additions[key]);
      if filters.earlyBreak && !filters.Selects(vocabulary(key)) {
        return false, true, key;
      }
      found := AcceptsAddition(key, value);
      ended := false;
    }

    method AcceptsAddition(key: Key, value: AdditionValue) returns (valid: bool)
      requires filters.Valid() && key in additions && AdditionReadable(additions[key])
      requires !Unbegun(additions, vocabulary, filters, value.maxPatchId)(key)
      requires value.Valid() && value.maxPatchId <= MAX && value.Data() == additions[key]
      ensures valid <==> AdditionHit(additions, vocabulary, filters, value.maxPatchId)(key)
    {
      hide Ids, Overrun, AnyFromZeroUpTo, Matches;
      valid := filters.Selects(vocabulary(key));
      if valid && filters.patchId.Some? {
        if filters.exact {
          valid := value.IsPatchId(filters.patchId.value);
        } else {
          valid := AddedUpTo(filters.patchId.value, value);
        }
      }
      if valid && filters.dropLocal {
        var isLocalChange := value.IsLocalChange(filters.patchId.value);
        valid := !isLocalChange;
      }
    }

    method AddedUpTo(patchId: int, value: AdditionValue) returns (valid: bool)
      requires value.Valid() && value.maxPatchId <= MAX
      requires WellFormed(value.patches.intervals, MAX)
      ensures valid ==> value.patches.intervals != [] && value.patches.intervals[0].start <= patchId
      ensures valid <==> AnyFromZeroUpTo(value.Listed(),
                                         |value.Listed()| - Overrun(value.patches.intervals, MAX, value.maxPatchId),
                                         patchId)
    {
      valid := false;
      var size := value.GetSize();
      var i := size - 1;
      while i >= 0 && !valid
        invariant i < size
        invariant valid ==> exists j :: 0 <= j < size && j < |value.Listed()| && 0 <= value.Listed()[j] <= patchId
        invariant valid ==> value.patches.intervals != [] && value.patches.intervals[0].start <= patchId
        invariant !valid ==> forall j :: i < j < size && j < |value.Listed()| && 0 <= j ==>
                    !(0 <= value.Listed()[j] <= patchId)
      {
        var id := value.GetPatchIdAt(i);
        if 0 <= id && id <= patchId {
          ListedFrom(value.patches.intervals, value.maxPatchId, i);
          valid := true;
        }
        i := i - 1;
      }
    }

    // ----- the merge

    /** The merge fetches local changes too, and drops them afterwards. */
    ghost function Undropped(): Filters
      reads `filters
    {
      filters.(dropLocal := false)
    }

    ghost function DeletionsToMerge(limit: int): seq<Key>
      reads `cursorDeletions, `reverse, `filters
    {
      Stream(Ahead(deletionKeys, cursorDeletions, reverse), DeletionHit(deletions, vocabulary, Undropped(), limit),
             StopAt(vocabulary, Undropped()))
    }

    ghost function AdditionsToMerge(limit: int): seq<Key>
      reads `cursorAdditions, `reverse, `filters
    {
      Stream(Ahead(additionKeys, cursorAdditions, reverse), AdditionHit(additions, vocabulary, Undropped(), limit),
             StopAt(vocabulary, Undropped()))
    }

    ghost function PendingDeletions(limit: int): seq<Key>
      reads this
    {
      if hasTempKeyDeletion then [tempKeyDeletion] + DeletionsToMerge(limit) else DeletionsToMerge(limit)
    }

    ghost function PendingAdditions(limit: int): seq<Key>
      reads this
    {
      if hasTempKeyAddition then [tempKeyAddition] + AdditionsToMerge(limit) else AdditionsToMerge(limit)
    }

    ghost function ToDeliver(limit: int): seq<Found>
      reads this
      requires filters.patchId.Some?
    {
      WithoutLocal(Merged(PendingDeletions(limit), PendingAdditions(limit)), filters.dropLocal, deletions, additions,
                   filters.patchId.value, limit)
    }

    /** The two walks have a patch filter that is not exact; the value holds what was fetched ahead. */
    ghost predicate Merging(value: PatchTreeValue)
      reads this, value, value.addition, value.addition.patches, value.addition.localChanges
      reads value.deletion, value.deletion.patches, value.deletion.localChanges, value.deletion.patchPositions
    {
      && Valid() && value.Valid() && filters.patchId.Some? && !filters.exact
      && StopsAreFinal(Ahead(additionKeys, cursorAdditions, reverse),
                       AdditionHit(additions, vocabulary, Undropped(), value.addition.maxPatchId),
                       StopAt(vocabulary, Undropped()))
      && (hasTempKeyDeletion ==>
            && DeletionHit(deletions, vocabulary, Undropped(), value.deletion.maxPatchId)(tempKeyDeletion)
            && tempKeyDeletion in deletions && value.deletion.Data() == deletions[tempKeyDeletion])
      && (hasTempKeyAddition ==>
            && AdditionHit(additions, vocabulary, Undropped(), value.addition.maxPatchId)(tempKeyAddition)
            && tempKeyAddition in additions && value.addition.Data() == additions[tempKeyAddition])
    }

    /** Fetches the next deletion, unless one is held already. */
    method HeadDeletion(value: PatchTreeValue) returns (had: bool)
      requires Merging(value) && !filters.dropLocal
      modifies `cursorDeletions, `tempKeyDeletion
      modifies value.deletion.patches, value.deletion.localChanges, value.deletion.patchPositions
      ensures Valid() && value.Valid()
      ensures var pending, limit := old(PendingDeletions(value.deletion.maxPatchId)), value.deletion.maxPatchId;
        if pending == [] then !had && DeletionsToMerge(limit) == []
        else
          && had && tempKeyDeletion == pending[0] && DeletionsToMerge(limit) == pending[1..]
          && DeletionHit(deletions, vocabulary, Undropped(), limit)(tempKeyDeletion)
          && tempKeyDeletion in deletions && value.deletion.Data() == deletions[tempKeyDeletion]
    {
      hide DeletionHit, AdditionHit, Stream, Ahead, StopAt, StopsAreFinal, Readable, AdditionReadable;
      had := hasTempKeyDeletion;
      if !had {
        assert filters == Undropped();
        had, tempKeyDeletion := NextDeletion(value.deletion, false);
      }
    }

    method HeadAddition(value: PatchTreeValue) returns (had: bool)
      requires Merging(value) && !filters.dropLocal
      modifies `cursorAdditions, `tempKeyAddition, value.addition.patches, value.addition.localChanges
      ensures Valid() && value.Valid()
      ensures StopsAreFinal(Ahead(additionKeys, cursorAdditions, reverse),
                            AdditionHit(additions, vocabulary, Undropped(), value.addition.maxPatchId),
                            StopAt(vocabulary, Undropped()))
      ensures var pending, limit := old(PendingAdditions(value.addition.maxPatchId)), value.addition.maxPatchId;
        if pending == [] then !had && AdditionsToMerge(limit) == []
        else
          && had && tempKeyAddition == pending[0] && AdditionsToMerge(limit) == pending[1..]
          && AdditionHit(additions, vocabulary, Undropped(), limit)(tempKeyAddition)
          && tempKeyAddition in additions && value.addition.Data() == additions[tempKeyAddition]
    {
      hide DeletionHit, AdditionHit, Stream, Ahead, StopAt, StopsAreFinal, Readable, AdditionReadable, Unbegun,
           WalksSafely;
      had := hasTempKeyAddition;
      if !had {
        NothingAsked(value.addition.maxPatchId, 1);
        assert filters == Undropped() && AdditionStopsAreFinal(value.addition.maxPatchId);
        had, tempKeyAddition := NextAddition(value.addition);
      }
    }

    /** The heads of the two walks have been fetched. */
    ghost predicate Fetched(value: PatchTreeValue, dels: seq<Key>, adds: seq<Key>, hadDeletion: bool, hadAddition: bool)
      reads this, value, value.addition, value.addition.patches, value.addition.localChanges
      reads value.deletion, value.deletion.patches, value.deletion.localChanges, value.deletion.patchPositions
    {
      var limit := value.addition.maxPatchId;
      && Valid() && value.Valid() && filters.patchId.Some? && !filters.exact
      && StopsAreFinal(Ahead(additionKeys, cursorAdditions, reverse),
                       AdditionHit(additions, vocabulary, Undropped(), limit), StopAt(vocabulary, Undropped()))
      && (hadDeletion <==> dels != []) && (hadAddition <==> adds != [])
      && (hasTempKeyDeletion ==> dels != []) && (hasTempKeyAddition ==> adds != [])
      && DeletionsToMerge(limit) == (if dels == [] then [] else dels[1..])
      && AdditionsToMerge(limit) == (if adds == [] then [] else adds[1..])
      && (dels != [] ==>
            && tempKeyDeletion == dels[0] && DeletionHit(deletions, vocabulary, Undropped(), limit)(tempKeyDeletion)
            && tempKeyDeletion in deletions && value.deletion.Data() == deletions[tempKeyDeletion])
      && (adds != [] ==>
            && tempKeyAddition == adds[0] && AdditionHit(additions, vocabulary, Undropped(), limit)(tempKeyAddition)
            && tempKeyAddition in additions && value.addition.Data() == additions[tempKeyAddition])
    }

    /** Fetches both heads, with local changes. */
    method Fetch(value: PatchTreeValue) returns (hadDeletion: bool, hadAddition: bool)
      requires Merging(value)
      modifies `filters, `cursorDeletions, `cursorAdditions, `tempKeyDeletion, `tempKeyAddition
      modifies value.addition.patches, value.addition.localChanges
      modifies value.deletion.patches, value.deletion.localChanges, value.deletion.patchPositions
      ensures filters == old(filters)
      ensures Fetched(value, old(PendingDeletions(value.addition.maxPatchId)),
                      old(PendingAdditions(value.addition.maxPatchId)), hadDeletion, hadAddition)
    {
      hide DeletionHit, AdditionHit, Stream, Ahead, StopAt, StopsAreFinal, Readable, AdditionReadable, WellFormed,
           InOrder, In, Increasing;
      var oldIsFilterLocalChanges := filters.dropLocal;
      ghost var u := Undropped();
      filters := filters.(dropLocal := false);
      assert Undropped() == u;
      hadDeletion, hadAddition := FetchAll(value);
      filters := filters.(dropLocal := oldIsFilterLocalChanges);
      assert Undropped() == u;
    }

    method FetchAll(value: PatchTreeValue) returns (hadDeletion: bool, hadAddition: bool)
      requires Merging(value) && !filters.dropLocal
      modifies `cursorDeletions, `cursorAdditions, `tempKeyDeletion, `tempKeyAddition
      modifies value.addition.patches, value.addition.localChanges
      modifies value.deletion.patches, value.deletion.localChanges, value.deletion.patchPositions
      ensures Fetched(value, old(PendingDeletions(value.addition.maxPatchId)),
                      old(PendingAdditions(value.addition.maxPatchId)), hadDeletion, hadAddition)
    {
      hide DeletionHit, AdditionHit, Stream, Ahead, StopAt, StopsAreFinal, Readable, AdditionReadable, WellFormed,
           InOrder, Valid, DeletionsToMerge, AdditionsToMerge;
      hadDeletion := HeadDeletion(value);
      hadAddition := HeadAddition(value);
    }

    /** One turn of the merge: delivers the smaller of the two heads, or both when they are equal, and keeps the other
        for later. */
    method MergeTurn(value: PatchTreeValue, hadDeletion: bool, hadAddition: bool, ghost dels: seq<Key>,
                     ghost adds: seq<Key>)
      returns (found: bool, key: Key)
      requires Fetched(value, dels, adds, hadDeletion, hadAddition)
      modifies `hasTempKeyDeletion, `hasTempKeyAddition, value
      ensures Merging(value)
      ensures var limit := value.addition.maxPatchId;
        var m := Merged(dels, adds);
        if m == [] then !found && (hasTempKeyDeletion == old(hasTempKeyDeletion)) &&
           hasTempKeyAddition == old(hasTempKeyAddition)
        else
          && found && key == m[0].key && Loaded(value, m[0], deletions, additions) && (m[0].deleted || m[0].added)
          && Merged(PendingDeletions(limit), PendingAdditions(limit)) == m[1..]
          && (m[0].deleted ==> DeletionHit(deletions, vocabulary, Undropped(), limit)(key))
          && (m[0].added ==> AdditionHit(additions, vocabulary, Undropped(), limit)(key))
    {
      hide DeletionHit, AdditionHit, Stream, Ahead, StopAt, StopsAreFinal, Readable, AdditionReadable, WellFormed,
           InOrder, In, Increasing, Merged, Valid, DeletionsToMerge, AdditionsToMerge;
      MergedHead(dels, adds);
      found, key := true, 0;
      assert dels != [] ==> [tempKeyDeletion] + dels[1..] == dels;
      assert adds != [] ==> [tempKeyAddition] + adds[1..] == adds;
      if hadDeletion != hadAddition {
        hasTempKeyDeletion, hasTempKeyAddition := false, false;
        value.hasAddition, value.hasDeletion := hadAddition, hadDeletion;
        key := if hadAddition then tempKeyAddition else tempKeyDeletion;
      } else if !hadDeletion && !hadAddition {
        found := false;
      } else if tempKeyDeletion == tempKeyAddition {
        hasTempKeyDeletion, hasTempKeyAddition := false, false;
        value.hasAddition, value.hasDeletion := true, true;
        key := tempKeyAddition;
      } else if tempKeyDeletion > tempKeyAddition {
        hasTempKeyDeletion, hasTempKeyAddition := true, false;
        value.hasAddition, value.hasDeletion := true, false;
        key := tempKeyAddition;
      } else {
        hasTempKeyDeletion, hasTempKeyAddition := false, true;
        value.hasAddition, value.hasDeletion := false, true;
        key := tempKeyDeletion;
      }
    }

    /** Whether the delivered triple is a local change. */
    method DeliveredIsLocal(value: PatchTreeValue, ghost f: Found) returns (r: bool)
      requires Merging(value) && Loaded(value, f, deletions, additions) && (f.deleted || f.added)
      requires f.deleted ==> DeletionHit(deletions, vocabulary, Undropped(), value.addition.maxPatchId)(f.key)
      requires f.added ==> AdditionHit(additions, vocabulary, Undropped(), value.addition.maxPatchId)(f.key)
      ensures r <==> LocalFound(f, deletions, additions, filters.patchId.value, value.addition.maxPatchId)
    {
      hide Stream, Ahead, StopAt, StopsAreFinal, RanksAt, Matches, InOrder;
      if f.added { BegunWithin(additions[f.key], filters, value.addition.maxPatchId); }
      r := value.IsLocalChange(filters.patchId.value);
    }

    /** `next`: the next triple of the merge that is not a local change, if those are to be dropped. */
    method Next(value: PatchTreeValue) returns (found: bool, key: Key)
      requires Merging(value)
      modifies this, value
      modifies value.addition.patches, value.addition.localChanges
      modifies value.deletion.patches, value.deletion.localChanges, value.deletion.patchPositions
      ensures Merging(value) && filters == old(filters)
      ensures var m := old(ToDeliver(value.addition.maxPatchId));
        if m == [] then !found
        else
          && found && key == m[0].key && Loaded(value, m[0], deletions, additions)
          && ToDeliver(value.addition.maxPatchId) == m[1..]
      decreases |Merged(PendingDeletions(value.addition.maxPatchId), PendingAdditions(value.addition.maxPatchId))|
    {
      hide DeletionHit, AdditionHit, DeletionsToMerge, AdditionsToMerge, Readable, AdditionReadable, LocalFound,
           StopsAreFinal, Merged, WithoutLocal;
      ghost var limit := value.addition.maxPatchId;
      ghost var dels, adds := PendingDeletions(limit), PendingAdditions(limit);
      var hadDeletion, hadAddition := Fetch(value);
      found, key := MergeTurn(value, hadDeletion, hadAddition, dels, adds);
      DeliverStep(Merged(dels, adds), filters.dropLocal, deletions, additions, filters.patchId.value, limit);
      if found && filters.dropLocal {
        ghost var f := Merged(dels, adds)[0];
        var isLocalChange := DeliveredIsLocal(value, f);
        if isLocalChange {
          found, key := Next(value);
        }
      }
    }
  }

  /** An addition that passes a filter that is not exact has begun by then. */
  lemma BegunWithin(d: AdditionData, f: Filters, limit: int)
    requires AdditionReadable(d) && AdditionPasses(d, f, limit) && f.patchId.Some? && !f.exact && limit <= MAX
    ensures d.patches != [] && d.patches[0].start <= f.patchId.value
    ensures d.localChanges != [] ==> d.localChanges[0].start <= f.patchId.value
  {
    var ids := Ids(d.patches, MAX, limit);
    var i :| 0 <= i < |ids| - Overrun(d.patches, MAX, limit) && i < |ids| && 0 <= ids[i] <= f.patchId.value;
    ListedFrom(d.patches, limit, i);
  }
}
