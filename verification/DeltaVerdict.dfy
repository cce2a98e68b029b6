/** What the values of a triple tell of its presence in the versions of a chain, and of its change between two. */
module DeltaVerdicts {
  import opened OrderedKeys
  import opened Intervals
  import opened Positions
  import opened Values
  import opened DeletionValues
  import opened ChainHistory
  import opened Ingestion
  import opened Ranks
  import opened Dictionaries
  import opened TreeIndexes
  import opened TreeValues
  import opened PatchTreeIterators
  import opened MergeOrders
  import opened ChainReading
  import opened VersionQueries
  import opened DeltaStreams

  // ----- what a walk turns into changes

  ghost function AddedIds(f: Found, additions: map<Key, AdditionData>, limit: int): Option<seq<int>> {
    if f.added && f.key in additions then Some(Ids(additions[f.key].patches, MAX, limit)) else None
  }

  ghost function DeletedIds(f: Found, deletions: map<Key, DeletionData>, limit: int): Option<seq<int>> {
    if f.deleted && f.key in deletions then Some(Ids(deletions[f.key].patches, MAX, limit)) else None
  }

  /** `ForwardPatchTripleDeltaIterator`: an addition in the version, or else a deletion of what the snapshot had. */
  ghost function PatchVerdict(deletions: map<Key, DeletionData>, additions: map<Key, AdditionData>, v: int, limit: int)
    : Found -> Option<bool>
  {
    (f: Found) =>
      if IndexIn(AddedIds(f, additions, limit), v) >= 0 then Some(true)
      else if FirstDeleted(AddedIds(f, additions, limit), DeletedIds(f, deletions, limit)) then Some(false)
      else None
  }

  /** `ForwardDiffPatchTripleDeltaIterator`: what one version has and the other lacks. */
  ghost function DiffVerdict(deletions: map<Key, DeletionData>, additions: map<Key, AdditionData>, start: int,
                             end: int, limit: int)
    : Found -> Option<bool>
  {
    (f: Found) =>
      var a, d := AddedIds(f, additions, limit), DeletedIds(f, deletions, limit);
      if PresentIn(a, d, start) == PresentIn(a, d, end) then None else Some(IndexIn(a, end) >= 0)
  }

  ghost function Deltas(m: seq<Found>, verdict: Found -> Option<bool>): seq<TripleDelta> {
    if m == [] then []
    else (if verdict(m[0]).Some? then [TripleDelta(m[0].key, verdict(m[0]).value)] else []) + Deltas(m[1..], verdict)
  }

  /** The verdict after local changes have been dropped. */
  ghost function Dropping(drop: bool, verdict: Found -> Option<bool>, deletions: map<Key, DeletionData>,
                          additions: map<Key, AdditionData>, v: int, limit: int): Found -> Option<bool>
  {
    (f: Found) => if drop && LocalFound(f, deletions, additions, v, limit) then None else verdict(f)
  }

  lemma {:induction false} DroppedFirst(m: seq<Found>, drop: bool, verdict: Found -> Option<bool>,
                                        deletions: map<Key, DeletionData>, additions: map<Key, AdditionData>, v: int,
                                        limit: int)
    ensures Deltas(WithoutLocal(m, drop, deletions, additions, v, limit), verdict) ==
            Deltas(m, Dropping(drop, verdict, deletions, additions, v, limit))
  {
    hide LocalFound;
    if m != [] {
      DroppedFirst(m[1..], drop, verdict, deletions, additions, v, limit);
      var rest := WithoutLocal(m[1..], drop, deletions, additions, v, limit);
      assert ([m[0]] + rest)[1..] == rest;
      var none: seq<Found> := [];
      assert none + rest == rest;
    }
  }

  ghost function VerdictAt(k: Key, dels: seq<Key>, adds: seq<Key>, verdict: Found -> Option<bool>): Option<bool> {
    if k in dels || k in adds then verdict(Found(k, k in dels, k in adds)) else None
  }

  /** What a merged walk makes of two walks in an order. */
  ghost predicate ToldInOrder(out: seq<TripleDelta>, dels: seq<Key>, adds: seq<Key>, verdict: Found -> Option<bool>,
                              cmp: Comparator, universe: set<Key>) {
    && DeltasSorted(out, cmp, universe)
    && (forall k :: SignIn(out, k) == VerdictAt(k, dels, adds, verdict))
    && (forall k :: Below(k, dels, adds, cmp) ==> AllAbove(out, cmp, k))
  }

  lemma OneMoreTold(rest: seq<TripleDelta>, f: Found, dels: seq<Key>, adds: seq<Key>, restDels: seq<Key>,
                    restAdds: seq<Key>, verdict: Found -> Option<bool>, cmp: Comparator, universe: set<Key>)
    requires ToldInOrder(rest, restDels, restAdds, verdict, cmp, universe) && Below(f.key, restDels, restAdds, cmp)
    requires f.key in universe && (f.deleted || f.added) && !cmp.Less(f.key, f.key)
    requires (f.deleted <==> f.key in dels) && (f.added <==> f.key in adds)
    requires forall k :: k in dels <==> k in restDels || (k == f.key && f.deleted)
    requires forall k :: k in adds <==> k in restAdds || (k == f.key && f.added)
    ensures ToldInOrder(if verdict(f).Some? then [TripleDelta(f.key, verdict(f).value)] + rest else rest, dels, adds,
                        verdict, cmp, universe)
  {
    hide SignIn, Comparator.Less;
    var out := if verdict(f).Some? then [TripleDelta(f.key, verdict(f).value)] + rest else rest;
    if verdict(f).Some? { HeadOn(TripleDelta(f.key, verdict(f).value), rest, cmp, universe); }
    assert VerdictAt(f.key, restDels, restAdds, verdict) == None;
    forall k ensures SignIn(out, k) == VerdictAt(k, dels, adds, verdict) {
      if k == f.key { assert f == Found(k, k in dels, k in adds); }
    }
    forall k | Below(k, dels, adds, cmp) ensures AllAbove(out, cmp, k) {
      assert cmp.Less(k, f.key) && Below(k, restDels, restAdds, cmp);
    }
  }

  /** The merged walk turns every triple of the two walks into its verdict, in order. */
  lemma {:induction false} DeltasSigns(dels: seq<Key>, adds: seq<Key>, verdict: Found -> Option<bool>, cmp: Comparator,
                                       universe: set<Key>)
    requires Dictionary(universe, cmp.vocabulary) && KeysSorted(dels, cmp, universe) && KeysSorted(adds, cmp, universe)
    ensures ToldInOrder(Deltas(MergedBy(dels, adds, cmp), verdict), dels, adds, verdict, cmp, universe)
    decreases |dels| + |adds|
  {
    hide MergedBy, ToldInOrder, Deltas, KeysSorted, Dictionary, Comparator.Less;
    if dels == [] && adds == [] {
      NothingTold(verdict, cmp, universe);
    } else {
      MergedRest(dels, adds, cmp, universe);
      var m := MergedBy(dels, adds, cmp);
      var f := m[0];
      var restDels, restAdds := RestOf(dels, f.deleted), RestOf(adds, f.added);
      DeltasSigns(restDels, restAdds, verdict, cmp, universe);
      LessTotal(cmp, universe, f.key, f.key);
      OneMoreTold(Deltas(m[1..], verdict), f, dels, adds, restDels, restAdds, verdict, cmp, universe);
      DeltasOf(m, verdict);
    }
  }

  lemma NothingTold(verdict: Found -> Option<bool>, cmp: Comparator, universe: set<Key>)
    ensures ToldInOrder(Deltas(MergedBy([], [], cmp), verdict), [], [], verdict, cmp, universe)
  {
  }

  lemma DeltasOf(m: seq<Found>, verdict: Found -> Option<bool>)
    requires m != []
    ensures var rest := Deltas(m[1..], verdict);
      Deltas(m, verdict) == if verdict(m[0]).Some? then [TripleDelta(m[0].key, verdict(m[0]).value)] + rest else rest
  {
    var none: seq<TripleDelta> := [];
    assert none + Deltas(m[1..], verdict) == Deltas(m[1..], verdict);
  }

  // ----- what the values of a triple tell

  /** The walk at version `v` delivers the triple from the deletion tree, or from the addition tree. */
  ghost predicate DeletedBy(s: Store, k: Key, v: int) {
    k in s.deletions && s.deletions[k].patches != [] && s.deletions[k].patches[0].start <= v
  }

  ghost predicate AddedBy(s: Store, k: Key, v: int) {
    k in s.additions && s.additions[k].patches != [] && s.additions[k].patches[0].start <= v
  }

  function At(s: Store, k: Key, deleted: bool, added: bool): Found {
    Found(k, deleted, added)
  }

  /** Until its birth a triple is where the snapshot has it; it is delivered from its birth on, by the tree of its birth
      first. */
  lemma BirthOrder(s: Store, c: Chain, k: Key, v: int)
    requires Queryable(s, c, v)
    ensures var e, here := s.Nodes().EntryOf(k), k in c.snapshot;
      && (DeletedBy(s, k, v) || AddedBy(s, k, v) <==> !Untouched(e) && Born(e, here) <= v)
      && (here && AddedBy(s, k, v) ==>
          DeletedBy(s, k, v) && s.deletions[k].patches[0].start < s.additions[k].patches[0].start)
      && (!here && DeletedBy(s, k, v) ==>
          AddedBy(s, k, v) && s.additions[k].patches[0].start < s.deletions[k].patches[0].start)
      && (AddedBy(s, k, v) ==> 0 < s.additions[k].patches[0].start)
  {
    hide RanksTrue, CountsTrue, RanksOk, Dictionary;
    var e := s.Nodes().EntryOf(k);
    assert Represents(e, k, c.snapshot, c.history, c.min);
    assert forall x :: !In([], x);
    if e.add != [] { Edges(e.add, 0); }
    if e.del != [] { Edges(e.del, 0); }
  }

  lemma EntryTells(e: Entry, k: Key, c: Chain, u: int)
    requires Represents(e, k, c.snapshot, c.history, c.min) && c.min <= u < c.min + |c.history| < MAX
    ensures var here, now := k in c.snapshot, k in Content(c, u);
      var born := !Untouched(e) && Born(e, here) <= u;
      && (In(e.add, u) <==> born && now) && (In(e.del, u) <==> born && !now) && (!born ==> now == here)
      && WellFormed(e.add, MAX) && WellFormed(e.del, MAX)
      && (In(e.add, u) ==> e.add != [] && e.add[0].start <= u) && (In(e.del, u) ==> e.del != [] && e.del[0].start <= u)
  {
    assert Member(k, u, c.snapshot, c.history, c.min) == (k in Content(c, u));
    assert forall x :: !In([], x);
    if e.add != [] { Edges(e.add, 0); }
    if e.del != [] { Edges(e.del, 0); }
  }

  /** Version `u` at or before the walk's: the listed versions tell exactly its content from the birth on. */
  lemma ListedContent(s: Store, c: Chain, k: Key, v: int, u: int)
    requires Queryable(s, c, v) && c.min <= u <= v
    ensures var e, here := s.Nodes().EntryOf(k), k in c.snapshot;
      var limit, born := s.maxPatchId + 1, !Untouched(e) && Born(e, here) <= u;
      && (AddedBy(s, k, v) ==> (PlaceOf(Ids(s.additions[k].patches, MAX, limit), u) >= 0 <==>
                                born && k in Content(c, u)))
      && (DeletedBy(s, k, v) ==>
          (PlaceOf(Ids(s.deletions[k].patches, MAX, limit), u) >= 0 <==> born && k !in Content(c, u)))
      && (!AddedBy(s, k, v) && born ==> k !in Content(c, u))
      && (!DeletedBy(s, k, v) && born ==> k in Content(c, u))
      && (!born ==> (k in Content(c, u) <==> here))
  {
    hide RanksTrue, CountsTrue, RanksOk, Dictionary, Ids, PlaceOf, In, WellFormed, Represents, Content, Born,
         Untouched;
    var e := s.Nodes().EntryOf(k);
    EntryTells(e, k, c, u);
    ListedIffIn(e.add, u, s.maxPatchId + 1);
    ListedIffIn(e.del, u, s.maxPatchId + 1);
  }

  /** The stored runs in full view of a reader who knows of all versions. */
  lemma FullView(s: Store, c: Chain, v: int, k: Key)
    requires Queryable(s, c, v)
    ensures var e, limit := s.Nodes().EntryOf(k), s.maxPatchId + 1;
      && (k in s.deletions ==>
            e.del != [] && Overrun(e.del, MAX, limit) == 0 && Ids(e.del, MAX, limit) != [] &&
            Ids(e.del, MAX, limit)[0] == e.del[0].start && Increasing(Ids(e.del, MAX, limit)) &&
              Readable(s.deletions[k]))
      && (k in s.additions ==>
            e.add != [] && Overrun(e.add, MAX, limit) == 0 && Ids(e.add, MAX, limit) != [] &&
            Ids(e.add, MAX, limit)[0] == e.add[0].start && Increasing(Ids(e.add, MAX, limit)) &&
              AdditionReadable(s.additions[k]))
      && LocalFlags(e, k in c.snapshot)
  {
    hide ChainOk, Dictionary, Ids, Overrun, RanksAt;
    var e, limit := s.Nodes().EntryOf(k), s.maxPatchId + 1;
    EntryReadable(s.Nodes(), s.countAdditions, c.snapshot, c.history, c.min, s.vocabulary, c.misranked, k);
    if e.del != [] { ListedEnds(e.del, limit, limit); IdsCorrect(e.del, MAX, limit); }
    if e.add != [] { ListedEnds(e.add, limit, limit); IdsCorrect(e.add, MAX, limit); }
  }

  /** The first listed change of a delivered triple is a deletion exactly if the snapshot has it. */
  lemma FirstTold(s: Store, c: Chain, k: Key, v: int)
    requires Queryable(s, c, v) && (DeletedBy(s, k, v) || AddedBy(s, k, v))
    ensures var f, limit := At(s, k, DeletedBy(s, k, v), AddedBy(s, k, v)), s.maxPatchId + 1;
      FirstDeleted(AddedIds(f, s.additions, limit), DeletedIds(f, s.deletions, limit)) <==> k in c.snapshot
  {
    hide Queryable, Ids, Overrun, Readable, AdditionReadable, LocalFlags, Untouched, Born;
    BirthOrder(s, c, k, v);
    FullView(s, c, v, k);
  }

  lemma LocalTold(s: Store, c: Chain, k: Key, v: int)
    requires Queryable(s, c, v) && (DeletedBy(s, k, v) || AddedBy(s, k, v))
    ensures LocalFound(At(s, k, DeletedBy(s, k, v), AddedBy(s, k, v)), s.deletions, s.additions, v,
                       s.maxPatchId + 1) <==>
            AddedBy(s, k, v) && k in c.snapshot && k in Content(c, v)
  {
    hide ChainOk, Dictionary, Ids, Overrun, Readable, PlaceOf, Content;
    BirthOrder(s, c, k, v);
    FullView(s, c, v, k);
    ListedContent(s, c, k, v, v);
    assert forall x :: !In([], x);
    if k in s.additions { ListedIffIn(s.additions[k].patches, v, s.maxPatchId + 1); }
  }

  /** Before its birth a triple does not change. */
  lemma NotDelivered(s: Store, c: Chain, k: Key, v: int, u: int)
    requires Queryable(s, c, v) && c.min <= u <= v && !DeletedBy(s, k, v) && !AddedBy(s, k, v)
    ensures k in Content(c, u) <==> k in c.snapshot
  {
    hide ChainOk, Dictionary, Ids, PlaceOf, Content, Untouched, Born;
    BirthOrder(s, c, k, v);
    ListedContent(s, c, k, v, u);
  }

  /** The verdict of the walk from the snapshot. */
  lemma PatchVerdictRight(s: Store, c: Chain, k: Key, v: int)
    requires Queryable(s, c, v) && (DeletedBy(s, k, v) || AddedBy(s, k, v))
    ensures var f, limit := At(s, k, DeletedBy(s, k, v), AddedBy(s, k, v)), s.maxPatchId + 1;
      var verdict := PatchVerdict(s.deletions, s.additions, v, limit);
      Dropping(true, verdict, s.deletions, s.additions, v, limit)(f) ==
        if (k in c.snapshot) == (k in Content(c, v)) then None else Some(k in Content(c, v))
  {
    hide Queryable, Ids, PlaceOf, Content, Untouched, Born, LocalFound, FirstDeleted;
    BirthOrder(s, c, k, v);
    FirstTold(s, c, k, v);
    LocalTold(s, c, k, v);
    WithinChain(s, c, v);
    ListedContent(s, c, k, v, v);
  }

  lemma WithinChain(s: Store, c: Chain, v: int)
    requires Queryable(s, c, v)
    ensures c.min <= v < c.min + |c.history|
  {
    hide ChainOk, Dictionary;
  }

  /** Whether the values tell that a triple is in a version. */
  lemma PresentTold(s: Store, c: Chain, k: Key, v: int, u: int)
    requires Queryable(s, c, v) && c.min <= u <= v && (DeletedBy(s, k, v) || AddedBy(s, k, v))
    ensures var f, limit := At(s, k, DeletedBy(s, k, v), AddedBy(s, k, v)), s.maxPatchId + 1;
      && (PresentIn(AddedIds(f, s.additions, limit), DeletedIds(f, s.deletions, limit), u) <==> k in Content(c, u))
      && (IndexIn(AddedIds(f, s.additions, limit), u) >= 0 ==> k in Content(c, u))
  {
    hide Queryable, Ids, Content, Untouched, Born, FirstDeleted;
    BirthOrder(s, c, k, v);
    FirstTold(s, c, k, v);
    ListedContent(s, c, k, v, u);
    PlacesNotBelow(s, k, u);
  }

  lemma PlacesNotBelow(s: Store, k: Key, u: int)
    ensures k in s.additions ==> PlaceOf(Ids(s.additions[k].patches, MAX, s.maxPatchId + 1), u) >= -1
    ensures k in s.deletions ==> PlaceOf(Ids(s.deletions[k].patches, MAX, s.maxPatchId + 1), u) >= -1
  {
    hide Ids;
  }

  /** The verdict of the walk between two versions. */
  lemma DiffVerdictRight(s: Store, c: Chain, k: Key, start: int, end: int)
    requires Queryable(s, c, end) && c.min <= start <= end && (DeletedBy(s, k, end) || AddedBy(s, k, end))
    ensures var f, limit := At(s, k, DeletedBy(s, k, end), AddedBy(s, k, end)), s.maxPatchId + 1;
      DiffVerdict(s.deletions, s.additions, start, end, limit)(f) ==
        if (k in Content(c, start)) == (k in Content(c, end)) then None else Some(k in Content(c, end))
  {
    hide Queryable, Ids, PlaceOf, Content, Untouched, Born, FirstDeleted, PresentIn;
    PresentTold(s, c, k, end, start);
    PresentTold(s, c, k, end, end);
    if k in Content(c, end) && k !in Content(c, start) { AddedIfNew(s, c, k, start, end); }
  }

  /** What a version has and an earlier one lacks is listed as added. */
  lemma AddedIfNew(s: Store, c: Chain, k: Key, start: int, end: int)
    requires Queryable(s, c, end) && c.min <= start <= end && (DeletedBy(s, k, end) || AddedBy(s, k, end))
    requires k in Content(c, end) && k !in Content(c, start)
    ensures IndexIn(AddedIds(At(s, k, DeletedBy(s, k, end), AddedBy(s, k, end)), s.additions, s.maxPatchId + 1),
                    end) >= 0
  {
    hide Queryable, Ids, PlaceOf, Content, Untouched, Born;
    BirthOrder(s, c, k, end);
    ListedContent(s, c, k, end, end);
    ListedContent(s, c, k, end, start);
  }
}
