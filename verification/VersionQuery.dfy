/** Deletion counts, addition counts and addition streams of one version of a chain. */
module VersionQueries {
  import opened OrderedKeys
  import opened Intervals
  import opened Positions
  import opened Values
  import opened AdditionValues
  import opened DeletionValues
  import opened ChainHistory
  import opened Ingestion
  import opened Ranks
  import opened Triples
  import opened Dictionaries
  import opened TreeIndexes
  import opened PatchTreeIterators
  import opened ChainReading
  import opened PatchTrees

  /** The filters of a query at a version. A pattern that matches everything is no filter. */
  function QueryFilters(pattern: Triple, v: int): Filters {
    Filters(Some(v), true, if AllMatching(pattern) then None else Some(pattern), true, true)
  }

  lemma QuerySelects(pattern: Triple, v: int, t: Triple)
    ensures QueryFilters(pattern, v).Selects(t) <==> Matches(t, pattern)
  {
  }

  /** What a patch tree has stored. */
  datatype Store = Store(additions: map<Key, AdditionData>, deletions: map<Key, DeletionData>,
                         countAdditions: map<(int, Triple), nat>, maxPatchId: int, vocabulary: Key -> Triple)
  {
    function Nodes(): Trees {
      Trees(additions, deletions, [], [], [])
    }
  }

  /** The delta chain that it stands for. */
  datatype Chain = Chain(snapshot: set<Key>, history: seq<set<Key>>, min: int, universe: set<Key>,
                         misranked: set<RankPlace>)

  /** Version `v` of a chain has been ingested, and the chain takes more. */
  ghost predicate Queryable(s: Store, c: Chain, v: int) {
    && 0 < c.min <= v < c.min + |c.history| < MAX && s.maxPatchId == c.min + |c.history| - 1
    && Dictionary(c.universe, s.vocabulary)
    && c.snapshot <= c.universe && s.additions.Keys <= c.universe && s.deletions.Keys <= c.universe
    && ChainOk(s.Nodes(), s.countAdditions, c.snapshot, c.history, c.min, s.vocabulary, c.misranked)
  }

  /** Every valid patch tree can be queried at each of its versions. */
  lemma TreeQueryable(tree: PatchTree, v: int)
    requires tree.Valid() && tree.minPatchId <= v < tree.minPatchId + |tree.history| < MAX
    ensures Queryable(Store(tree.additions, tree.deletions, tree.countAdditions, tree.maxPatchId, tree.vocabulary),
                      Chain(tree.snapshot, tree.history, tree.minPatchId, tree.universe, tree.misranked), v)
  {
    hide ChainOk;
    LogsDoNotMatter(tree.State(), Trees(tree.additions, tree.deletions, [], [], []), tree.countAdditions, tree.snapshot,
                    tree.history, tree.minPatchId, tree.vocabulary, tree.misranked);
  }

  /** The triples of a version of the chain. */
  ghost function Content(c: Chain, v: int): set<Key> {
    if c.min <= v < c.min + |c.history| then c.history[v - c.min] else c.snapshot
  }

  ghost function Lost(c: Chain, v: int): set<Key> {
    c.snapshot - Content(c, v)
  }

  ghost function Gained(c: Chain, v: int): set<Key> {
    Content(c, v) - c.snapshot
  }

  // ----- deletions

  /** `last_deletion_value`: the last triple of the index, in its order, that matches and is deleted in the version. */
  method LastDeletionValue(deletions: map<Key, DeletionData>, keys: seq<Key>, vocabulary: Key -> Triple,
                           ghost universe: set<Key>, pattern: Triple, v: int, value: DeletionValue)
    returns (last: Option<Key>)
    requires Dictionary(universe, vocabulary) && deletions.Keys <= universe
    requires IsPattern(pattern)
    requires IsIndex(keys, deletions.Keys, QueryOrder(pattern), vocabulary)
    requires forall k :: k in deletions ==> Readable(deletions[k])
    requires value.Valid() && value.maxPatchId <= MAX
    modifies value.patches, value.localChanges, value.patchPositions
    ensures value.Valid()
    ensures var hits := HitsIn(deletions.Keys,
                               DeletionHit(deletions, vocabulary, QueryFilters(pattern, v), value.maxPatchId));
      && (last.None? <==> hits == {})
      && (last.Some? ==>
            && IsLast(hits, QueryOrder(pattern), vocabulary, last.value)
            && value.Data() == deletions[last.value])
  {
    hide IsIndex, QueryOrder, Compare, DeletionHit, Matches, Readable, Dictionary, Above;
    assert forall k :: k in keys ==> k in deletions by {
      IndexKeys(keys, deletions.Keys, QueryOrder(pattern), vocabulary);
    }
    var f := QueryFilters(pattern, v);
    var it := new PatchTreeIterator(vocabulary, keys, deletions, [], map[],
                                    JumpBack(keys, QueryOrder(pattern), vocabulary, JumpBackKey(pattern)), 0, f, true);
    ghost var hit := DeletionHit(deletions, vocabulary, f, value.maxPatchId);
    HitsMatch(deletions, vocabulary, pattern, v, value.maxPatchId);
    JumpedBack(keys, deletions.Keys, universe, vocabulary, pattern, hit, StopAt(vocabulary, f));
    var found, key := it.NextDeletion(value, true);
    last := if found then Some(key) else None;
  }

  lemma HitsMatch(deletions: map<Key, DeletionData>, vocabulary: Key -> Triple, pattern: Triple, v: int, limit: int)
    ensures var f := QueryFilters(pattern, v);
      && (forall k :: k in deletions.Keys && DeletionHit(deletions, vocabulary, f, limit)(k) ==>
          Matches(vocabulary(k), pattern))
      && (forall k :: k in deletions.Keys && StopAt(vocabulary, f)(k) ==> !Matches(vocabulary(k), pattern))
  {
  }

  lemma IndexKeys(keys: seq<Key>, stored: set<Key>, order: Order, vocabulary: Key -> Triple)
    requires IsIndex(keys, stored, order, vocabulary)
    ensures forall k :: k in keys <==> k in stored
  {
  }

  /** The answer is the number of deletions, and the last of them. */
  ghost predicate CountRight(count: int, last: Option<Key>, deletions: set<Key>) {
    && count == |deletions|
    && (last.None? <==> deletions == {})
    && (last.Some? ==> last.value in deletions && forall k :: k in deletions ==> k <= last.value)
  }

  /** The ranks stored for a pattern with the deletions that match it are right at a version. */
  ghost predicate RanksTrusted(s: Store, c: Chain, pattern: Triple, v: int) {
    forall k :: Matches(s.vocabulary(k), pattern) ==> RankPlace(v, FieldOf(pattern), k) !in c.misranked
  }

  /** What a full value of a deletion in force says of its place is right exactly if its rank is not marked as wrong. */
  lemma PlaceRead(s: Store, c: Chain, pattern: Triple, v: int, k: Key)
    requires Queryable(s, c, v) && k in MatchesOf(Lost(c, v), s.vocabulary, pattern)
    ensures k in s.deletions && In(s.deletions[k].patches, v) && s.deletions[k].localChanges == []
    ensures GetByPattern(RanksAt(s.deletions[k].positions, v), pattern) ==
              |MatchesBefore(Lost(c, v), k, s.vocabulary, pattern)| <==>
            RankPlace(v, FieldOf(pattern), k) !in c.misranked
  {
    hide Represents, CountsTrue, RanksAt, RankTrue, Matches, FieldOf, RanksNatural;
    var t := s.Nodes();
    assert Represents(t.EntryOf(k), k, c.snapshot, c.history, c.min);
    EntriesOfVersion(t.EntryOf(k), k, c.snapshot, c.history, c.min, v);
    assert forall x :: !In([], x);
    FieldInRange(pattern);
    var place := RankPlace(v, FieldOf(pattern), k);
    assert place in c.misranked <==> WrongRank(t, c.snapshot, c.history, c.min, s.vocabulary, place);
    RankIsPlace(Lost(c, v), c.universe, s.vocabulary, pattern, k, RanksAt(s.deletions[k].positions, v));
  }

  lemma FieldInRange(pattern: Triple)
    ensures FieldOf(pattern) < FIELDS
  {
  }

  /** What the full value of any deletion shows a reader who knows of all versions. */
  lemma FullyRead(s: Store, c: Chain, v: int, k: Key)
    requires Queryable(s, c, v) && k in s.deletions
    ensures var d, limit := s.deletions[k], s.maxPatchId + 1;
      && Readable(d) && limit == c.min + |c.history| && SizeSeen(d, limit) > 0
      && PlaceOf(Ids(d.patches, MAX, limit), v) < SizeSeen(d, limit)
      && (In(d.patches, v) ==> PlaceOf(Ids(d.patches, MAX, limit), v) >= 0)
  {
    hide ChainOk, PlaceOf, Ids, Overrun, Readable;
    EntryReadable(s.Nodes(), s.countAdditions, c.snapshot, c.history, c.min, s.vocabulary,
                  c.misranked, k);
    AllVisible(s.Nodes(), s.countAdditions, c.snapshot, c.history, c.min, s.vocabulary,
               c.misranked, k, v);
    ListedIffIn(s.deletions[k].patches, v, s.maxPatchId + 1);
    PlaceInList(Ids(s.deletions[k].patches, MAX, s.maxPatchId + 1), v);
  }

  lemma FullHit(s: Store, c: Chain, pattern: Triple, v: int, k: Key)
    requires Queryable(s, c, v)
    ensures DeletionHit(s.deletions, s.vocabulary, QueryFilters(pattern, v), s.maxPatchId + 1)(k) <==>
            k in Lost(c, v) && Matches(s.vocabulary(k), pattern)
  {
    hide ChainOk, DeletionHit, Matches, LocalVisible, RanksVisible;
    var f := QueryFilters(pattern, v);
    QuerySelects(pattern, v, s.vocabulary(k));
    DeletionHitMeaning(s.Nodes(), s.countAdditions, c.snapshot, c.history, c.min, s.vocabulary,
                       c.misranked, f, s.maxPatchId + 1, k);
    if k in s.deletions {
      AllVisible(s.Nodes(), s.countAdditions, c.snapshot, c.history, c.min, s.vocabulary,
                 c.misranked, k, v);
    }
  }

  /** The walk over the full values hits the triples that the version lost. */
  lemma FullHits(s: Store, c: Chain, pattern: Triple, v: int)
    requires Queryable(s, c, v)
    ensures HitsIn(s.deletions.Keys, DeletionHit(s.deletions, s.vocabulary, QueryFilters(pattern, v), s.maxPatchId + 1))
            == MatchesOf(Lost(c, v), s.vocabulary, pattern)
  {
    hide Queryable, DeletionHit, Matches, Lost;
    var hit := DeletionHit(s.deletions, s.vocabulary, QueryFilters(pattern, v), s.maxPatchId + 1);
    forall k ensures k in HitsIn(s.deletions.Keys, hit) <==> k in MatchesOf(Lost(c, v), s.vocabulary, pattern) {
      FullHit(s, c, pattern, v, k);
      HitStored(s.deletions, s.vocabulary, QueryFilters(pattern, v), s.maxPatchId + 1, k);
    }
  }

  lemma ReducedRead(d: DeletionData, v: int, limit: int)
    requires d.patches != [] && d.patches[0].start < limit <= MAX && v < limit
    requires d.localChanges == [] || d.localChanges == d.patches
    ensures Readable(Reduced(d))
    ensures PlaceOf(Ids(Reduced(d).patches, MAX, limit), v) >= 0 <==> d.patches[0].start <= v
    ensures d.patches[0].start <= v ==> (LocalSeen(Reduced(d), v, limit) <==> d.localChanges != [])
  {
    var r := Reduced(d).patches;
    InOpenRun(d.patches[0].start, v);
    ListedIffIn(r, v, limit);
    assert Overrun(r, MAX, limit) == 0;
    PlaceInList(Ids(r, MAX, limit), v);
    assert forall x :: !In([], x);
  }

  lemma ReducedHit(s: Store, c: Chain, reduced: map<Key, DeletionData>, pattern: Triple, v: int, k: Key)
    requires Queryable(s, c, v) && IsReducedTree(reduced, s.deletions)
    ensures k in reduced ==> Readable(reduced[k])
    ensures DeletionHit(reduced, s.vocabulary, QueryFilters(pattern, v), s.maxPatchId + 1)(k) <==>
            k in OnceLost(c, s.vocabulary, pattern, v)
  {
    hide ChainOk, Matches, Readable, Ids, PlaceOf, LocalSeen, Reduced, Lost;
    QuerySelects(pattern, v, s.vocabulary(k));
    if k in c.snapshot { FirstLoss(s, c, v, k); }
    if k in s.deletions {
      EntryReadable(s.Nodes(), s.countAdditions, c.snapshot, c.history, c.min, s.vocabulary,
                    c.misranked, k);
      ReducedRead(s.deletions[k], v, s.maxPatchId + 1);
    }
  }

  lemma ReducedHits(s: Store, c: Chain, reduced: map<Key, DeletionData>, pattern: Triple, v: int)
    requires Queryable(s, c, v) && IsReducedTree(reduced, s.deletions)
    ensures forall k :: k in reduced ==> Readable(reduced[k])
    ensures HitsIn(reduced.Keys, DeletionHit(reduced, s.vocabulary, QueryFilters(pattern, v), s.maxPatchId + 1))
            == OnceLost(c, s.vocabulary, pattern, v)
  {
    hide Queryable, DeletionHit, Matches, Readable;
    var hit := DeletionHit(reduced, s.vocabulary, QueryFilters(pattern, v), s.maxPatchId + 1);
    forall k ensures k in reduced ==> Readable(reduced[k]) { ReducedHit(s, c, reduced, pattern, v, k); }
    forall k ensures k in HitsIn(reduced.Keys, hit) <==> k in OnceLost(c, s.vocabulary, pattern, v) {
      ReducedHit(s, c, reduced, pattern, v, k);
      HitStored(reduced, s.vocabulary, QueryFilters(pattern, v), s.maxPatchId + 1, k);
    }
  }

  /** A deletion of the snapshot begins with the first version that has lost the triple. */
  lemma FirstLoss(s: Store, c: Chain, v: int, k: Key)
    requires Queryable(s, c, v) && k in c.snapshot
    ensures k in s.deletions ==> s.deletions[k].patches != []
    ensures k in s.deletions && s.deletions[k].patches[0].start <= v <==> exists w :: c.min <= w <= v && k in Lost(c, w)
  {
    hide RanksTrue, CountsTrue, RanksOk, Dictionary;
    var e := s.Nodes().EntryOf(k);
    assert Represents(e, k, c.snapshot, c.history, c.min);
    FirstLossOf(e, k, c, v);
  }

  lemma FirstLossOf(e: Entry, k: Key, c: Chain, v: int)
    requires Represents(e, k, c.snapshot, c.history, c.min) && k in c.snapshot && v < c.min + |c.history| <= MAX
    ensures e.del != [] && e.del[0].start <= v <==> exists w :: c.min <= w <= v && k in Lost(c, w)
  {
    hide WellFormed, InOrder;
    forall u | c.min <= u < c.min + |c.history|
      ensures Member(k, u, c.snapshot, c.history, c.min) <==> k !in Lost(c, u) {}
    hide Member, Lost;
    if e.del != [] && e.del[0].start <= v { assert k in Lost(c, e.del[0].start); }
    if w :| c.min <= w <= v && k in Lost(c, w) { assert Born(e, true) <= w; }
  }

  /** What is deleted in a version was deleted in it or before it for the first time. */
  lemma LostWasOnceLost(s: Store, c: Chain, pattern: Triple, v: int, k: Key)
    requires Queryable(s, c, v) && k in MatchesOf(Lost(c, v), s.vocabulary, pattern)
    ensures k in OnceLost(c, s.vocabulary, pattern, v)
  {
    hide ChainOk, Matches, Dictionary;
  }

  lemma HitStored(deletions: map<Key, DeletionData>, vocabulary: Key -> Triple, f: Filters, limit: int, k: Key)
    ensures DeletionHit(deletions, vocabulary, f, limit)(k) ==> k in deletions
  {
  }

  /** The matching triples of the snapshot that version `v` or an earlier one has lost. */
  ghost function OnceLost(c: Chain, vocabulary: Key -> Triple, pattern: Triple, v: int): set<Key> {
    set k | k in c.snapshot && Matches(vocabulary(k), pattern) && exists w :: c.min <= w <= v && k in Lost(c, w)
  }

  /** The last of them, in the order of the pattern. */
  ghost predicate IsLastOnce(c: Chain, vocabulary: Key -> Triple, pattern: Triple, v: int, k: Key) {
    IsLast(OnceLost(c, vocabulary, pattern, v), QueryOrder(pattern), vocabulary, k)
  }

  /** It is lost in `v`, and no triple lost in `v` comes after it in SPO order. The second matters for `? p ?` only. */
  ghost predicate LastStillLost(c: Chain, vocabulary: Key -> Triple, pattern: Triple, v: int) {
    forall k :: IsLastOnce(c, vocabulary, pattern, v, k) ==>
      k in Lost(c, v) && forall j :: j in MatchesOf(Lost(c, v), vocabulary, pattern) ==> j <= k
  }

  /** The rank that is read from a deletion's value for version `v`: that of the version the value answers for,
      rightly or not. */
  ghost function RankRead(d: DeletionData, pattern: Triple, v: int, limit: int): int {
    GetByPattern(RanksAt(d.positions, VersionRead(d, v, limit)), pattern)
  }

  /** The deletions that the tree of the pattern tells of: the trees in other orders hold reduced values, without
      gaps. */
  ghost function ToldLost(c: Chain, vocabulary: Key -> Triple, pattern: Triple, v: int): set<Key> {
    if IsDefaultTree(pattern) then MatchesOf(Lost(c, v), vocabulary, pattern) else OnceLost(c, vocabulary, pattern, v)
  }

  ghost predicate IsLastTold(c: Chain, vocabulary: Key -> Triple, pattern: Triple, v: int, k: Key) {
    IsLast(ToldLost(c, vocabulary, pattern, v), QueryOrder(pattern), vocabulary, k)
  }

  /** The rank of the last of them is right at the version. */
  ghost predicate LastRanked(c: Chain, vocabulary: Key -> Triple, pattern: Triple, v: int) {
    forall k :: IsLastTold(c, vocabulary, pattern, v, k) ==> RankPlace(v, FieldOf(pattern), k) !in c.misranked
  }

  ghost function LastDeletion(c: Chain, vocabulary: Key -> Triple, pattern: Triple, v: int): Option<Key> {
    if k :| IsLastTold(c, vocabulary, pattern, v, k) then Some(k) else None
  }

  /** What the deletions are counted as: one more than the rank read for the last one told of. */
  ghost function CountRead(s: Store, c: Chain, pattern: Triple, v: int): int {
    var last := LastDeletion(c, s.vocabulary, pattern, v);
    if last.Some? && last.value in s.deletions
    then RankRead(s.deletions[last.value], pattern, v, s.maxPatchId + 1) + 1
    else 0
  }

  /** The last deletion told of, and one more than the rank read for it. */
  ghost predicate CountIsRead(s: Store, c: Chain, pattern: Triple, v: int, count: int, last: Option<Key>) {
    if last.None? then ToldLost(c, s.vocabulary, pattern, v) == {} && count == 0
    else
      && IsLastTold(c, s.vocabulary, pattern, v, last.value) && last.value in s.deletions
      && count == RankRead(s.deletions[last.value], pattern, v, s.maxPatchId + 1) + 1
  }

  /** `deletion_count`, from the rank of the last deletion. */
  method DeletionCount(s: Store, ghost c: Chain, keys: seq<Key>, reduced: map<Key, DeletionData>, pattern: Triple,
                       v: int)
    returns (count: int, last: Option<Key>)
    requires IsReducedTree(reduced, s.deletions)
    requires Queryable(s, c, v) && IsPattern(pattern)
    requires IsIndex(keys, s.deletions.Keys, QueryOrder(pattern), s.vocabulary)
    ensures CountIsRead(s, c, pattern, v, count, last) && count >= 0
    ensures CountRight(count, last, MatchesOf(Lost(c, v), s.vocabulary, pattern)) <==>
            (IsDefaultTree(pattern) || LastStillLost(c, s.vocabulary, pattern, v)) &&
              LastRanked(c, s.vocabulary, pattern, v)
    ensures last.Some? && last.value in Lost(c, v) && LastRanked(c, s.vocabulary, pattern, v) ==>
              count == |MatchesBefore(Lost(c, v), last.value, s.vocabulary, pattern)| + 1
  {
    hide Queryable, QueryOrder, Matches, MatchesOf, CountRight, IsPattern, Lost, MatchesBefore, LastStillLost,
         LastRanked, CountIsRead, IsLastTold, RankRead;
    if IsDefaultTree(pattern) {
      count, last := DeletionCountFull(s, c, keys, pattern, v);
    } else {
      count, last := DeletionCountReduced(s, c, keys, reduced, pattern, v);
    }
    CountRightIff(s, c, pattern, v, count, last);
  }

  /** The count is right if and only if the last triple told of is (still or again) deleted, is the last deletion in
      SPO order too, and its rank is right. If it is deleted at all and its rank is right, the deletions up to it are
      counted. */
  lemma CountRightIff(s: Store, c: Chain, pattern: Triple, v: int, count: int, last: Option<Key>)
    requires Queryable(s, c, v) && IsPattern(pattern) && CountIsRead(s, c, pattern, v, count, last)
    ensures count >= 0
    ensures CountRight(count, last, MatchesOf(Lost(c, v), s.vocabulary, pattern)) <==>
            (IsDefaultTree(pattern) || LastStillLost(c, s.vocabulary, pattern, v)) &&
              LastRanked(c, s.vocabulary, pattern, v)
    ensures last.Some? && last.value in Lost(c, v) && LastRanked(c, s.vocabulary, pattern, v) ==>
              count == |MatchesBefore(Lost(c, v), last.value, s.vocabulary, pattern)| + 1
  {
    hide ChainOk, QueryOrder, Matches, MatchesOf, IsPattern, Lost, MatchesBefore, OnceLost, IsLast, IsDefaultTree,
         FieldOf, Dictionary, RankRead, AgreesWithSpo;
    var lost, told := MatchesOf(Lost(c, v), s.vocabulary, pattern), ToldLost(c, s.vocabulary, pattern, v);
    OnceLostCoversLost(s, c, pattern, v);
    LostKnown(s, c, pattern, v);
    ToldOfSnapshot(c, s.vocabulary, pattern, v);
    QueryableFacts(s, c, v);
    if last.None? {
      NoneIsLast(told, QueryOrder(pattern), s.vocabulary);
      assert forall j :: j !in lost;
      assert lost == {};
    } else {
      var k := last.value;
      LastIsOne(told, QueryOrder(pattern), s.vocabulary, k);
      LastUnique(told, c.universe, QueryOrder(pattern), s.vocabulary);
      LastRead(s, c, pattern, v, k);
      if IsDefaultTree(pattern) {
        DefaultAgrees(pattern);
        LastInSpo(lost, c.universe, s.vocabulary, pattern, k);
      }
      if k in lost { LastRankCounts(Lost(c, v), s.vocabulary, pattern, k); }
    }
  }

  /** What is counted from is the last deletion told of. */
  lemma CountReadIs(s: Store, c: Chain, pattern: Triple, v: int, count: int, last: Option<Key>)
    requires Queryable(s, c, v) && CountIsRead(s, c, pattern, v, count, last)
    ensures count == CountRead(s, c, pattern, v) && last == LastDeletion(c, s.vocabulary, pattern, v)
  {
    hide Queryable, Dictionary, OnceLost, MatchesOf, QueryOrder, IsLast, RankRead, IsDefaultTree, Lost;
    QueryableFacts(s, c, v);
    LostKnown(s, c, pattern, v);
    var told := ToldLost(c, s.vocabulary, pattern, v);
    LastUnique(told, c.universe, QueryOrder(pattern), s.vocabulary);
    if last.None? { NoneIsLast(told, QueryOrder(pattern), s.vocabulary); }
  }

  /** Wherever there are deletions told of there is a last one, and its value is stored. */
  lemma CountOfRead(s: Store, c: Chain, pattern: Triple, v: int)
    requires Queryable(s, c, v)
    ensures CountIsRead(s, c, pattern, v, CountRead(s, c, pattern, v), LastDeletion(c, s.vocabulary, pattern, v))
    ensures forall k :: IsLastTold(c, s.vocabulary, pattern, v, k) <==>
            LastDeletion(c, s.vocabulary, pattern, v) == Some(k)
  {
    hide Queryable, Dictionary, OnceLost, MatchesOf, QueryOrder, IsLast, RankRead, IsDefaultTree, Lost;
    QueryableFacts(s, c, v);
    LostKnown(s, c, pattern, v);
    var told := ToldLost(c, s.vocabulary, pattern, v);
    LastUnique(told, c.universe, QueryOrder(pattern), s.vocabulary);
    if told == {} {
      NoneIsLast(told, QueryOrder(pattern), s.vocabulary);
    } else {
      LastExists(told, c.universe, QueryOrder(pattern), s.vocabulary);
      var k :| IsLast(told, QueryOrder(pattern), s.vocabulary, k);
      assert IsLastTold(c, s.vocabulary, pattern, v, k);
      LastIsOne(told, QueryOrder(pattern), s.vocabulary, k);
      if IsDefaultTree(pattern) { LostStored(s, c, pattern, v, k); } else { OnceLostStored(s, c, pattern, v, k); }
    }
  }

  /** Through the SPO trees the last deletion is told rightly, whatever the count. */
  lemma DefaultLast(s: Store, c: Chain, pattern: Triple, v: int)
    requires Queryable(s, c, v) && IsPattern(pattern) && IsDefaultTree(pattern)
    ensures var lost, count := MatchesOf(Lost(c, v), s.vocabulary, pattern), CountRead(s, c, pattern, v);
      CountRight(count, LastDeletion(c, s.vocabulary, pattern, v), lost) <==> count == |lost|
  {
    hide Queryable, Dictionary, MatchesOf, QueryOrder, IsLast, RankRead, Lost, IsPattern, AgreesWithSpo, Matches,
         CountRead, LastDeletion;
    QueryableFacts(s, c, v);
    LostKnown(s, c, pattern, v);
    CountOfRead(s, c, pattern, v);
    DefaultAgrees(pattern);
    var lost, last := MatchesOf(Lost(c, v), s.vocabulary, pattern), LastDeletion(c, s.vocabulary, pattern, v);
    if last.Some? {
      LastIsOne(lost, QueryOrder(pattern), s.vocabulary, last.value);
      LastInSpo(lost, c.universe, s.vocabulary, pattern, last.value);
    }
  }

  lemma ToldOfSnapshot(c: Chain, vocabulary: Key -> Triple, pattern: Triple, v: int)
    ensures ToldLost(c, vocabulary, pattern, v) <= c.snapshot
  {
    hide Matches, Content;
  }

  /** The rank read for a triple of the snapshot by a reader who knows of all versions is not negative, and is that of
      the version itself if the triple is deleted in it. */
  lemma LastRead(s: Store, c: Chain, pattern: Triple, v: int, k: Key)
    requires Queryable(s, c, v) && k in c.snapshot && k in s.deletions
    ensures RankRead(s.deletions[k], pattern, v, s.maxPatchId + 1) >= 0
    ensures k in MatchesOf(Lost(c, v), s.vocabulary, pattern) ==>
      (RankRead(s.deletions[k], pattern, v, s.maxPatchId + 1) ==
       |MatchesBefore(Lost(c, v), k, s.vocabulary, pattern)| <==>
       RankPlace(v, FieldOf(pattern), k) !in c.misranked)
  {
    hide Queryable, Matches, MatchesOf, MatchesBefore, Ids, Lost, PlaceOf, GetByPattern, FieldOf, RankRead, RanksAt,
         VersionRead;
    FullyRead(s, c, v, k);
    QueryableFacts(s, c, v);
    RankReadNatural(s, c, pattern, v, k, s.maxPatchId + 1);
    ReadsListed(s.deletions[k], v, s.maxPatchId + 1);
    if k in MatchesOf(Lost(c, v), s.vocabulary, pattern) {
      PlaceRead(s, c, pattern, v, k);
      assert VersionRead(s.deletions[k], v, s.maxPatchId + 1) == v;
      RankReadIs(s.deletions[k], pattern, v, s.maxPatchId + 1);
    }
  }

  lemma RankReadIs(d: DeletionData, pattern: Triple, v: int, limit: int)
    ensures RankRead(d, pattern, v, limit) == GetByPattern(RanksAt(d.positions, VersionRead(d, v, limit)), pattern)
  {
  }

  /** The rank read for a triple of the snapshot is not negative, if an entry seems to exist. */
  lemma RankReadNatural(s: Store, c: Chain, pattern: Triple, v: int, k: Key, limit: int)
    requires Queryable(s, c, v) && k in c.snapshot && k in s.deletions && limit <= s.maxPatchId + 1
    requires Readable(s.deletions[k]) && SizeSeen(s.deletions[k], limit) > 0
    ensures RankRead(s.deletions[k], pattern, v, limit) >= 0
  {
    hide Queryable, Readable, RanksAt, VersionRead, SizeSeen, FieldOf, RanksNatural, InEnded, In;
    QueryableFacts(s, c, v);
    ReadVersionListed(s.deletions[k], v, limit);
    var w := VersionRead(s.deletions[k], v, limit);
    RanksNaturalAt(s, c, v, k, w);
    FieldInRange(pattern);
    NaturalRank(s.Nodes(), k, w, pattern);
  }

  lemma NaturalRank(t: Trees, k: Key, w: int, pattern: Triple)
    requires RanksNatural(t, k, w)
    ensures GetByPattern(RanksAt(t.RanksOf(k), w), pattern) >= 0
  {
    hide RanksAt;
    FieldInRange(pattern);
  }

  /** The ranks stored for a version that a deletion of the snapshot lists are numbers of deletions. */
  lemma RanksNaturalAt(s: Store, c: Chain, v: int, k: Key, w: int)
    requires Queryable(s, c, v) && k in c.snapshot && k in s.deletions && In(s.deletions[k].patches, w)
    requires w < s.maxPatchId + 1 || InEnded(s.deletions[k].patches, MAX, w)
    ensures RanksNatural(s.Nodes(), k, w)
  {
    hide WrongRank, RankTrue, CountsTrue, RanksAt, RanksOk, Dictionary, Represents, RanksNatural, InEnded, In, Steady,
         WellFormed;
    var t := s.Nodes();
    EntryReadable(t, s.countAdditions, c.snapshot, c.history, c.min, s.vocabulary, c.misranked, k);
    assert Represents(t.EntryOf(k), k, c.snapshot, c.history, c.min);
    if w >= s.maxPatchId + 1 { EndedBefore(s.deletions[k].patches, s.maxPatchId, w); }
    DeletedAt(t.EntryOf(k), k, c, w);
  }

  /** A run that has ended lies before the time from which on nothing changes. */
  lemma EndedBefore(iv: seq<Interval>, u: int, x: int)
    requires WellFormed(iv, MAX) && Steady(iv, u) && InEnded(iv, MAX, x)
    ensures x <= u
  {
    var i :| 0 <= i < |iv| && iv[i].start <= x < iv[i].end < MAX;
    Edges(iv, i);
  }

  lemma DeletedAt(e: Entry, k: Key, c: Chain, w: int)
    requires Represents(e, k, c.snapshot, c.history, c.min) && k in c.snapshot && In(e.del, w) &&
             w < c.min + |c.history| < MAX
    ensures c.min <= w && k !in c.history[w - c.min]
  {
    assert Member(k, w, c.snapshot, c.history, c.min) == (k in Content(c, w)) || w < c.min;
  }

  /** `get` answers for a version of the value: one that the reader knows of, or that lies in a run that has ended. */
  lemma ReadVersionListed(d: DeletionData, v: int, limit: int)
    requires Readable(d) && SizeSeen(d, limit) > 0 && limit <= MAX
    ensures var w := VersionRead(d, v, limit); In(d.patches, w) && (w < limit || InEnded(d.patches, MAX, w))
  {
    hide Ids, In, VersionRead, Overrun, InEnded;
    ReadsListed(d, v, limit);
    var ids, size := Ids(d.patches, MAX, limit), SizeSeen(d, limit);
    PlaceInList(ids, v);
    var x := VersionRead(d, v, limit);
    assert x in ids by {
      if 0 <= PlaceOf(ids, v) < size { assert ids[PlaceOf(ids, v)] == v; } else { assert ids[size - 1] == x; }
    }
    IdsCorrect(d.patches, MAX, limit);
  }

  method DeletionCountFull(s: Store, ghost c: Chain, keys: seq<Key>, pattern: Triple, v: int)
    returns (count: int, last: Option<Key>)
    requires Queryable(s, c, v) && IsPattern(pattern) && IsDefaultTree(pattern)
    requires IsIndex(keys, s.deletions.Keys, QueryOrder(pattern), s.vocabulary)
    ensures CountIsRead(s, c, pattern, v, count, last)
  {
    hide ChainOk, IsIndex, IsLast, QueryOrder, DeletionHit, Matches, Dictionary, Readable, RanksAt, MatchesOf,
         FieldOf, HitsIn, Lost, RankRead;
    var value := new DeletionValue(s.maxPatchId);
    forall k | k in s.deletions ensures Readable(s.deletions[k]) { FullyRead(s, c, v, k); }
    FullHits(s, c, pattern, v);
    last := LastDeletionValue(s.deletions, keys, s.vocabulary, c.universe, pattern, v, value);
    if last.None? {
      return 0, None;
    }
    LastIsOne(MatchesOf(Lost(c, v), s.vocabulary, pattern), QueryOrder(pattern), s.vocabulary, last.value);
    LostStored(s, c, pattern, v, last.value);
    count := CountFromLast(s, c, pattern, v, last.value, value);
  }

  lemma DefaultAgrees(pattern: Triple)
    requires IsPattern(pattern) && IsDefaultTree(pattern)
    ensures AgreesWithSpo(pattern)
  {
    hide AgreesWithSpo;
    MergeOrderAgrees(pattern);
  }

  lemma LastIsOne(some: set<Key>, order: Order, vocabulary: Key -> Triple, k: Key)
    requires IsLast(some, order, vocabulary, k)
    ensures k in some
  {
  }

  lemma LostKnown(s: Store, c: Chain, pattern: Triple, v: int)
    requires Queryable(s, c, v)
    ensures MatchesOf(Lost(c, v), s.vocabulary, pattern) <= c.universe &&
            OnceLost(c, s.vocabulary, pattern, v) <= c.universe
    ensures forall j :: j in MatchesOf(Lost(c, v), s.vocabulary, pattern) ==> Matches(s.vocabulary(j), pattern)
  {
    hide ChainOk, Matches, Dictionary;
  }

  lemma LostStored(s: Store, c: Chain, pattern: Triple, v: int, k: Key)
    requires Queryable(s, c, v) && k in MatchesOf(Lost(c, v), s.vocabulary, pattern)
    ensures k in s.deletions
  {
    hide Queryable;
    LostWasOnceLost(s, c, pattern, v, k);
    OnceLostStored(s, c, pattern, v, k);
  }

  method DeletionCountReduced(s: Store, ghost c: Chain, keys: seq<Key>, reduced: map<Key, DeletionData>,
                              pattern: Triple, v: int)
    returns (count: int, last: Option<Key>)
    requires IsReducedTree(reduced, s.deletions)
    requires Queryable(s, c, v) && IsPattern(pattern) && !IsDefaultTree(pattern)
    requires IsIndex(keys, s.deletions.Keys, QueryOrder(pattern), s.vocabulary)
    ensures CountIsRead(s, c, pattern, v, count, last)
  {
    hide ChainOk, IsIndex, QueryOrder, DeletionHit, Matches, Dictionary, Readable, RanksAt, MatchesOf, FieldOf,
         HitsIn, Lost, OnceLost, Reduced, IsLast, RankRead;
    var value := new DeletionValue(s.maxPatchId);
    ReducedHits(s, c, reduced, pattern, v);
    QueryableFacts(s, c, v);
    last := LastDeletionValue(reduced, keys, s.vocabulary, c.universe, pattern, v, value);
    if last.None? {
      return 0, None;
    }
    LastIsOne(OnceLost(c, s.vocabulary, pattern, v), QueryOrder(pattern), s.vocabulary, last.value);
    OnceLostStored(s, c, pattern, v, last.value);
    count := CountOf(s, c, pattern, v, last.value);
  }

  lemma NoneIsLast(some: set<Key>, order: Order, vocabulary: Key -> Triple)
    requires some == {}
    ensures forall k :: !IsLast(some, order, vocabulary, k)
  {
  }

  lemma OnceLostStored(s: Store, c: Chain, pattern: Triple, v: int, k: Key)
    requires Queryable(s, c, v) && k in OnceLost(c, s.vocabulary, pattern, v)
    ensures k in s.deletions
  {
    hide Queryable, Matches, Lost;
    FirstLoss(s, c, v, k);
  }

  /** `get_deletion_value`, then the count from its rank. */
  method CountOf(s: Store, ghost c: Chain, pattern: Triple, v: int, k: Key) returns (count: int)
    requires Queryable(s, c, v) && k in s.deletions
    ensures count == RankRead(s.deletions[k], pattern, v, s.maxPatchId + 1) + 1
  {
    hide ChainOk, Dictionary, RanksAt, RankRead;
    var value := new DeletionValue(s.maxPatchId);
    FullyRead(s, c, v, k);
    value.Load(s.deletions[k]);
    count := CountFromLast(s, c, pattern, v, k, value);
  }

  lemma OnceLostCoversLost(s: Store, c: Chain, pattern: Triple, v: int)
    requires Queryable(s, c, v)
    ensures forall k :: k in MatchesOf(Lost(c, v), s.vocabulary, pattern) <==>
                        k in OnceLost(c, s.vocabulary, pattern, v) && k in Lost(c, v)
  {
    hide Queryable, Matches;
    forall k ensures k in MatchesOf(Lost(c, v), s.vocabulary, pattern) <==>
                     k in OnceLost(c, s.vocabulary, pattern, v) && k in Lost(c, v) {
      if k in MatchesOf(Lost(c, v), s.vocabulary, pattern) { LostWasOnceLost(s, c, pattern, v, k); }
    }
  }

  /** One more than the rank that a full value holds for the version. */
  method CountFromLast(s: Store, ghost c: Chain, pattern: Triple, v: int, k: Key, value: DeletionValue)
    returns (count: int)
    requires Queryable(s, c, v) && k in s.deletions
    requires value.Valid() && value.maxPatchId == s.maxPatchId + 1 && value.Data() == s.deletions[k]
    ensures count == RankRead(s.deletions[k], pattern, v, s.maxPatchId + 1) + 1
  {
    hide ChainOk, Dictionary, RanksAt, FieldOf, GetByPattern, Ids, Overrun, PlaceOf, In, VersionRead;
    FullyRead(s, c, v, k);
    ReadsListed(s.deletions[k], v, s.maxPatchId + 1);
    var e := value.Get(v);
    count := GetByPattern(e.positions, pattern) + 1;
  }

  // ----- additions

  /** What is left of a sequence after dropping `n` elements, if there are so many. */
  function Skip(s: seq<Key>, n: int): seq<Key> {
    if n <= 0 then s else if n < |s| then s[n..] else []
  }

  lemma SkipMore(s: seq<Key>, n: nat)
    ensures Skip(s, n) == [] ==> Skip(s, n + 1) == []
    ensures Skip(s, n) != [] ==> Skip(s, n)[1..] == Skip(s, n + 1)
  {
  }

  lemma SkipStays(s: seq<Key>, n: int, m: int)
    requires n <= m && Skip(s, n) == []
    ensures Skip(s, m) == []
  {
  }

  lemma SkipNothing(s: seq<Key>, n: int)
    ensures Skip(s, 0) == s && (n <= 0 ==> Skip(s, n) == s)
  {
  }

  /** The triple comes into the chain in version `u`. */
  ghost predicate Enters(c: Chain, k: Key, u: int) {
    c.min <= u < c.min + |c.history| && k in Content(c, u) && k !in Content(c, u - 1)
  }

  /** It does so after version `v` for the first time. */
  ghost predicate EntersLate(c: Chain, k: Key, v: int) {
    (exists u :: v < u && Enters(c, k, u)) && forall u :: u <= v ==> !Enters(c, k, u)
  }

  /** No matching triple comes into the chain after the version only. */
  ghost predicate AdditionsBegun(c: Chain, vocabulary: Key -> Triple, pattern: Triple, v: int) {
    forall k :: EntersLate(c, k, v) ==> !Matches(vocabulary(k), pattern)
  }

  /** The matching additions of a version, in the order of the pattern's index: for all patterns but `? p ?` in SPO
      order. */
  ghost function Additions(c: Chain, vocabulary: Key -> Triple, pattern: Triple, v: int): (keys: seq<Key>)
    ensures |keys| == |MatchesOf(Gained(c, v), vocabulary, pattern)|
    ensures forall k :: k in keys <==> k in MatchesOf(Gained(c, v), vocabulary, pattern)
  {
    Arranged(MatchesOf(Gained(c, v), vocabulary, pattern), c.universe, QueryOrder(pattern), vocabulary)
  }

  lemma AdditionsInSpo(s: Store, c: Chain, pattern: Triple, v: int)
    requires Queryable(s, c, v) && AgreesWithSpo(pattern)
    ensures Additions(c, s.vocabulary, pattern, v) == Sorted(MatchesOf(Gained(c, v), s.vocabulary, pattern))
  {
    hide ChainOk, Matches, AgreesWithSpo, Above, QueryOrder, Gained;
    var gained := MatchesOf(Gained(c, v), s.vocabulary, pattern);
    GainedKnown(s, c, pattern, v);
    var keys := Arranged(gained, c.universe, QueryOrder(pattern), s.vocabulary);
    var all := (k: Key) => true;
    HitsIncrease(keys, gained, c.universe, s.vocabulary, pattern, all);
    SelectAll(keys);
    assert HitsIn(gained, all) == gained;
  }

  lemma {:induction false} SelectAll(keys: seq<Key>)
    ensures Selection.Select(keys, (k: Key) => true) == keys
  {
    if keys != [] { SelectAll(keys[1..]); }
  }

  lemma GainedKnown(s: Store, c: Chain, pattern: Triple, v: int)
    requires Queryable(s, c, v)
    ensures MatchesOf(Gained(c, v), s.vocabulary, pattern) <= c.universe
  {
    hide Queryable, Matches;
    QueryableFacts(s, c, v);
    GainedHits(s, c, pattern, v);
  }

  /** Those before a triple. */
  ghost function AdditionsBefore(c: Chain, vocabulary: Key -> Triple, pattern: Triple, v: int, k: Key): set<Key> {
    set j | j in MatchesOf(Gained(c, v), vocabulary, pattern) &&
            Above(QueryOrder(pattern), vocabulary(k), vocabulary(j))
  }

  /** None does with fewer than `n` additions of the version before it. */
  ghost predicate BegunUpTo(c: Chain, vocabulary: Key -> Triple, pattern: Triple, v: int, n: nat) {
    forall k :: EntersLate(c, k, v) && Matches(vocabulary(k), pattern) ==>
      n <= |AdditionsBefore(c, vocabulary, pattern, v, k)|
  }

  /** The addition tree holds the triples that ever come into the chain, each from its first time on. */
  lemma AdditionStart(s: Store, c: Chain, v: int, k: Key)
    requires Queryable(s, c, v)
    ensures k in s.additions <==> exists u :: Enters(c, k, u)
    ensures k in s.additions ==>
      var runs := s.additions[k].patches;
      runs != [] && Enters(c, k, runs[0].start) && forall u :: Enters(c, k, u) ==> runs[0].start <= u
  {
    hide RanksTrue, CountsTrue, RanksOk, Dictionary;
    var e := s.Nodes().EntryOf(k);
    assert Represents(e, k, c.snapshot, c.history, c.min);
    EntryReadable(s.Nodes(), s.countAdditions, c.snapshot, c.history, c.min, s.vocabulary, c.misranked, k);
    FirstEntry(e, k, c);
    if k !in s.additions {
      forall u ensures !Enters(c, k, u) { assert !In([], u); }
    }
  }

  lemma FirstEntry(e: Entry, k: Key, c: Chain)
    requires Represents(e, k, c.snapshot, c.history, c.min) && 0 < c.min && c.min + |c.history| < MAX
    requires EntryOk(e, k in c.snapshot, c.min + |c.history|)
    ensures forall u :: Enters(c, k, u) ==> In(e.add, u)
    ensures e.add != [] ==> Enters(c, k, e.add[0].start) && forall u :: In(e.add, u) ==> e.add[0].start <= u
  {
    assert forall u :: Member(k, u, c.snapshot, c.history, c.min) == (k in Content(c, u)) || u >= c.min + |c.history|;
    if e.add != [] { Edges(e.add, 0); }
  }

  /** The triple goes out of the chain in version `u`. */
  ghost predicate Leaves(c: Chain, k: Key, u: int) {
    c.min <= u < c.min + |c.history| && k !in Content(c, u) && k in Content(c, u - 1)
  }

  /** The deletion tree holds the triples that ever go out of the chain. */
  lemma DeletionStored(s: Store, c: Chain, v: int, k: Key)
    requires Queryable(s, c, v)
    ensures k in s.deletions <==> exists u :: Leaves(c, k, u)
  {
    hide RanksTrue, CountsTrue, RanksOk, Dictionary, Leaves;
    var e := s.Nodes().EntryOf(k);
    assert Represents(e, k, c.snapshot, c.history, c.min);
    EntryReadable(s.Nodes(), s.countAdditions, c.snapshot, c.history, c.min, s.vocabulary, c.misranked, k);
    FirstExit(e, k, c);
    if k !in s.deletions {
      forall u ensures !Leaves(c, k, u) { assert !In([], u); }
    }
  }

  lemma FirstExit(e: Entry, k: Key, c: Chain)
    requires Represents(e, k, c.snapshot, c.history, c.min) && 0 < c.min && c.min + |c.history| < MAX
    requires EntryOk(e, k in c.snapshot, c.min + |c.history|)
    ensures forall u :: Leaves(c, k, u) ==> In(e.del, u)
    ensures e.del != [] ==> Leaves(c, k, e.del[0].start)
  {
    assert forall u :: Member(k, u, c.snapshot, c.history, c.min) == (k in Content(c, u)) || u >= c.min + |c.history|;
    if e.del != [] { Edges(e.del, 0); }
  }

  /** A triple of the snapshot is in both trees exactly if it has come back once: its deletion is carried over under a
      foreign triple if the patch does not mention it. */
  lemma StaleIff(s: Store, c: Chain, v: int, patch: seq<PatchElement>, k: Key)
    requires Queryable(s, c, v) && k in c.snapshot
    ensures Stale(s.Nodes(), patch, k) <==> Sign(patch, k).None? && exists u :: Enters(c, k, u)
  {
    hide RanksTrue, CountsTrue, RanksOk, Dictionary, Enters;
    AdditionStart(s, c, v, k);
    assert Represents(s.Nodes().EntryOf(k), k, c.snapshot, c.history, c.min);
  }

  /** With ids that can be packed, a rank is wrong only in a version that lacks a triple which had come back. */
  ghost predicate MisrankedOnReturn(c: Chain, vocabulary: Key -> Triple) {
    AllPackable(c.snapshot, vocabulary) ==> forall r :: r in c.misranked ==> LostOnReturn(c, r.version)
  }

  /** The version lacks a triple of the snapshot that an earlier version had added again. */
  ghost predicate LostOnReturn(c: Chain, v: int) {
    exists k, w :: w < v && Enters(c, k, w) && k in Lost(c, v)
  }

  ghost function Extended(c: Chain, s: Store, patch: seq<PatchElement>, next: set<Key>): Chain {
    c.(history := c.history + [next],
       misranked := RemarkedRanks(c.misranked, s.Nodes(), c.snapshot, patch, c.min + |c.history|, s.vocabulary, next))
  }

  /** Every version keeps it so. */
  lemma ReturnsStep(s: Store, c: Chain, patch: seq<PatchElement>, next: set<Key>)
    requires if c.history == [] then s.deletions == map[] && c.misranked == {}
             else Queryable(s, c, c.min + |c.history| - 1)
    requires MisrankedOnReturn(c, s.vocabulary)
    ensures MisrankedOnReturn(Extended(c, s, patch, next), s.vocabulary)
  {
    hide ChainOk, Enters, Lost, RemarkedRanks, EvenlyCounted, CountedFor, Stale;
    var longer, v := Extended(c, s, patch, next), c.min + |c.history|;
    forall r | AllPackable(c.snapshot, s.vocabulary) && r in longer.misranked ensures LostOnReturn(longer, r.version) {
      Remarked(c.misranked, s.Nodes(), c.snapshot, patch, v, s.vocabulary, next, r);
      if r in c.misranked {
        InsideHistory(s, c, r);
        var k, w :| w < r.version && Enters(c, k, w) && k in Lost(c, r.version);
        SameBefore(c, longer, k, w, r.version);
      } else {
        ForeignCounted(s, c, patch, next, r.field, r.key);
        var k :| k in c.snapshot - next && Stale(s.Nodes(), patch, k);
        assert c.history != [] by { NotStale(s, patch, k); }
        StaleIff(s, c, v - 1, patch, k);
        var w :| Enters(c, k, w);
        EntersInside(c, k, w);
        SameBefore(c, longer, k, w, w);
        assert k in Lost(longer, v) by { LostAtEnd(longer, k); }
      }
    }
  }

  lemma ForeignCounted(s: Store, c: Chain, patch: seq<PatchElement>, next: set<Key>, field: int, key: Key)
    requires AllPackable(c.snapshot, s.vocabulary) && 0 <= field < FIELDS && key in c.snapshot - next
    requires !EvenlyCounted(c.snapshot - next, key, CountedFor(s.Nodes(), patch, s.vocabulary), s.vocabulary, field)
    ensures exists k :: k in c.snapshot - next && Stale(s.Nodes(), patch, k)
  {
    hide EvenlyCounted, CountedFor, Stale, Packable, IsReal;
    if forall k :: k in c.snapshot - next ==> !Stale(s.Nodes(), patch, k) {
      OwnTriplesRankRight(s.Nodes(), c.snapshot, patch, s.vocabulary, next, field);
    }
  }

  lemma NotStale(s: Store, patch: seq<PatchElement>, k: Key)
    ensures Stale(s.Nodes(), patch, k) ==> s.deletions != map[]
  {
  }

  lemma InsideHistory(s: Store, c: Chain, r: RankPlace)
    requires if c.history == [] then c.misranked == {} else Queryable(s, c, c.min + |c.history| - 1)
    requires r in c.misranked
    ensures c.min <= r.version < c.min + |c.history|
  {
    hide Represents, CountsTrue, RankTrue, RanksOk, Dictionary;
    assert WrongRank(s.Nodes(), c.snapshot, c.history, c.min, s.vocabulary, r);
  }

  lemma EntersInside(c: Chain, k: Key, w: int)
    requires Enters(c, k, w)
    ensures c.min <= w < c.min + |c.history|
  {
  }

  /** A longer history tells the same of the versions it shares. */
  lemma SameBefore(c: Chain, longer: Chain, k: Key, w: int, v: int)
    requires longer.min == c.min && longer.snapshot == c.snapshot && c.history <= longer.history && Enters(c, k, w)
    requires c.min <= v < c.min + |c.history|
    ensures Enters(longer, k, w) && Lost(longer, v) == Lost(c, v)
  {
  }

  lemma LostAtEnd(c: Chain, k: Key)
    requires c.history != [] && k in c.snapshot - c.history[|c.history| - 1]
    ensures k in Lost(c, c.min + |c.history| - 1)
  {
  }

  /** A walk over the additions looks below the first start of exactly the triples that enter late. */
  lemma UnbegunIff(s: Store, c: Chain, pattern: Triple, v: int, k: Key)
    requires Queryable(s, c, v)
    ensures Unbegun(s.additions, s.vocabulary, QueryFilters(pattern, v), s.maxPatchId + 1)(k) <==>
            EntersLate(c, k, v) && Matches(s.vocabulary(k), pattern)
    ensures EntersLate(c, k, v) ==> k in s.additions
  {
    hide Queryable, Matches, Enters;
    QueryableFacts(s, c, v);
    AdditionStart(s, c, v, k);
    QuerySelects(pattern, v, s.vocabulary(k));
  }

  lemma GainedHits(s: Store, c: Chain, pattern: Triple, v: int)
    requires Queryable(s, c, v)
    ensures forall k :: k in s.additions ==> AdditionReadable(s.additions[k])
    ensures var f := QueryFilters(pattern, v);
      && HitsIn(s.additions.Keys, AdditionHit(s.additions, s.vocabulary, f, s.maxPatchId + 1)) ==
           MatchesOf(Gained(c, v), s.vocabulary, pattern)
      && (forall k :: k in s.additions.Keys && AdditionHit(s.additions, s.vocabulary, f, s.maxPatchId + 1)(k) ==>
            Matches(s.vocabulary(k), pattern))
      && (forall k :: k in s.additions.Keys && StopAt(s.vocabulary, f)(k) ==> !Matches(s.vocabulary(k), pattern))
      && (forall k :: k in s.additions.Keys && StopAt(s.vocabulary, f)(k) ==>
            !AdditionHit(s.additions, s.vocabulary, f, s.maxPatchId + 1)(k))
  {
    hide ChainOk, Matches, AdditionHit, AdditionReadable;
    var f := QueryFilters(pattern, v);
    var hit := AdditionHit(s.additions, s.vocabulary, f, s.maxPatchId + 1);
    forall k ensures k in s.additions ==> AdditionReadable(s.additions[k]) {
      EntryReadable(s.Nodes(), s.countAdditions, c.snapshot, c.history, c.min, s.vocabulary,
                    c.misranked, k);
    }
    forall k ensures hit(k) <==> k in MatchesOf(Gained(c, v), s.vocabulary, pattern)
             ensures hit(k) ==> k in s.additions
             ensures StopAt(s.vocabulary, f)(k) ==> !Matches(s.vocabulary(k), pattern) {
      QuerySelects(pattern, v, s.vocabulary(k));
      AdditionHitMeaning(s.Nodes(), s.countAdditions, c.snapshot, c.history, c.min, s.vocabulary,
                         c.misranked, f, s.maxPatchId + 1, k);
      AdditionStored(s.additions, s.vocabulary, f, s.maxPatchId + 1, k);
    }
  }

  lemma AdditionStored(additions: map<Key, AdditionData>, vocabulary: Key -> Triple, f: Filters, limit: int, k: Key)
    ensures AdditionHit(additions, vocabulary, f, limit)(k) ==> k in additions
  {
  }

  /** A stored count is that of the matching additions. */
  lemma StoredCount(s: Store, c: Chain, pattern: Triple, v: int)
    requires Queryable(s, c, v)
    ensures (v, pattern) in s.countAdditions ==>
              s.countAdditions[(v, pattern)] == |MatchesOf(Gained(c, v), s.vocabulary, pattern)| > 0
  {
    hide Represents, RanksTrue, RanksOk, MatchesOf, FieldOf;
    assert (v, pattern) in s.countAdditions ==> FieldOf((v, pattern).1) >= 0;
  }

  /** Where a walk from the pattern on can go on for `n` hits. */
  lemma AdditionWalk(s: Store, c: Chain, keys: seq<Key>, pattern: Triple, v: int, n: nat)
    requires Queryable(s, c, v) && IsPattern(pattern)
    requires IsIndex(keys, s.additions.Keys, QueryOrder(pattern), s.vocabulary)
    ensures var f, limit := QueryFilters(pattern, v), s.maxPatchId + 1;
      var ahead := Ahead(keys, Jump(keys, QueryOrder(pattern), s.vocabulary, pattern), false);
      var bad := Unbegun(s.additions, s.vocabulary, f, limit);
      && StopsAreFinal(ahead, bad, StopAt(s.vocabulary, f))
      && (WalksSafely(ahead, AdditionHit(s.additions, s.vocabulary, f, limit), StopAt(s.vocabulary, f), bad, n) <==>
          BegunUpTo(c, s.vocabulary, pattern, v, n))
  {
    hide Queryable, QueryOrder, Matches, AdditionHit, StopAt, Jump, StopsAreFinal, Ahead, Dictionary,
         IsIndex, IsPattern, Unbegun, EntersLate, WalksSafely, HitsIn, Gained;
    var f, limit := QueryFilters(pattern, v), s.maxPatchId + 1;
    var hit, stop := AdditionHit(s.additions, s.vocabulary, f, limit), StopAt(s.vocabulary, f);
    var bad := Unbegun(s.additions, s.vocabulary, f, limit);
    GainedHits(s, c, pattern, v);
    QueryableFacts(s, c, v);
    forall k
      ensures bad(k) <==> EntersLate(c, k, v) && Matches(s.vocabulary(k), pattern)
      ensures bad(k) ==> k in s.additions
      ensures HitsBelow(keys, hit, QueryOrder(pattern), s.vocabulary, k) ==
              AdditionsBefore(c, s.vocabulary, pattern, v, k) {
      UnbegunIff(s, c, pattern, v, k);
      HitsBelowAre(s, c, keys, pattern, v, k);
    }
    JumpedSafe(keys, s.additions.Keys, c.universe, s.vocabulary, pattern, hit, stop, bad, n);
  }

  lemma HitsBelowAre(s: Store, c: Chain, keys: seq<Key>, pattern: Triple, v: int, k: Key)
    requires Queryable(s, c, v) && IsIndex(keys, s.additions.Keys, QueryOrder(pattern), s.vocabulary)
    ensures HitsBelow(keys, AdditionHit(s.additions, s.vocabulary, QueryFilters(pattern, v), s.maxPatchId + 1),
                      QueryOrder(pattern), s.vocabulary, k) == AdditionsBefore(c, s.vocabulary, pattern, v, k)
  {
    hide Queryable, QueryOrder, Matches, AdditionHit, Above, Gained;
    var hit := AdditionHit(s.additions, s.vocabulary, QueryFilters(pattern, v), s.maxPatchId + 1);
    GainedHits(s, c, pattern, v);
    var hits := HitsIn(s.additions.Keys, hit);
    IndexKeys(keys, s.additions.Keys, QueryOrder(pattern), s.vocabulary);
    forall j ensures j in HitsBelow(keys, hit, QueryOrder(pattern), s.vocabulary, k) <==>
                     j in AdditionsBefore(c, s.vocabulary, pattern, v, k) {
      assert j in hits <==> j in MatchesOf(Gained(c, v), s.vocabulary, pattern);
    }
  }

  /** A walk from the pattern on, at a version, does not look below a first start up to its `n`-th addition. */
  ghost predicate WalksOn(s: Store, keys: seq<Key>, pattern: Triple, v: int, n: nat) {
    var f, limit := QueryFilters(pattern, v), s.maxPatchId + 1;
    WalksSafely(Ahead(keys, Jump(keys, QueryOrder(pattern), s.vocabulary, pattern), false),
                AdditionHit(s.additions, s.vocabulary, f, limit), StopAt(s.vocabulary, f),
                Unbegun(s.additions, s.vocabulary, f, limit), n)
  }

  /** Drained, the walk looks below a first start exactly if a matching triple enters late. */
  lemma DrainedWalk(s: Store, c: Chain, keys: seq<Key>, pattern: Triple, v: int, n: nat)
    requires Queryable(s, c, v) && IsPattern(pattern)
    requires IsIndex(keys, s.additions.Keys, QueryOrder(pattern), s.vocabulary)
    requires |MatchesOf(Gained(c, v), s.vocabulary, pattern)| < n
    ensures !WalksOn(s, keys, pattern, v, n) <==> exists k :: EntersLate(c, k, v) && Matches(s.vocabulary(k), pattern)
  {
    hide Queryable, IsPattern, IsIndex, EntersLate, Matches, WalksSafely, Ahead, Jump, AdditionHit, StopAt,
         Unbegun, QueryOrder, QueryFilters, BegunUpTo, Gained;
    AdditionWalk(s, c, keys, pattern, v, n);
    DrainedIff(c, s.vocabulary, pattern, v, n);
    BegunIff(c, s.vocabulary, pattern, v);
  }

  lemma BegunIff(c: Chain, vocabulary: Key -> Triple, pattern: Triple, v: int)
    ensures AdditionsBegun(c, vocabulary, pattern, v) <==>
            !exists k :: EntersLate(c, k, v) && Matches(vocabulary(k), pattern)
  {
    hide EntersLate, Matches;
  }

  lemma DrainedIff(c: Chain, vocabulary: Key -> Triple, pattern: Triple, v: int, n: nat)
    requires |MatchesOf(Gained(c, v), vocabulary, pattern)| < n
    ensures BegunUpTo(c, vocabulary, pattern, v, n) <==> AdditionsBegun(c, vocabulary, pattern, v)
  {
    hide EntersLate, Matches, Gained;
    forall k ensures |AdditionsBefore(c, vocabulary, pattern, v, k)| < n {
      SubsetNotLarger(AdditionsBefore(c, vocabulary, pattern, v, k), MatchesOf(Gained(c, v), vocabulary, pattern));
    }
  }

  lemma SubsetNotLarger(a: set<Key>, b: set<Key>)
    requires a <= b
    ensures |a| <= |b|
  {
    assert b == a + (b - a);
  }

  /** The offset is past the count stored for the version: the cursor then jumps to the last record. */
  predicate PastCount(s: Store, pattern: Triple, v: int, offset: int) {
    var count := Lookup(s.countAdditions, (v, pattern));
    count != 0 && count <= offset
  }

  /** An addition iterator from `offset` on can deliver `n` additions: it asks no triple that enters late. Past the
      stored count it asks the last record only. */
  ghost predicate Opens(s: Store, c: Chain, keys: seq<Key>, pattern: Triple, v: int, offset: int, n: nat) {
    if PastCount(s, pattern, v, offset) then
      keys != [] && EntersLate(c, keys[|keys| - 1], v) ==> !Matches(s.vocabulary(keys[|keys| - 1]), pattern)
    else BegunUpTo(c, s.vocabulary, pattern, v, if offset > 0 then offset + n else n)
  }

  /** `addition_iterator_from`: the additions of the version from `offset` on. */
  method AdditionIteratorFrom(s: Store, ghost c: Chain, keys: seq<Key>, offset: int, v: int, pattern: Triple)
    returns (it: PatchTreeIterator)
    requires Queryable(s, c, v) && IsPattern(pattern)
    requires IsIndex(keys, s.additions.Keys, QueryOrder(pattern), s.vocabulary)
    requires Opens(s, c, keys, pattern, v, offset, 0)
    ensures fresh(it) && it.Valid() && it.AdditionStopsAreFinal(s.maxPatchId + 1)
    ensures it.RestAdditions(s.maxPatchId + 1) ==
            Skip(Additions(c, s.vocabulary, pattern, v), offset)
    ensures forall n: nat :: it.InReach(s.maxPatchId + 1, n) <==> Opens(s, c, keys, pattern, v, offset, n)
  {
    hide Queryable, QueryOrder, Matches, MatchesOf, AdditionHit, AdditionReadable, StopAt, Compare,
         Additions, Gained, Selection.Select, Increasing, Jump, StopsAreFinal, Stream, Ahead, Dictionary, IsIndex,
         HitsIn, Skip, IsPattern, BegunUpTo, Unbegun, EntersLate, WalksSafely;
    it := AdditionsFromPattern(s, c, keys, v, pattern);
    IndexKeys(keys, s.additions.Keys, QueryOrder(pattern), s.vocabulary);
    QueryableFacts(s, c, v);
    ghost var all := Additions(c, s.vocabulary, pattern, v);
    var value := new AdditionValue(s.maxPatchId);
    var count := Lookup(s.countAdditions, (v, pattern));
    if count != 0 && count <= offset {
      StoredCount(s, c, pattern, v);
      it.cursorAdditions := |keys| - 1;
      GainedHits(s, c, pattern, v);
      ghost var f := QueryFilters(pattern, v);
      ShortRest(keys, s.additions.Keys, AdditionHit(s.additions, s.vocabulary, f, s.maxPatchId + 1),
                StopAt(s.vocabulary, f));
      LastAsked(s, c, keys, pattern, v);
      SkipAll(it.RestAdditions(s.maxPatchId + 1), all, offset);
    }
    SkipAdditions(it, offset, value);
  }

  /** The walk from the pattern on delivers them. */
  lemma StreamOfAdditions(s: Store, c: Chain, keys: seq<Key>, v: int, pattern: Triple)
    requires Queryable(s, c, v) && IsPattern(pattern) &&
             IsIndex(keys, s.additions.Keys, QueryOrder(pattern), s.vocabulary)
    ensures var f, ahead := QueryFilters(pattern, v),
                            Ahead(keys, Jump(keys, QueryOrder(pattern), s.vocabulary, pattern), false);
      var hit, stop := AdditionHit(s.additions, s.vocabulary, f, s.maxPatchId + 1), StopAt(s.vocabulary, f);
      StopsAreFinal(ahead, hit, stop) && Stream(ahead, hit, stop) == Additions(c, s.vocabulary, pattern, v)
  {
    hide Queryable, IsPattern, IsIndex, QueryOrder, Stream, Ahead, Jump, AdditionHit, StopAt, Matches, Arranged,
         Gained, Dictionary, StopsAreFinal, Selection.Select;
    var f := QueryFilters(pattern, v);
    var hit := AdditionHit(s.additions, s.vocabulary, f, s.maxPatchId + 1);
    QueryableFacts(s, c, v);
    GainedHits(s, c, pattern, v);
    JumpedSelect(keys, s.additions.Keys, c.universe, s.vocabulary, pattern, hit, StopAt(s.vocabulary, f));
    SelectIndex(keys, s.additions.Keys, c.universe, QueryOrder(pattern), s.vocabulary, hit);
  }

  /** The iterator on the first matching record. */
  method AdditionsFromPattern(s: Store, ghost c: Chain, keys: seq<Key>, v: int, pattern: Triple)
    returns (it: PatchTreeIterator)
    requires Queryable(s, c, v) && IsPattern(pattern)
    requires IsIndex(keys, s.additions.Keys, QueryOrder(pattern), s.vocabulary)
    ensures fresh(it) && it.Valid() && it.AdditionStopsAreFinal(s.maxPatchId + 1)
    ensures it.additionKeys == keys && it.additions == s.additions && it.vocabulary == s.vocabulary && !it.reverse
    ensures it.filters == QueryFilters(pattern, v)
    ensures it.RestAdditions(s.maxPatchId + 1) == Additions(c, s.vocabulary, pattern, v)
    ensures forall n: nat :: it.InReach(s.maxPatchId + 1, n) <==> BegunUpTo(c, s.vocabulary, pattern, v, n)
  {
    hide Queryable, QueryOrder, Matches, MatchesOf, AdditionHit, AdditionReadable, StopAt, Compare,
         Additions, Gained, Selection.Select, Increasing, Jump, StopsAreFinal, Stream, Ahead, Dictionary, IsIndex,
         HitsIn, Skip, IsPattern, BegunUpTo, Unbegun, WalksSafely;
    var f := QueryFilters(pattern, v);
    IndexKeys(keys, s.additions.Keys, QueryOrder(pattern), s.vocabulary);
    QueryableFacts(s, c, v);
    it := new PatchTreeIterator(s.vocabulary, [], map[], keys, s.additions,
                                0, Jump(keys, QueryOrder(pattern), s.vocabulary, pattern), f, false);
    GainedHits(s, c, pattern, v);
    StreamOfAdditions(s, c, keys, v, pattern);
    forall n: nat ensures it.InReach(s.maxPatchId + 1, n) <==> BegunUpTo(c, s.vocabulary, pattern, v, n) {
      AdditionWalk(s, c, keys, pattern, v, n);
    }
    AdditionWalk(s, c, keys, pattern, v, 0);
  }

  /** On the last record, the walk asks that record at most. */
  lemma LastAsked(s: Store, c: Chain, keys: seq<Key>, pattern: Triple, v: int)
    requires Queryable(s, c, v) && forall k :: k in keys <==> k in s.additions.Keys
    requires keys != [] && EntersLate(c, keys[|keys| - 1], v) ==> !Matches(s.vocabulary(keys[|keys| - 1]), pattern)
    ensures var f, limit := QueryFilters(pattern, v), s.maxPatchId + 1;
      var ahead, bad := Ahead(keys, |keys| - 1, false), Unbegun(s.additions, s.vocabulary, f, limit);
      && StopsAreFinal(ahead, bad, StopAt(s.vocabulary, f))
      && forall n: nat ::
           WalksSafely(ahead, AdditionHit(s.additions, s.vocabulary, f, limit), StopAt(s.vocabulary, f), bad, n)
  {
    hide Queryable, Matches, AdditionHit, StopAt, Unbegun, EntersLate, WalksSafely;
    var f, limit := QueryFilters(pattern, v), s.maxPatchId + 1;
    var ahead := Ahead(keys, |keys| - 1, false);
    var bad := Unbegun(s.additions, s.vocabulary, f, limit);
    if keys != [] {
      UnbegunIff(s, c, pattern, v, keys[|keys| - 1]);
    }
    assert forall i :: 0 <= i < |ahead| ==> !bad(ahead[i]);
    forall n: nat {
      NothingBad(ahead, AdditionHit(s.additions, s.vocabulary, f, limit), StopAt(s.vocabulary, f), bad, n);
    }
  }

  /** On the last record there is at most one hit left. */
  lemma ShortRest(keys: seq<Key>, stored: set<Key>, hit: Key -> bool, stop: Key -> bool)
    requires forall k :: k in keys <==> k in stored
    requires forall k :: k in stored && stop(k) ==> !hit(k)
    ensures |Stream(Ahead(keys, |keys| - 1, false), hit, stop)| <= 1
    ensures StopsAreFinal(Ahead(keys, |keys| - 1, false), hit, stop)
  {
    if keys != [] {
      StreamStep(keys, |keys| - 1, false, hit, stop);
      var last := keys[|keys| - 1];
      assert last in keys;
    }
  }

  lemma SkipAll(few: seq<Key>, all: seq<Key>, offset: int)
    requires |few| <= 1 <= offset && |all| <= offset
    ensures Skip(few, offset) == [] == Skip(all, offset)
  {
  }

  method SkipAdditions(it: PatchTreeIterator, offset: int, value: AdditionValue)
    requires it.Valid() && value.Valid() && value.maxPatchId <= MAX
    requires it.InReach(value.maxPatchId, if offset > 0 then offset else 0)
    modifies it`cursorAdditions, value.patches, value.localChanges
    requires it.AdditionStopsAreFinal(value.maxPatchId)
    ensures it.Valid() && value.Valid() && it.AdditionStopsAreFinal(value.maxPatchId)
    ensures it.RestAdditions(value.maxPatchId) == Skip(old(it.RestAdditions(value.maxPatchId)), offset)
    ensures forall n: nat ::
      it.InReach(value.maxPatchId, n) <==> old(it.InReach(value.maxPatchId, if offset > 0 then offset + n else n))
  {
    hide AdditionHit, AdditionReadable, StopAt, StopsAreFinal, Stream, Ahead, Skip, WalksSafely, Unbegun;
    SkipNothing(it.RestAdditions(value.maxPatchId), offset);
    var left := offset;
    var more := true;
    ghost var rest := it.RestAdditions(value.maxPatchId);
    while left > 0 && more
      invariant it.Valid() && value.Valid() && it.filters == old(it.filters) && it.reverse == old(it.reverse)
      invariant it.AdditionStopsAreFinal(value.maxPatchId)
      invariant if offset > 0 then 0 <= left <= offset else left == offset
      invariant it.RestAdditions(value.maxPatchId) == Skip(rest, offset - left)
      invariant it.InReach(value.maxPatchId, if left > 0 then left else 0)
      invariant forall n: nat :: offset - left <= n ==>
                  (old(it.InReach(value.maxPatchId, n)) <==> it.InReach(value.maxPatchId, n - (offset - left)))
      invariant !more ==> 0 < offset && Skip(rest, offset - left) == []
      invariant !more ==> forall n: nat :: it.InReach(value.maxPatchId, n)
    {
      SkipMore(rest, offset - left);
      it.FewerInReach(value.maxPatchId, left, 1);
      var key;
      more, key := it.NextAddition(value);
      left := left - 1;
    }
    if !more { SkipStays(rest, offset - left, offset); }
  }

  /** `addition_count`: the stored count, or the length of the stream. Only the walk asks that no triple enters late. */
  method AdditionCount(s: Store, ghost c: Chain, keys: seq<Key>, v: int, pattern: Triple) returns (count: int)
    requires Queryable(s, c, v) && IsPattern(pattern) && Counts(s, c, pattern, v)
    requires IsIndex(keys, s.additions.Keys, QueryOrder(pattern), s.vocabulary)
    ensures count == |MatchesOf(Gained(c, v), s.vocabulary, pattern)|
  {
    hide Queryable, QueryOrder, Matches, MatchesOf, AdditionHit, AdditionReadable, StopAt, Compare,
         Additions, Gained, IsIndex, AdditionsBegun;
    count := Lookup(s.countAdditions, (v, pattern));
    StoredCount(s, c, pattern, v);
    if count == 0 {
      count := CountAdditions(s, c, keys, v, pattern);
    }
  }

  /** The additions of the version can be counted. */
  ghost predicate Counts(s: Store, c: Chain, pattern: Triple, v: int) {
    Lookup(s.countAdditions, (v, pattern)) == 0 ==> AdditionsBegun(c, s.vocabulary, pattern, v)
  }

  /** Counts the additions one by one. */
  method CountAdditions(s: Store, ghost c: Chain, keys: seq<Key>, v: int, pattern: Triple) returns (count: int)
    requires Queryable(s, c, v) && IsPattern(pattern)
    requires AdditionsBegun(c, s.vocabulary, pattern, v)
    requires IsIndex(keys, s.additions.Keys, QueryOrder(pattern), s.vocabulary)
    ensures count == |MatchesOf(Gained(c, v), s.vocabulary, pattern)|
  {
    hide Queryable, QueryOrder, Matches, MatchesOf, AdditionHit, AdditionReadable, StopAt, Compare,
         Additions, Gained, IsIndex, IsPattern, AdditionsBegun, BegunUpTo, EntersLate, Stream, Ahead, StopsAreFinal,
         Readable, WalksSafely, Unbegun;
    QueryableFacts(s, c, v);
    ghost var size := |MatchesOf(Gained(c, v), s.vocabulary, pattern)|;
    AllBegun(c, s.vocabulary, pattern, v, 0);
    AllBegun(c, s.vocabulary, pattern, v, size + 1);
    var it := AdditionIteratorFrom(s, c, keys, 0, v, pattern);
    SkipNothing(Additions(c, s.vocabulary, pattern, v), 0);
    assert Opens(s, c, keys, pattern, v, 0, size + 1);
    var value := new AdditionValue(s.maxPatchId);
    count := Drain(it, value);
  }

  lemma AllBegun(c: Chain, vocabulary: Key -> Triple, pattern: Triple, v: int, n: nat)
    requires AdditionsBegun(c, vocabulary, pattern, v)
    ensures BegunUpTo(c, vocabulary, pattern, v, n)
  {
    hide EntersLate, Matches;
  }

  lemma QueryableFacts(s: Store, c: Chain, v: int)
    requires Queryable(s, c, v)
    ensures s.maxPatchId + 1 < MAX && 0 < v <= s.maxPatchId
    ensures Dictionary(c.universe, s.vocabulary)
    ensures s.additions.Keys <= c.universe && s.deletions.Keys <= c.universe
  {
    hide ChainOk, Dictionary;
  }

  method Drain(it: PatchTreeIterator, value: AdditionValue) returns (count: int)
    requires it.Valid() && value.Valid() && value.maxPatchId <= MAX
    requires it.InReach(value.maxPatchId, |it.RestAdditions(value.maxPatchId)| + 1)
    modifies it`cursorAdditions, value.patches, value.localChanges
    ensures count == |old(it.RestAdditions(value.maxPatchId))|
  {
    hide AdditionHit, AdditionReadable, StopAt, Stream, Ahead, WalksSafely, Unbegun, StopsAreFinal;
    count := 0;
    var more := true;
    ghost var all := |it.RestAdditions(value.maxPatchId)|;
    while more
      invariant it.Valid() && value.Valid() && it.filters == old(it.filters) && it.reverse == old(it.reverse)
      invariant more ==> count + |it.RestAdditions(value.maxPatchId)| == all
      invariant more ==> it.InReach(value.maxPatchId, |it.RestAdditions(value.maxPatchId)| + 1)
      invariant !more ==> count == all
      decreases more, |it.RestAdditions(value.maxPatchId)|
    {
      ghost var rest := it.RestAdditions(value.maxPatchId);
      it.FewerInReach(value.maxPatchId, |rest| + 1, 1);
      var key;
      more, key := it.NextAddition(value);
      if more {
        count := count + 1;
      }
    }
  }
}
