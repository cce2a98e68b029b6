/** What the values of a chain show to the readers of one of its versions. */
module ChainReading {
  import opened OrderedKeys
  import opened Intervals
  import opened Positions
  import opened Values
  import opened DeletionValues
  import opened ChainHistory
  import opened Ingestion
  import opened Ranks
  import opened Triples
  import opened Dictionaries
  import opened TreeIndexes
  import opened PatchTreeIterators

  /** The runs of a stored entry have all begun before version `last + 1`, and can be read. */
  lemma EntryReadable(t: Trees, counts: map<(int, Triple), nat>, snapshot: set<Key>, history: seq<set<Key>>, min: int,
                      vocabulary: Key -> Triple, misranked: set<RankPlace>, k: Key)
    requires ChainOk(t, counts, snapshot, history, min, vocabulary, misranked) && 0 < min && min + |history| < MAX
    ensures EntryOk(t.EntryOf(k), k in snapshot, min + |history|)
    ensures k in t.deletions ==> Readable(t.deletions[k]) && t.deletions[k].patches != []
    ensures k in t.additions ==> AdditionReadable(t.additions[k]) && t.additions[k].patches != []
  {
    hide RanksTrue, CountsTrue, Represents;
    ChainReady(t, counts, snapshot, history, min, vocabulary, misranked);
    assert NodeReady(t, k, k in snapshot, min + |history|);
  }

  /** Whether a version is listed does not depend on how far the reader sees beyond it. */
  lemma ListedIffIn(iv: seq<Interval>, v: int, limit: int)
    requires WellFormed(iv, MAX) && v < limit <= MAX
    ensures PlaceOf(Ids(iv, MAX, limit), v) >= 0 <==> In(iv, v)
  {
    IdsCorrect(iv, MAX, limit);
  }

  /** A local deletion shows as one only to a reader for whom the value does not seem empty. */
  ghost predicate LocalVisible(d: DeletionData, v: int, limit: int) {
    In(d.patches, v) && In(d.localChanges, v) ==> SizeSeen(d, limit) != 0
  }

  /** The ranks of a version show only if its place is among those that seem to exist. */
  ghost predicate RanksVisible(d: DeletionData, v: int, limit: int) {
    In(d.patches, v) && d.localChanges == [] ==> PlaceOf(Ids(d.patches, MAX, limit), v) < SizeSeen(d, limit)
  }

  /** The deletions a walk at version `v` delivers: the matching triples of the snapshot that the version lacks. With
      local changes not all visible it delivers those too. */
  lemma DeletionHitMeaning(t: Trees, counts: map<(int, Triple), nat>, snapshot: set<Key>, history: seq<set<Key>>,
                           min: int, vocabulary: Key -> Triple, misranked: set<RankPlace>, f: Filters, limit: int,
                           k: Key)
    requires ChainOk(t, counts, snapshot, history, min, vocabulary, misranked) && 0 < min && min + |history| < MAX
    requires f.patchId.Some? && f.exact && f.dropLocal && min <= f.patchId.value < min + |history|
    requires f.patchId.value < limit <= MAX
    ensures var v := f.patchId.value;
      var lost := k in snapshot && k !in history[v - min];
      var unseen := k in t.deletions && !LocalVisible(t.deletions[k], v, limit);
      DeletionHit(t.deletions, vocabulary, f, limit)(k) <==> f.Selects(vocabulary(k)) && (lost || unseen)
  {
    hide RanksTrue, CountsTrue, Represents, Ids, Overrun, In, Steady, WellFormed, InOrder, Dictionary;
    var v := f.patchId.value;
    var e := t.EntryOf(k);
    EntryReadable(t, counts, snapshot, history, min, vocabulary, misranked, k);
    EntriesOfVersion(e, k, snapshot, history, min, v);
    ListedIffIn(e.del, v, limit);
    NothingIn();
  }

  lemma AdditionHitMeaning(t: Trees, counts: map<(int, Triple), nat>, snapshot: set<Key>, history: seq<set<Key>>,
                           min: int, vocabulary: Key -> Triple, misranked: set<RankPlace>, f: Filters, limit: int,
                           k: Key)
    requires ChainOk(t, counts, snapshot, history, min, vocabulary, misranked) && 0 < min && min + |history| < MAX
    requires f.patchId.Some? && f.exact && f.dropLocal && min <= f.patchId.value < min + |history|
    requires f.patchId.value < limit <= MAX
    ensures AdditionHit(t.additions, vocabulary, f, limit)(k) <==>
            f.Selects(vocabulary(k)) && k in history[f.patchId.value - min] && k !in snapshot
  {
    hide RanksTrue, CountsTrue, Represents, Ids, Overrun;
    var e := t.EntryOf(k);
    EntryReadable(t, counts, snapshot, history, min, vocabulary, misranked, k);
    EntriesOfVersion(e, k, snapshot, history, min, f.patchId.value);
    assert forall x :: !In([], x);
  }

  /** Nothing is hidden from a reader who knows of all versions. */
  lemma AllVisible(t: Trees, counts: map<(int, Triple), nat>, snapshot: set<Key>, history: seq<set<Key>>, min: int,
                   vocabulary: Key -> Triple, misranked: set<RankPlace>, k: Key, v: int)
    requires ChainOk(t, counts, snapshot, history, min, vocabulary, misranked) && 0 < min && min + |history| < MAX
    requires k in t.deletions && min <= v < min + |history|
    ensures var d, limit := t.deletions[k], min + |history|;
      && Overrun(d.patches, MAX, limit) == 0 && SizeSeen(d, limit) == |Ids(d.patches, MAX, limit)| > 0
      && LocalVisible(d, v, limit) && RanksVisible(d, v, limit)
  {
    hide RanksTrue, CountsTrue, Represents, Ids, Overrun, PlaceOf;
    var d, limit := t.deletions[k], min + |history|;
    EntryReadable(t, counts, snapshot, history, min, vocabulary, misranked, k);
    ListedEnds(d.patches, limit, limit);
    PlaceInList(Ids(d.patches, MAX, limit), v);
  }

  lemma PlaceInList(ids: seq<int>, v: int)
    ensures PlaceOf(ids, v) < |ids|
    ensures PlaceOf(ids, v) >= 0 ==> ids[PlaceOf(ids, v)] == v
  {
  }

  // ----- ranks and counts

  function GetByPattern(p: PatchPositions, pattern: Triple): int {
    if FieldOf(pattern) < 0 then 0 else p[FieldOf(pattern)]
  }

  ghost function MatchesBefore(s: set<Key>, k: Key, vocabulary: Key -> Triple, pattern: Triple): set<Key> {
    set j | j in s && j < k && Matches(vocabulary(j), pattern)
  }

  /** A rank is true if and only if it is the number of matching deletions before. */
  lemma RankIsPlace(deleted: set<Key>, universe: set<Key>, vocabulary: Key -> Triple, pattern: Triple, k: Key,
                    p: PatchPositions)
    requires Dictionary(universe, vocabulary) && deleted <= universe
    requires k in deleted && Matches(vocabulary(k), pattern)
    ensures GetByPattern(p, pattern) == |MatchesBefore(deleted, k, vocabulary, pattern)| <==>
            FieldOf(pattern) < 0 || RankTrue(deleted, k, vocabulary, p, FieldOf(pattern))
  {
    hide Above;
    var before, field := MatchesBefore(deleted, k, vocabulary, pattern), FieldOf(pattern);
    if field < 0 {
      forall j | j in before ensures false {
        SameTriple(universe, vocabulary, j, k, pattern);
      }
      assert before == {};
    } else {
      assert FieldPattern(field, vocabulary(k)) == pattern;
      assert Alike(deleted, k, vocabulary, field) == before;
    }
  }

  lemma SameTriple(universe: set<Key>, vocabulary: Key -> Triple, j: Key, k: Key, pattern: Triple)
    requires Dictionary(universe, vocabulary) && j in universe && k in universe && FieldOf(pattern) < 0
    requires Matches(vocabulary(j), pattern) && Matches(vocabulary(k), pattern)
    ensures j == k
  {
    assert vocabulary(j) == vocabulary(k);
    Antisymmetric(SPO, vocabulary(j), vocabulary(k));
    SpoKeys(universe, vocabulary, j, k);
    SpoKeys(universe, vocabulary, k, j);
  }

  /** One more than the rank of a matching deletion is their number exactly if it is the last one. */
  lemma LastRankCounts(deleted: set<Key>, vocabulary: Key -> Triple, pattern: Triple, k: Key)
    requires k in MatchesOf(deleted, vocabulary, pattern)
    ensures |MatchesOf(deleted, vocabulary, pattern)| == |MatchesBefore(deleted, k, vocabulary, pattern)| + 1 <==>
            forall j :: j in MatchesOf(deleted, vocabulary, pattern) ==> j <= k
  {
    hide Matches;
    var all, before := MatchesOf(deleted, vocabulary, pattern), MatchesBefore(deleted, k, vocabulary, pattern);
    if j :| j in all && j > k {
      assert all == (before + {k}) + (all - before - {k});
      assert j in all - before - {k};
    } else {
      assert all == before + {k};
    }
  }
}
