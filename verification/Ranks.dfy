/** What the ranks stored with a deletion and the counts kept of the additions mean. */
module Ranks {
  import opened OrderedKeys
  import opened Intervals
  import opened Positions
  import opened Values
  import opened ChainHistory
  import opened Ingestion
  import opened Triples

  // ----- versions

  ghost function Adds(patch: seq<PatchElement>): set<Key> {
    set i | 0 <= i < |patch| && patch[i].isAddition :: patch[i].key
  }

  ghost function Dels(patch: seq<PatchElement>): set<Key> {
    set i | 0 <= i < |patch| && !patch[i].isAddition :: patch[i].key
  }

  /** The next version. */
  ghost function ApplyPatch(previous: set<Key>, patch: seq<PatchElement>): set<Key> {
    previous - Dels(patch) + Adds(patch)
  }

  lemma PatchApplied(previous: set<Key>, patch: seq<PatchElement>, k: Key)
    requires PatchSorted(patch)
    ensures k in ApplyPatch(previous, patch) <==> Applied(Sign(patch, k), k in previous)
  {
    if k in Adds(patch) {
      var i :| 0 <= i < |patch| && patch[i].isAddition && patch[i].key == k;
      SignAt(patch, i);
    }
    if k in Dels(patch) {
      var i :| 0 <= i < |patch| && !patch[i].isAddition && patch[i].key == k;
      SignAt(patch, i);
    }
  }

  ghost function Latest(snapshot: set<Key>, history: seq<set<Key>>): set<Key> {
    if history == [] then snapshot else history[|history| - 1]
  }

  /** The four kinds of entries at a version of the chain: membership and the snapshot tell them apart. */
  lemma EntriesOfVersion(e: Entry, k: Key, snapshot: set<Key>, history: seq<set<Key>>, min: int, u: int)
    requires Represents(e, k, snapshot, history, min) && min <= u < min + |history| <= MAX
    ensures var here, now := k in snapshot, k in history[u - min];
      var touched := !Untouched(e) && Born(e, here) <= u;
      && (AddedToSnapshot(e, u) <==> now && !here)
      && (DeletedFromSnapshot(e, u) <==> !now && here)
      && (In(e.add, u) && In(e.addLocal, u) <==> touched && now && here)
      && (In(e.del, u) && In(e.delLocal, u) <==> touched && !now && !here)
      && !(In(e.add, u) && In(e.del, u))
  {
    assert forall x :: !In([], x);
    assert Member(k, u, snapshot, history, min) == (k in history[u - min]);
  }

  // ----- ranks

  /** The deletions before `k` that agree with it on the ids which the pattern of a field binds. */
  ghost function Alike(deleted: set<Key>, k: Key, vocabulary: Key -> Triple, field: int): set<Key> {
    set j | j in deleted && j < k && Matches(vocabulary(j), FieldPattern(field, vocabulary(k)))
  }

  const WHOLE := 6

  /** The rank in a field is the number of those. */
  ghost predicate RankTrue(deleted: set<Key>, k: Key, vocabulary: Key -> Triple, p: PatchPositions, field: int) {
    0 <= field < FIELDS ==> p[field] == |Alike(deleted, k, vocabulary, field)|
  }

  /** The deletions before `k` for which the counter was moved that is read for `k`. */
  ghost function CountedBefore(deleted: set<Key>, k: Key, counted: Key -> Triple, field: int): set<Key> {
    set j | j in deleted && j < k && Hash(field, counted(j)) == Hash(field, counted(k))
  }

  /** The counter that is read for `k` has been moved for as many deletions unlike `k` as it has not been moved for
      deletions alike. */
  ghost predicate EvenlyCounted(deleted: set<Key>, k: Key, counted: Key -> Triple, vocabulary: Key -> Triple,
                                field: int) {
    |CountedBefore(deleted, k, counted, field) - Alike(deleted, k, vocabulary, field)| ==
    |Alike(deleted, k, vocabulary, field) - CountedBefore(deleted, k, counted, field)|
  }

  lemma EvenIffEqual(deleted: set<Key>, k: Key, counted: Key -> Triple, vocabulary: Key -> Triple, field: int)
    ensures EvenlyCounted(deleted, k, counted, vocabulary, field) <==>
            |CountedBefore(deleted, k, counted, field)| == |Alike(deleted, k, vocabulary, field)|
  {
    hide Hash, Matches, FieldPattern;
    var a, b := CountedBefore(deleted, k, counted, field), Alike(deleted, k, vocabulary, field);
    assert a == (a - b) + (a * b) && b == (b - a) + (a * b);
  }

  ghost function Owners(log: seq<Counted>, field: int, h: nat): set<Key> {
    set i | 0 <= i < |log| && Hash(field, log[i].triple) == h :: log[i].owner
  }

  lemma OwnersSnoc(log: seq<Counted>, last: Counted, field: int, h: nat)
    ensures Owners(log + [last], field, h) ==
            Owners(log, field, h) + if Hash(field, last.triple) == h then {last.owner} else {}
  {
    hide Hash;
    var longer := log + [last];
    var before, after := Owners(log, field, h), Owners(longer, field, h);
    forall x ensures x in after <==> x in before || (x == last.owner && Hash(field, last.triple) == h) {
      if x in before {
        var i :| 0 <= i < |log| && log[i].owner == x && Hash(field, log[i].triple) == h;
        assert longer[i].owner == x;
      }
      if x in after {
        var i :| 0 <= i < |longer| && longer[i].owner == x && Hash(field, longer[i].triple) == h;
        if i < |log| { assert log[i].owner == x; }
      }
      if x == last.owner && Hash(field, last.triple) == h {
        assert longer[|log|].owner == x;
      }
    }
  }

  lemma {:induction false} TallyIsCount(log: seq<Counted>, field: int, h: nat)
    requires OwnersIncrease(log)
    ensures Tally(log, field, h) == |Owners(log, field, h)|
  {
    hide Hash;
    if log != [] {
      var shorter, last := log[..|log| - 1], log[|log| - 1];
      TallyIsCount(shorter, field, h);
      assert log == shorter + [last];
      OwnersSnoc(shorter, last, field, h);
      assert last.owner !in Owners(shorter, field, h);
    }
  }

  lemma OwnerBefore(log: seq<Counted>, j: nat, i: nat)
    requires OwnersIncrease(log) && i < |log| && j < |log| && log[j].owner < log[i].owner
    ensures j < i
  {
  }

  /** What a counter holds when it is read for a deletion is the number of earlier deletions that it was moved for. */
  lemma TallyIsRank(log: seq<Counted>, deleted: set<Key>, counted: Key -> Triple, field: int, i: nat)
    requires OwnersIncrease(log) && i < |log|
    requires forall k :: Owns(log, k) <==> k in deleted
    requires forall j :: 0 <= j < |log| ==> log[j].triple == counted(log[j].owner)
    ensures Tally(log[..i], field, Hash(field, log[i].triple)) == |CountedBefore(deleted, log[i].owner, counted, field)|
  {
    hide Hash;
    var prefix, k := log[..i], log[i].owner;
    var h := Hash(field, counted(k));
    TallyIsCount(prefix, field, h);
    forall x ensures x in Owners(prefix, field, h) <==> x in CountedBefore(deleted, k, counted, field) {
      if x in Owners(prefix, field, h) {
        var j :| 0 <= j < |prefix| && prefix[j].owner == x && Hash(field, prefix[j].triple) == h;
        assert log[j].owner == x;
      }
      if x in CountedBefore(deleted, k, counted, field) {
        assert Owns(log, x);
        var j :| 0 <= j < |log| && log[j].owner == x;
        OwnerBefore(log, j, i);
        assert prefix[j].owner == x;
      }
    }
    assert Owners(prefix, field, h) == CountedBefore(deleted, k, counted, field);
  }

  lemma RanksForAt(log: seq<Counted>, t: Triple, g: int)
    requires 0 <= g < FIELDS
    ensures RanksFor(log, t)[g] == Tally(log, g, Hash(g, t))
  {
    hide Hash, Tally;
  }

  /** After the calls of a whole run, a stored rank is right exactly if its counter was moved evenly. */
  lemma RunRanks(t: Trees, deleted: set<Key>, counted: Key -> Triple, vocabulary: Key -> Triple, v: int, k: Key, g: int)
    requires OwnersIncrease(t.ranked) && RanksStored(t, v)
    requires forall j :: Owns(t.ranked, j) <==> j in deleted
    requires forall i :: 0 <= i < |t.ranked| ==> t.ranked[i].triple == counted(t.ranked[i].owner)
    requires k in deleted && 0 <= g < FIELDS
    ensures RankTrue(deleted, k, vocabulary, RanksAt(t.RanksOf(k), v), g) <==>
            EvenlyCounted(deleted, k, counted, vocabulary, g)
  {
    hide Hash, Tally, RanksFor, RanksAt, OwnersIncrease, Alike, CountedBefore, EvenlyCounted;
    assert Owns(t.ranked, k);
    var i :| 0 <= i < |t.ranked| && t.ranked[i].owner == k;
    assert RanksAt(t.RanksOf(k), v) == RanksFor(t.ranked[..i], t.ranked[i].triple);
    TallyIsRank(t.ranked, deleted, counted, g, i);
    RanksForAt(t.ranked[..i], t.ranked[i].triple, g);
    EvenIffEqual(deleted, k, counted, vocabulary, g);
  }

  /** The place of a rank: a version, a field and the deletion it is stored with. */
  datatype RankPlace = RankPlace(version: int, field: int, key: Key)

  /** The rank stored there for a deletion of that version is wrong. */
  ghost predicate WrongRank(t: Trees, snapshot: set<Key>, history: seq<set<Key>>, min: int, vocabulary: Key -> Triple,
                            r: RankPlace) {
    && min <= r.version < min + |history| && 0 <= r.field < FIELDS && r.key in snapshot - history[r.version - min]
    && !RankTrue(snapshot - history[r.version - min], r.key, vocabulary, RanksAt(t.RanksOf(r.key), r.version), r.field)
  }

  /** The ranks stored for a deletion, wrong or not, are numbers of deletions. */
  ghost predicate RanksNatural(t: Trees, k: Key, v: int) {
    forall g :: 0 <= g < FIELDS ==> RanksAt(t.RanksOf(k), v)[g] >= 0
  }

  /** The stored ranks of a chain: `misranked` are exactly the places of wrong ones, and the rank over all triples is
      never wrong. */
  ghost predicate RanksTrue(t: Trees, snapshot: set<Key>, history: seq<set<Key>>, min: int,
                            vocabulary: Key -> Triple, misranked: set<RankPlace>) {
    && (forall r :: (r in misranked <==> WrongRank(t, snapshot, history, min, vocabulary, r)) &&
                    (r in misranked ==> r.field != WHOLE))
    && (forall k, v :: min <= v < min + |history| && k in snapshot - history[v - min] ==> RanksNatural(t, k, v))
  }

  /** Ingesting the patch leaves a wrong rank in the field: for some deletion the counter has not been moved evenly. */
  ghost predicate Misranks(t0: Trees, snapshot: set<Key>, patch: seq<PatchElement>, vocabulary: Key -> Triple,
                           next: set<Key>, field: int) {
    exists k :: k in snapshot - next &&
      !EvenlyCounted(snapshot - next, k, CountedFor(t0, patch, vocabulary), vocabulary, field)
  }

  /** The places of wrong ranks, after version `v`. */
  ghost function RemarkedRanks(misranked: set<RankPlace>, t0: Trees, snapshot: set<Key>, patch: seq<PatchElement>,
                               v: int, vocabulary: Key -> Triple, next: set<Key>): set<RankPlace> {
    var counted := CountedFor(t0, patch, vocabulary);
    misranked +
    set k, g | k in snapshot - next && 0 <= g < FIELDS && !EvenlyCounted(snapshot - next, k, counted, vocabulary, g) ::
      RankPlace(v, g, k)
  }

  lemma Remarked(misranked: set<RankPlace>, t0: Trees, snapshot: set<Key>, patch: seq<PatchElement>, v: int,
                 vocabulary: Key -> Triple, next: set<Key>, r: RankPlace)
    ensures r in RemarkedRanks(misranked, t0, snapshot, patch, v, vocabulary, next) <==>
      || r in misranked
      || (r.version == v && 0 <= r.field < FIELDS && r.key in snapshot - next &&
          !EvenlyCounted(snapshot - next, r.key, CountedFor(t0, patch, vocabulary), vocabulary, r.field))
  {
    hide EvenlyCounted, CountedFor;
    assert r == RankPlace(r.version, r.field, r.key);
  }

  /** All triples share the one counter of the pattern that matches everything. */
  lemma WholeEven(deleted: set<Key>, k: Key, counted: Key -> Triple, vocabulary: Key -> Triple)
    ensures EvenlyCounted(deleted, k, counted, vocabulary, WHOLE)
  {
    assert CountedBefore(deleted, k, counted, WHOLE) == Alike(deleted, k, vocabulary, WHOLE);
  }

  lemma RanksTrueStep(t0: Trees, t: Trees, snapshot: set<Key>, history: seq<set<Key>>, min: int,
                      vocabulary: Key -> Triple, misranked: set<RankPlace>, patch: seq<PatchElement>, next: set<Key>,
                      f: Key)
    requires RanksTrue(t0, snapshot, history, min, vocabulary, misranked)
    requires RanksDone(t0, t, patch, min + |history|, vocabulary, f)
    requires forall k, w :: w < min + |history| ==> RanksAt(t.RanksOf(k), w) == RanksAt(t0.RanksOf(k), w)
    requires forall k :: Owns(t.ranked, k) <==> k in snapshot - next
    ensures RanksTrue(t, snapshot, history + [next], min, vocabulary,
                      RemarkedRanks(misranked, t0, snapshot, patch, min + |history|, vocabulary, next))
  {
    hide RankTrue, RanksAt, Owns, RanksStored, OwnersIncrease, Hash, Stale, RemarkedRanks, EvenlyCounted, CountedFor,
         HeadPlace;
    var v, longer, counted := min + |history|, history + [next], CountedFor(t0, patch, vocabulary);
    forall r
      ensures r in RemarkedRanks(misranked, t0, snapshot, patch, v, vocabulary, next) <==>
              WrongRank(t, snapshot, longer, min, vocabulary, r)
      ensures r in RemarkedRanks(misranked, t0, snapshot, patch, v, vocabulary, next) ==> r.field != WHOLE {
      Remarked(misranked, t0, snapshot, patch, v, vocabulary, next, r);
      if r.version < v {
        assert min <= r.version ==> longer[r.version - min] == history[r.version - min];
        assert r in misranked <==> WrongRank(t0, snapshot, history, min, vocabulary, r);
      } else if r.version == v && 0 <= r.field < FIELDS && r.key in snapshot - next {
        RunRanks(t, snapshot - next, counted, vocabulary, v, r.key, r.field);
        WholeEven(snapshot - next, r.key, counted, vocabulary);
      }
    }
    forall k, u | min <= u < min + |longer| && k in snapshot - longer[u - min] ensures RanksNatural(t, k, u) {
      if u < v {
        assert longer[u - min] == history[u - min] && RanksNatural(t0, k, u);
      } else {
        CountedRanks(t, k, v);
      }
    }
  }

  /** What the counters say is not negative. */
  lemma CountedRanks(t: Trees, k: Key, v: int)
    requires RanksStored(t, v) && Owns(t.ranked, k)
    ensures RanksNatural(t, k, v)
  {
    hide RanksAt, Tally, Hash;
    var i :| 0 <= i < |t.ranked| && t.ranked[i].owner == k;
    assert RanksAt(t.RanksOf(k), v) == RanksFor(t.ranked[..i], t.ranked[i].triple);
  }

  // ----- when ranks are right

  /** All ids can be packed into rank counters without loss. */
  ghost predicate AllPackable(keys: set<Key>, vocabulary: Key -> Triple) {
    forall k :: k in keys ==> Packable(vocabulary(k)) && IsReal(vocabulary(k))
  }

  /** With ids that can be packed, and its own triple counted for every deletion, all ranks are right. */
  lemma OwnTriplesRankRight(t0: Trees, snapshot: set<Key>, patch: seq<PatchElement>, vocabulary: Key -> Triple,
                            next: set<Key>, field: int)
    requires AllPackable(snapshot - next, vocabulary) && 0 <= field < FIELDS
    requires forall k :: k in snapshot - next ==> !Stale(t0, patch, k)
    ensures !Misranks(t0, snapshot, patch, vocabulary, next, field)
  {
    hide Stale, Hash, FieldPattern, Packable, HeadPlace;
    var deleted, counted := snapshot - next, CountedFor(t0, patch, vocabulary);
    forall k | k in deleted ensures EvenlyCounted(deleted, k, counted, vocabulary, field) {
      forall j | j in deleted
        ensures j in CountedBefore(deleted, k, counted, field) <==> j in Alike(deleted, k, vocabulary, field) {
        SameCounterIffSamePattern(field, vocabulary(j), vocabulary(k));
      }
      assert CountedBefore(deleted, k, counted, field) == Alike(deleted, k, vocabulary, field);
    }
  }

  /** With a single foreign triple counted, for the deletion of `x`, the ranks of a field are right exactly if it
      reads a counter as high as its own, and is counted for a later deletion exactly if `x` should be. */
  lemma OneStaleRanksRight(t0: Trees, snapshot: set<Key>, patch: seq<PatchElement>, vocabulary: Key -> Triple,
                           next: set<Key>, field: int, x: Key)
    requires AllPackable(snapshot - next, vocabulary) && 0 <= field < FIELDS && x in snapshot - next
    requires forall k :: k in snapshot - next && k != x ==> !Stale(t0, patch, k)
    ensures var deleted, counted := snapshot - next, CountedFor(t0, patch, vocabulary);
      !Misranks(t0, snapshot, patch, vocabulary, next, field) <==>
      && |CountedBefore(deleted, x, counted, field)| == |Alike(deleted, x, vocabulary, field)|
      && forall k :: k in deleted && x < k ==>
           (Hash(field, counted(x)) == Hash(field, vocabulary(k)) <==>
            Hash(field, vocabulary(x)) == Hash(field, vocabulary(k)))
  {
    hide Stale, Hash, FieldPattern, Packable, HeadPlace, EvenlyCounted, CountedBefore, Alike;
    var deleted, counted := snapshot - next, CountedFor(t0, patch, vocabulary);
    EvenIffEqual(deleted, x, counted, vocabulary, field);
    forall k | k in deleted && k != x
      ensures EvenlyCounted(deleted, k, counted, vocabulary, field) <==>
        (x < k ==> (Hash(field, counted(x)) == Hash(field, vocabulary(k)) <==>
                    Hash(field, vocabulary(x)) == Hash(field, vocabulary(k)))) {
      OneStale(deleted, counted, vocabulary, field, x, k);
    }
  }

  lemma OneStale(deleted: set<Key>, counted: Key -> Triple, vocabulary: Key -> Triple, field: int, x: Key, k: Key)
    requires AllPackable(deleted, vocabulary) && 0 <= field < FIELDS && x in deleted && k in deleted && k != x
    requires forall j :: j in deleted && j != x ==> counted(j) == vocabulary(j)
    ensures EvenlyCounted(deleted, k, counted, vocabulary, field) <==>
      (x < k ==> (Hash(field, counted(x)) == Hash(field, vocabulary(k)) <==>
                  Hash(field, vocabulary(x)) == Hash(field, vocabulary(k))))
  {
    hide Hash, FieldPattern, Packable, Matches;
    var a, b := CountedBefore(deleted, k, counted, field), Alike(deleted, k, vocabulary, field);
    forall j | j in deleted && j != x ensures j in a <==> j in b {
      SameCounterIffSamePattern(field, vocabulary(j), vocabulary(k));
    }
    SameCounterIffSamePattern(field, vocabulary(x), vocabulary(k));
    assert a - b == if x in a && x !in b then {x} else {};
    assert b - a == if x in b && x !in a then {x} else {};
  }

  // ----- addition counts

  function CountMatching(s: seq<Key>, vocabulary: Key -> Triple, pattern: Triple): nat {
    if s == [] then 0
    else CountMatching(s[..|s| - 1], vocabulary, pattern) + if Matches(vocabulary(s[|s| - 1]), pattern) then 1 else 0
  }

  function MatchesOf(s: set<Key>, vocabulary: Key -> Triple, pattern: Triple): set<Key> {
    set k | k in s && Matches(vocabulary(k), pattern)
  }

  lemma {:induction false} CountIsCardinality(s: seq<Key>, keys: set<Key>, vocabulary: Key -> Triple, pattern: Triple)
    requires Increasing(s) && forall k :: k in s <==> k in keys
    ensures CountMatching(s, vocabulary, pattern) == |MatchesOf(keys, vocabulary, pattern)|
  {
    hide Matches;
    if s == [] {
      assert forall k :: k in MatchesOf(keys, vocabulary, pattern) ==> k in s;
      assert MatchesOf(keys, vocabulary, pattern) == {};
    } else {
      var shorter, last := s[..|s| - 1], s[|s| - 1];
      assert last in keys by { assert last in s; }
      forall k ensures k in shorter <==> k in keys - {last} {
        if k in keys - {last} { assert k in s && s == shorter + [last]; }
        if k in shorter { assert k in s; }
      }
      CountIsCardinality(shorter, keys - {last}, vocabulary, pattern);
      hide CountMatching, Increasing;
      var before, after := MatchesOf(keys - {last}, vocabulary, pattern), MatchesOf(keys, vocabulary, pattern);
      assert forall k :: k in after <==> k in before || (k == last && Matches(vocabulary(last), pattern));
      assert last !in before;
      assert after == if Matches(vocabulary(last), pattern) then before + {last} else before;
    }
  }

  const MIN_ADDITION_COUNT := 100

  /** The triples outside the snapshot that ever come into the chain. */
  ghost function Entered(snapshot: set<Key>, history: seq<set<Key>>): set<Key> {
    (set i, k | 0 <= i < |history| && k in history[i] :: k) - snapshot
  }

  /** A count for all versions: the number of matching triples that had come in by some version. */
  ghost predicate EverCounted(n: nat, snapshot: set<Key>, history: seq<set<Key>>, vocabulary: Key -> Triple,
                              pattern: Triple) {
    n >= MIN_ADDITION_COUNT &&
    exists j :: 0 < j <= |history| && n == |MatchesOf(Entered(snapshot, history[..j]), vocabulary, pattern)|
  }

  /** Every stored count is that of the matching additions to the snapshot in its version, or under version 0 that of
      the matching triples that had come in when it was stored. */
  ghost predicate CountsTrue(counts: map<(int, Triple), nat>, snapshot: set<Key>, history: seq<set<Key>>, min: int,
                             vocabulary: Key -> Triple) {
    && (forall key :: key in counts ==> FieldOf(key.1) >= 0 && (key.0 == 0 || min <= key.0))
    && (forall pattern :: FieldOf(pattern) >= 0 && (0, pattern) in counts ==>
          EverCounted(counts[(0, pattern)], snapshot, history, vocabulary, pattern))
    && (forall u, pattern :: min <= u && FieldOf(pattern) >= 0 && (u, pattern) in counts ==>
          && u < min + |history|
          && counts[(u, pattern)] ==
             |MatchesOf(history[u - min] - snapshot, vocabulary, pattern)| >= MIN_ADDITION_COUNT)
  }

  // ----- a chain

  ghost predicate AllRanksOk(t: Trees, v: int) {
    forall k :: RanksOk(t, k, v)
  }

  /** What every version of a chain keeps: the entries say which version holds which triple, and the stored ranks and
      counts are true. */
  ghost predicate ChainOk(t: Trees, counts: map<(int, Triple), nat>, snapshot: set<Key>, history: seq<set<Key>>,
                          min: int, vocabulary: Key -> Triple, misranked: set<RankPlace>) {
    && (forall k :: Represents(t.EntryOf(k), k, snapshot, history, min))
    && t.NoEmptyNodes()
    && AllRanksOk(t, min + |history| - 1)
    && RanksTrue(t, snapshot, history, min, vocabulary, misranked)
    && CountsTrue(counts, snapshot, history, min, vocabulary)
  }

  /** The counts taken while ingesting version `v`: of the additions counted for it and of those counted for all. */
  ghost predicate TempCountsTrue(temp: map<(int, Triple), nat>, added: seq<Key>, ever: seq<Key>, v: int,
                                 vocabulary: Key -> Triple) {
    && (forall key :: key in temp ==> (key.0 == v || key.0 == 0) && FieldOf(key.1) >= 0 && temp[key] > 0)
    && (forall pattern :: FieldOf(pattern) >= 0 ==>
          && Lookup(temp, (v, pattern)) == CountMatching(added, vocabulary, pattern)
          && Lookup(temp, (0, pattern)) == CountMatching(ever, vocabulary, pattern))
  }

  /** What a flush does to the counts: those taken that reach the threshold are stored, except for the one record that
      is skipped, and all others stay as they were. */
  ghost predicate Flushed(counts0: map<(int, Triple), nat>, temp: map<(int, Triple), nat>,
                          counts: map<(int, Triple), nat>, skipped: set<(int, Triple)>) {
    && skipped <= temp.Keys && |skipped| == (if temp == map[] then 0 else 1)
    && forall key :: Rewritten(counts0, counts, key, Lookup(temp, key), key !in skipped)
  }

  /** A count is stored exactly if it may be and reaches the threshold; otherwise what is stored stays. */
  ghost predicate Rewritten(counts0: map<(int, Triple), nat>, counts: map<(int, Triple), nat>, key: (int, Triple),
                            n: nat, may: bool) {
    if may && n >= MIN_ADDITION_COUNT then key in counts && counts[key] == n
    else (key in counts <==> key in counts0) && (key in counts ==> counts[key] == counts0[key])
  }

  /** Counts are taken under version `v` and under 0. */
  ghost predicate CountedUnder(key: (int, Triple), v: int) {
    (key.0 == v || key.0 == 0) && FieldOf(key.1) >= 0
  }

  /** What is counted under a key: the matching additions of the last version, or all that ever came in. */
  ghost function NumberOf(snapshot: set<Key>, history: seq<set<Key>>, vocabulary: Key -> Triple,
                          key: (int, Triple)): nat
  {
    |MatchesOf(if key.0 == 0 then Entered(snapshot, history) else Latest(snapshot, history) - snapshot, vocabulary,
               key.1)|
  }

  /** What the last version, `v`, has stored: under `v` the number of its matching additions, under 0 the number of all
      matching triples that ever came in, each exactly if it reaches the threshold, with one record at most skipped. */
  ghost predicate CountsStored(counts0: map<(int, Triple), nat>, counts: map<(int, Triple), nat>,
                               skipped: set<(int, Triple)>, snapshot: set<Key>, history: seq<set<Key>>, v: int,
                               vocabulary: Key -> Triple) {
    && |skipped| <= 1
    && (forall key :: key in skipped ==> CountedUnder(key, v) && NumberOf(snapshot, history, vocabulary, key) > 0)
    && (forall key :: CountedUnder(key, v) && NumberOf(snapshot, history, vocabulary, key) > 0 ==> |skipped| == 1)
    && forall key :: Rewritten(counts0, counts, key, NumberOf(snapshot, history, vocabulary, key),
                               CountedUnder(key, v) && key !in skipped)
  }

  /** What is counted under a key is the number of the triples it stands for. */
  lemma TakenIsNumber(temp: map<(int, Triple), nat>, added: seq<Key>, ever: seq<Key>, snapshot: set<Key>,
                      history: seq<set<Key>>, v: int, vocabulary: Key -> Triple, key: (int, Triple))
    requires TempCountsTrue(temp, added, ever, v, vocabulary) && v != 0
    requires Increasing(added) && forall k :: k in added <==> k in Latest(snapshot, history) - snapshot
    requires Increasing(ever) && forall k :: k in ever <==> k in Entered(snapshot, history)
    ensures if CountedUnder(key, v) then Lookup(temp, key) == NumberOf(snapshot, history, vocabulary, key)
            else key !in temp
  {
    hide FieldOf, MatchesOf, Increasing, CountMatching, Entered, Latest;
    if CountedUnder(key, v) {
      var pattern := key.1;
      assert key == (key.0, pattern);
      CountIsCardinality(added, Latest(snapshot, history) - snapshot, vocabulary, pattern);
      CountIsCardinality(ever, Entered(snapshot, history), vocabulary, pattern);
    }
  }

  /** After a flush the counts stored are those of the version and of all that ever came in. */
  lemma StoredAfterFlush(counts0: map<(int, Triple), nat>, temp: map<(int, Triple), nat>,
                         counts: map<(int, Triple), nat>, skipped: set<(int, Triple)>, added: seq<Key>, ever: seq<Key>,
                         snapshot: set<Key>, history: seq<set<Key>>, v: int, vocabulary: Key -> Triple)
    requires TempCountsTrue(temp, added, ever, v, vocabulary) && Flushed(counts0, temp, counts, skipped) && v != 0
    requires Increasing(added) && forall k :: k in added <==> k in Latest(snapshot, history) - snapshot
    requires Increasing(ever) && forall k :: k in ever <==> k in Entered(snapshot, history)
    ensures CountsStored(counts0, counts, skipped, snapshot, history, v, vocabulary)
  {
    hide Increasing, CountMatching, Entered, Latest, NumberOf, CountedUnder, Rewritten;
    forall key ensures if CountedUnder(key, v) then Lookup(temp, key) == NumberOf(snapshot, history, vocabulary, key)
                       else key !in temp {
      TakenIsNumber(temp, added, ever, snapshot, history, v, vocabulary, key);
    }
    forall key ensures Rewritten(counts0, counts, key, NumberOf(snapshot, history, vocabulary, key),
                                 CountedUnder(key, v) && key !in skipped) {
      RewrittenAlike(counts0, counts, key, Lookup(temp, key), key !in skipped,
                     NumberOf(snapshot, history, vocabulary, key), CountedUnder(key, v) && key !in skipped);
    }
  }

  lemma RewrittenAlike(counts0: map<(int, Triple), nat>, counts: map<(int, Triple), nat>, key: (int, Triple),
                       n: nat, may: bool, n': nat, may': bool)
    requires Rewritten(counts0, counts, key, n, may)
    requires if may' then may && n == n' else !may || n == 0
    ensures Rewritten(counts0, counts, key, n', may')
  {
  }

  lemma CountsTrueStep(counts0: map<(int, Triple), nat>, counts: map<(int, Triple), nat>,
                       skipped: set<(int, Triple)>, snapshot: set<Key>, history: seq<set<Key>>, min: int,
                       vocabulary: Key -> Triple, next: set<Key>)
    requires CountsTrue(counts0, snapshot, history, min, vocabulary) && 0 < min
    requires CountsStored(counts0, counts, skipped, snapshot, history + [next], min + |history|, vocabulary)
    ensures CountsTrue(counts, snapshot, history + [next], min, vocabulary)
  {
    hide FieldOf, MatchesOf, Entered, EverCounted;
    var v, longer := min + |history|, history + [next];
    forall key | key in counts ensures FieldOf(key.1) >= 0 && (key.0 == 0 || min <= key.0) {
      assert Rewritten(counts0, counts, key, NumberOf(snapshot, longer, vocabulary, key),
                       CountedUnder(key, v) && key !in skipped);
    }
    forall u, pattern | min <= u && FieldOf(pattern) >= 0 && (u, pattern) in counts
      ensures u <= v
      ensures counts[(u, pattern)] ==
              |MatchesOf(longer[u - min] - snapshot, vocabulary, pattern)| >= MIN_ADDITION_COUNT {
      var key := (u, pattern);
      assert Rewritten(counts0, counts, key, NumberOf(snapshot, longer, vocabulary, key),
                       CountedUnder(key, v) && key !in skipped);
      if u < v { assert longer[u - min] == history[u - min]; }
    }
    forall pattern | FieldOf(pattern) >= 0 && (0, pattern) in counts
      ensures EverCounted(counts[(0, pattern)], snapshot, longer, vocabulary, pattern) {
      var key := (0, pattern);
      assert Rewritten(counts0, counts, key, NumberOf(snapshot, longer, vocabulary, key),
                       CountedUnder(key, v) && key !in skipped);
      if key in counts0 { StillCounted(counts0[key], snapshot, history, vocabulary, pattern, next); }
      CountedNow(snapshot, longer, vocabulary, pattern);
    }
  }

  lemma StillCounted(n: nat, snapshot: set<Key>, history: seq<set<Key>>, vocabulary: Key -> Triple, pattern: Triple,
                     next: set<Key>)
    ensures EverCounted(n, snapshot, history, vocabulary, pattern) ==>
            EverCounted(n, snapshot, history + [next], vocabulary, pattern)
  {
    hide MatchesOf, Entered;
    if EverCounted(n, snapshot, history, vocabulary, pattern) {
      var j :| 0 < j <= |history| && n == |MatchesOf(Entered(snapshot, history[..j]), vocabulary, pattern)|;
      assert (history + [next])[..j] == history[..j];
    }
  }

  lemma CountedNow(snapshot: set<Key>, history: seq<set<Key>>, vocabulary: Key -> Triple, pattern: Triple)
    requires history != []
    ensures var n := |MatchesOf(Entered(snapshot, history), vocabulary, pattern)|;
      n >= MIN_ADDITION_COUNT ==> EverCounted(n, snapshot, history, vocabulary, pattern)
  {
    hide MatchesOf, Entered;
    assert history[..|history|] == history;
  }

  /** Ingesting a patch keeps the chain as it should be for exactly the admissible patches. */
  lemma ChainStep(t0: Trees, t: Trees, counts0: map<(int, Triple), nat>, temp: map<(int, Triple), nat>,
                  counts: map<(int, Triple), nat>, skipped: set<(int, Triple)>, snapshot: set<Key>,
                  history: seq<set<Key>>, min: int, vocabulary: Key -> Triple, misranked: set<RankPlace>,
                  patch: seq<PatchElement>, next: set<Key>, f: Key)
    requires ChainOk(t0, counts0, snapshot, history, min, vocabulary, misranked) && 0 < min && min + |history| < MAX
    requires PatchSorted(patch) && next == ApplyPatch(Latest(snapshot, history), patch)
    requires AtFrontier(t0, t, snapshot, patch, min + |history|, vocabulary, f, |patch|, None, None)
    requires TempCountsTrue(temp, t.added, t.ever, min + |history|, vocabulary) &&
             Flushed(counts0, temp, counts, skipped)
    ensures var v := min + |history|;
      var marked := RemarkedRanks(misranked, t0, snapshot, patch, v, vocabulary, next);
      ChainOk(t, counts, snapshot, history + [next], min, vocabulary, marked) <==>
      forall k :: Admissible(t0.EntryOf(k), Sign(patch, k), k in Latest(snapshot, history))
    ensures (forall k :: Admissible(t0.EntryOf(k), Sign(patch, k), k in Latest(snapshot, history))) ==>
            CountsStored(counts0, counts, skipped, snapshot, history + [next], min + |history|, vocabulary)
  {
    hide RanksTrue, CountsTrue, TempCountsTrue, RanksOk, KeyStep, Represents, Flushed, RemarkedRanks, Admissible,
         Sign, RanksAt, AddedToSnapshot, DeletedFromSnapshot, Owns, PatchSorted, RanksStored, OwnersIncrease,
         Increasing, EverAdded, Entered, CountsStored;
    RunDone(t0, t, snapshot, patch, min + |history|, vocabulary, f);
    EntriesStep(t0, t, snapshot, history, min, patch, next);
    if forall k :: Represents(t.EntryOf(k), k, snapshot, history + [next], min) {
      NextDifference(t, snapshot, history, min, next);
      RanksTrueStep(t0, t, snapshot, history, min, vocabulary, misranked, patch, next, f);
      StoredAfterFlush(counts0, temp, counts, skipped, t.added, t.ever, snapshot, history + [next], min + |history|,
                       vocabulary);
      CountsTrueStep(counts0, counts, skipped, snapshot, history, min, vocabulary, next);
    }
  }

  lemma EntriesStep(t0: Trees, t: Trees, snapshot: set<Key>, history: seq<set<Key>>, min: int,
                    patch: seq<PatchElement>, next: set<Key>)
    requires PatchSorted(patch) && next == ApplyPatch(Latest(snapshot, history), patch) && min + |history| < MAX
    requires forall k :: Represents(t0.EntryOf(k), k, snapshot, history, min)
    requires forall k :: KeyStep(t0.EntryOf(k), k in snapshot, Sign(patch, k), min + |history|, t.EntryOf(k))
    ensures (forall k :: Represents(t.EntryOf(k), k, snapshot, history + [next], min)) <==>
            (forall k :: Admissible(t0.EntryOf(k), Sign(patch, k), k in Latest(snapshot, history)))
  {
    hide Represents, Admissible, KeyStep, ApplyPatch, PatchSorted, Sign;
    forall k ensures Represents(t.EntryOf(k), k, snapshot, history + [next], min) <==>
                     Admissible(t0.EntryOf(k), Sign(patch, k), k in Latest(snapshot, history)) {
      PatchApplied(Latest(snapshot, history), patch, k);
      KeyStepRepresents(t0.EntryOf(k), k, snapshot, history, min, Sign(patch, k), t.EntryOf(k), next);
    }
  }

  lemma NextDifference(t: Trees, snapshot: set<Key>, history: seq<set<Key>>, min: int, next: set<Key>)
    requires min + |history| < MAX
    requires forall k :: Represents(t.EntryOf(k), k, snapshot, history + [next], min)
    ensures forall k :: AddedToSnapshot(t.EntryOf(k), min + |history|) <==> k in next - snapshot
    ensures forall k :: DeletedFromSnapshot(t.EntryOf(k), min + |history|) <==> k in snapshot - next
    ensures forall k :: EverAdded(t.EntryOf(k)) <==> k in Entered(snapshot, history + [next])
  {
    hide Represents, AddedToSnapshot, DeletedFromSnapshot, EverAdded, Entered;
    forall k ensures AddedToSnapshot(t.EntryOf(k), min + |history|) <==> k in next - snapshot
             ensures DeletedFromSnapshot(t.EntryOf(k), min + |history|) <==> k in snapshot - next
             ensures EverAdded(t.EntryOf(k)) <==> k in Entered(snapshot, history + [next]) {
      EntriesOfVersion(t.EntryOf(k), k, snapshot, history + [next], min, min + |history|);
      EverAddedMeans(t.EntryOf(k), k, snapshot, history + [next], min);
    }
  }

  /** The additions counted for all versions are the triples outside the snapshot that ever come in. */
  lemma EverAddedMeans(e: Entry, k: Key, snapshot: set<Key>, history: seq<set<Key>>, min: int)
    requires Represents(e, k, snapshot, history, min)
    ensures EverAdded(e) <==> k in Entered(snapshot, history)
  {
    hide WellFormed;
    var b := Born(e, k in snapshot);
    if k !in snapshot {
      if !Untouched(e) {
        assert Member(k, b, snapshot, history, min) == (k in history[b - min]);
      } else {
        forall i | 0 <= i < |history| ensures k !in history[i] {
          assert Member(k, min + i, snapshot, history, min) == (k in history[i]);
        }
      }
    }
  }

  /** The entries of a chain are what ingestion of the next version may assume. */
  lemma ChainReady(t: Trees, counts: map<(int, Triple), nat>, snapshot: set<Key>, history: seq<set<Key>>, min: int,
                   vocabulary: Key -> Triple, misranked: set<RankPlace>)
    requires ChainOk(t, counts, snapshot, history, min, vocabulary, misranked) && min + |history| < MAX
    ensures AllReady(t, snapshot, min + |history|)
    ensures history == [] ==> t.deletions == map[]
  {
    hide Represents, RanksOk, EntryOk, RanksTrue, CountsTrue;
    var v := min + |history|;
    forall k ensures NodeReady(t, k, k in snapshot, v) {
      RepresentsOk(t.EntryOf(k), k, snapshot, history, min);
      assert RanksOk(t, k, v - 1);
    }
    if history == [] {
      forall k ensures k !in t.deletions {
        EmptyChain(t.EntryOf(k), k, snapshot, min);
      }
    }
  }

  lemma EmptyChain(e: Entry, k: Key, snapshot: set<Key>, min: int)
    requires Represents(e, k, snapshot, [], min)
    ensures Untouched(e)
  {
  }

  lemma LogsDoNotMatter(t: Trees, u: Trees, counts: map<(int, Triple), nat>, snapshot: set<Key>,
                        history: seq<set<Key>>, min: int, vocabulary: Key -> Triple, misranked: set<RankPlace>)
    requires t.additions == u.additions && t.deletions == u.deletions
    ensures ChainOk(t, counts, snapshot, history, min, vocabulary, misranked) <==>
            ChainOk(u, counts, snapshot, history, min, vocabulary, misranked)
  {
    hide Represents, CountsTrue, RankTrue, RanksAt;
    assert forall k :: t.EntryOf(k) == u.EntryOf(k) && t.RanksOf(k) == u.RanksOf(k);
    assert forall k, v :: RanksOk(t, k, v) == RanksOk(u, k, v);
    assert forall k, v :: RanksNatural(t, k, v) == RanksNatural(u, k, v);
  }
}
