/** Version materialization with an offset: snapshot minus deletions, then additions, without counting from the
    start. */
module OffsetQueries {
  import opened OrderedKeys
  import opened Selection
  import opened Intervals
  import opened Positions
  import opened Values
  import opened AdditionValues
  import opened DeletionValues
  import opened Ranks
  import opened Triples
  import opened Dictionaries
  import opened TreeIndexes
  import opened PatchTreeIterators
  import opened ChainReading
  import opened VersionQueries
  import opened LaterDeletions

  // ----- offsets

  /** How many deletions come before a triple. */
  ghost function Before(deletions: set<Key>, k: Key): set<Key> {
    set d | d in deletions && d < k
  }

  ghost function Kept(deletions: set<Key>): Key -> bool {
    k => k !in deletions
  }

  ghost function AmongFirst(deletions: set<Key>, triples: seq<Key>): set<Key> {
    set d | d in deletions && d in triples
  }

  lemma AmongOneMore(deletions: set<Key>, first: Key, rest: seq<Key>)
    requires Increasing([first] + rest)
    ensures AmongFirst(deletions, [first] + rest) ==
            AmongFirst(deletions, rest) + if first in deletions then {first} else {}
    ensures first !in AmongFirst(deletions, rest)
  {
    var triples := [first] + rest;
    forall i | 0 <= i < |rest| ensures first < rest[i] {
      assert triples[0] < triples[i + 1];
    }
    assert forall d :: d in triples <==> d == first || d in rest;
  }

  /** Each snapshot triple survives or is deleted. */
  lemma {:induction false} SurvivorsAndDeletions(triples: seq<Key>, deletions: set<Key>)
    requires Increasing(triples)
    ensures |Select(triples, Kept(deletions))| + |AmongFirst(deletions, triples)| == |triples|
  {
    if triples != [] {
      var first, rest := triples[0], triples[1..];
      SurvivorsAndDeletions(rest, deletions);
      assert triples == [first] + rest;
      AmongOneMore(deletions, first, rest);
    } else {
      assert AmongFirst(deletions, triples) == {};
    }
  }

  lemma AllAmong(deletions: set<Key>, triples: seq<Key>)
    requires forall d :: d in deletions ==> d in triples
    ensures AmongFirst(deletions, triples) == deletions
  {
    assert forall d :: d in AmongFirst(deletions, triples) <==> d in deletions;
  }

  /** The deletions before the triple at place `p` are those among the first `p` triples. */
  lemma BeforeIsAmong(deletions: set<Key>, triples: seq<Key>, p: nat)
    requires Increasing(triples) && p < |triples| && forall d :: d in deletions ==> d in triples
    ensures Before(deletions, triples[p]) == AmongFirst(deletions, triples[..p])
  {
    forall d | d in deletions ensures d < triples[p] <==> d in triples[..p] {
      assert d in triples;
      var i :| 0 <= i < |triples| && triples[i] == d;
      if d < triples[p] { assert i < p; assert triples[..p][i] == d; }
      if d in triples[..p] { var j :| 0 <= j < p && triples[..p][j] == d; assert triples[j] == d; }
    }
  }

  /** A place with as many deletions before it as it lies past the offset: what follows is what survives from the offset
      on. */
  lemma FixpointSkips(triples: seq<Key>, deletions: set<Key>, offset: nat, added: nat)
    requires Increasing(triples) && forall d :: d in deletions ==> d in triples
    requires offset + added < |triples| && |Before(deletions, triples[offset + added])| == added
    ensures Select(triples[offset + added..], Kept(deletions)) == Skip(Select(triples, Kept(deletions)), offset)
    ensures offset <= |Select(triples, Kept(deletions))|
  {
    hide Select, Before, AmongFirst, Increasing, Skip, Kept;
    var p := offset + added;
    var before, after := triples[..p], triples[p..];
    assert triples == before + after;
    SelectConcat(before, after, Kept(deletions));
    BeforeIsAmong(deletions, triples, p);
    FrontIncreasing(triples, p);
    SurvivorsAndDeletions(before, deletions);
    SkipFront(Select(before, Kept(deletions)), Select(after, Kept(deletions)), offset);
  }

  lemma FrontIncreasing(triples: seq<Key>, p: nat)
    requires Increasing(triples) && p <= |triples|
    ensures Increasing(triples[..p])
  {
  }

  lemma SkipFront(front: seq<Key>, rest: seq<Key>, n: nat)
    requires |front| == n
    ensures Skip(front + rest, n) == rest && |front + rest| >= n
  {
  }

  lemma BeforeGrows(deletions: set<Key>, j: Key, k: Key)
    requires j <= k
    ensures |Before(deletions, j)| <= |Before(deletions, k)| <= |deletions|
  {
    SubsetSize(Before(deletions, j), Before(deletions, k));
    SubsetSize(Before(deletions, k), deletions);
  }

  /** The offset itself is too early a place to start at: a deletion comes before it, and something survives behind. */
  ghost predicate StartsEarly(triples: seq<Key>, lost: set<Key>, offset: nat) {
    offset < |triples| && |Before(lost, triples[offset])| > 0 &&
      exists p :: offset <= p < |triples| && triples[p] !in lost
  }

  /** With the snapshot exhausted, the offset reaches into the additions. */
  lemma PastSurvivors(triples: seq<Key>, deletions: set<Key>, additions: seq<Key>, offset: nat)
    requires Increasing(triples) && forall d :: d in deletions ==> d in triples
    ensures var kept := Select(triples, Kept(deletions));
      && |kept| == |triples| - |deletions|
      && (|kept| <= offset ==> Skip(kept + additions, offset) == Skip(additions, offset - |triples| + |deletions|))
      && (offset <= |kept| ==> Skip(kept + additions, offset) ==
                               Skip(kept, offset) + Skip(additions, offset - |triples| + |deletions|))
  {
    SurvivorsAndDeletions(triples, deletions);
    AllAmong(deletions, triples);
  }

  /** Starting at the offset as if no deletion came before delivers too much, if something survives behind. */
  lemma EarlyMisses(triples: seq<Key>, deletions: set<Key>, additions: seq<Key>, offset: nat)
    requires Increasing(triples) && (forall d :: d in deletions ==> d in triples) &&
             StartsEarly(triples, deletions, offset)
    ensures offset <= |triples|
    ensures Select(triples[offset..], Kept(deletions)) + Skip(additions, offset - |triples| + |deletions|) !=
            Skip(Select(triples, Kept(deletions)) + additions, offset)
  {
    hide Select, Before, Increasing, Skip, Kept, StartsEarly;
    StartsEarlyKeeps(triples, deletions, offset);
    PastSurvivors(triples, deletions, additions, offset);
    var kept, late := Select(triples, Kept(deletions)), Select(triples[offset..], Kept(deletions));
    var added := Skip(additions, offset - |triples| + |deletions|);
    SkippedLength(kept, offset);
    assert |late + added| != |Skip(kept, offset) + added| || |kept| < offset;
  }

  /** Then more survives from the place on than should be delivered of the snapshot. */
  lemma StartsEarlyKeeps(triples: seq<Key>, deletions: set<Key>, offset: nat)
    requires Increasing(triples) && (forall d :: d in deletions ==> d in triples) &&
             StartsEarly(triples, deletions, offset)
    ensures offset <= |triples|
    ensures var late := |Select(triples[offset..], Kept(deletions))|;
      late > 0 && late > |Select(triples, Kept(deletions))| - offset
  {
    hide Select, Before, AmongFirst, Increasing, Kept;
    var before, after := triples[..offset], triples[offset..];
    assert triples == before + after;
    SelectConcat(before, after, Kept(deletions));
    BeforeIsAmong(deletions, triples, offset);
    FrontIncreasing(triples, offset);
    SurvivorsAndDeletions(before, deletions);
    var p :| offset <= p < |triples| && triples[p] !in deletions;
    assert after[p - offset] == triples[p];
    SomeKept(after, deletions, p - offset);
  }

  lemma {:induction false} SomeKept(triples: seq<Key>, deletions: set<Key>, p: nat)
    requires p < |triples| && triples[p] !in deletions
    ensures |Select(triples, Kept(deletions))| > 0
  {
    if p > 0 { SomeKept(triples[1..], deletions, p - 1); }
  }

  lemma SkippedLength(all: seq<Key>, offset: nat)
    ensures offset <= |all| ==> |Skip(all, offset)| == |all| - offset
  {
  }

  // ----- deletions from a triple on

  /** The walk in SPO order comes across a deleted triple that does not match on the way to `k`, and breaks there. */
  ghost predicate Blocked(c: Chain, vocabulary: Key -> Triple, pattern: Triple, first: Key, k: Key) {
    exists n, u :: first <= n < k && Leaves(c, n, u) && !Matches(vocabulary(n), pattern)
  }

  /** The first triple that can be met from `first` on, if there is one, is a deletion of the version whose ranks
      show. Or the walk is blocked on the way to it; then no matching deletion lies behind, or none before `first`. */
  ghost predicate ShownFrom(c: Chain, vocabulary: Key -> Triple, pattern: Triple, v: int, first: Key) {
    forall k :: first <= k && Met(c, vocabulary, pattern, v, k) &&
                (forall j :: first <= j < k ==> !Met(c, vocabulary, pattern, v, j)) ==>
      if Blocked(c, vocabulary, pattern, first, k) then OneSided(MatchesOf(Lost(c, v), vocabulary, pattern), first)
      else Shows(c, k, v)
  }

  /** No value seems empty to a reader of the version, and no rank is hidden from it. */
  ghost predicate NothingHidden(c: Chain, v: int) {
    forall k :: !LocalHidden(c, k, v) && !LostAgain(c, k, v)
  }

  ghost predicate OneSided(lost: set<Key>, first: Key) {
    (forall j :: j in lost ==> j < first) || forall j :: j in lost ==> first <= j
  }

  /** The patterns of the SPO trees are never blocked. */
  lemma NeverBlocked(c: Chain, s: Store, pattern: Triple, v: int, first: Key, k: Key)
    requires Queryable(s, c, v) && IsPattern(pattern) && IsDefaultTree(pattern)
    requires first in c.universe && Matches(s.vocabulary(first), pattern) && k in c.universe &&
             Matches(s.vocabulary(k), pattern)
    ensures !Blocked(c, s.vocabulary, pattern, first, k)
  {
    hide Queryable, Matches, IsDefaultTree, Above, Leaves, IsReal, IsPattern;
    QueryableFacts(s, c, v);
    DefaultTreeIffContiguous(pattern);
    forall n, u | first <= n < k && Leaves(c, n, u) ensures Matches(s.vocabulary(n), pattern) {
      DeletionStored(s, c, v, n);
      if first < n {
        SpoKeys(c.universe, s.vocabulary, first, n);
        SpoKeys(c.universe, s.vocabulary, n, k);
        RealKeys(c.universe, s.vocabulary, first, n, k);
        assert Above(SPO, s.vocabulary(n), s.vocabulary(first)) && Above(SPO, s.vocabulary(k), s.vocabulary(n));
      }
    }
  }

  lemma RealKeys(universe: set<Key>, vocabulary: Key -> Triple, a: Key, b: Key, c: Key)
    requires Dictionary(universe, vocabulary) && a in universe && b in universe && c in universe
    ensures IsReal(vocabulary(a)) && IsReal(vocabulary(b)) && IsReal(vocabulary(c))
  {
  }

  /** So it is in every turn of the loop that looks for the offset, from a number of skipped deletions on. */
  ghost predicate ShownAlong(c: Chain, vocabulary: Key -> Triple, pattern: Triple, v: int, triples: seq<Key>,
                             offset: nat, added: nat)
    decreases |MatchesOf(Lost(c, v), vocabulary, pattern)| - added
  {
    offset + added < |triples| ==>
      var first, lost := triples[offset + added], MatchesOf(Lost(c, v), vocabulary, pattern);
      && ShownFrom(c, vocabulary, pattern, v, first)
      && (added < |Before(lost, first)| <= |lost| ==>
            ShownAlong(c, vocabulary, pattern, v, triples, offset, |Before(lost, first)|))
  }

  /** From the start on, the loop looks only behind the first of the snapshot's matches. */
  lemma OffsetZeroShown(c: Chain, vocabulary: Key -> Triple, pattern: Triple, v: int)
    ensures var triples := Sorted(MatchesOf(c.snapshot, vocabulary, pattern));
      ShownAlong(c, vocabulary, pattern, v, triples, 0, 0) <==>
      (triples != [] ==> ShownFrom(c, vocabulary, pattern, v, triples[0]))
  {
    hide ShownFrom, Matches, Content;
    var triples, lost := Sorted(MatchesOf(c.snapshot, vocabulary, pattern)), MatchesOf(Lost(c, v), vocabulary, pattern);
    if triples != [] {
      forall k | k in lost ensures triples[0] <= k {
        assert k in triples;
        var i :| 0 <= i < |triples| && triples[i] == k;
      }
      assert Before(lost, triples[0]) == {};
    }
  }

  /** At the last version of a chain nothing is hidden and nothing enters late. */
  lemma LatestShown(s: Store, c: Chain, pattern: Triple, triples: seq<Key>, offset: nat, added: nat)
    requires |c.history| > 0 && Queryable(s, c, c.min + |c.history| - 1) && IsPattern(pattern) && IsDefaultTree(pattern)
    requires IsSnapshotResult(triples, s, c, pattern)
    ensures ShownAlong(c, s.vocabulary, pattern, c.min + |c.history| - 1, triples, offset, added)
    decreases |MatchesOf(Lost(c, c.min + |c.history| - 1), s.vocabulary, pattern)| - added
  {
    hide Queryable, Matches, Content, ShownFrom, IsSnapshotResult, IsPattern, IsDefaultTree;
    var v := c.min + |c.history| - 1;
    if offset + added < |triples| {
      var first, lost := triples[offset + added], MatchesOf(Lost(c, v), s.vocabulary, pattern);
      SnapshotResult(triples, s, c, v, pattern);
      assert first in triples;
      LatestShownFrom(s, c, pattern, first);
      if added < |Before(lost, first)| <= |lost| {
        LatestShown(s, c, pattern, triples, offset, |Before(lost, first)|);
      }
    }
  }

  lemma LatestShownFrom(s: Store, c: Chain, pattern: Triple, first: Key)
    requires |c.history| > 0 && Queryable(s, c, c.min + |c.history| - 1) && IsPattern(pattern) && IsDefaultTree(pattern)
    requires first in c.universe && Matches(s.vocabulary(first), pattern)
    ensures ShownFrom(c, s.vocabulary, pattern, c.min + |c.history| - 1, first)
  {
    hide Queryable, Matches, IsPattern, IsDefaultTree, Blocked, Content;
    var v := c.min + |c.history| - 1;
    LatestHidesNothing(c);
    hide LocalHidden, LostAgain;
    forall k | Met(c, s.vocabulary, pattern, v, k) ensures !Blocked(c, s.vocabulary, pattern, first, k) {
      MetKnown(s, c, pattern, v, k);
      NeverBlocked(c, s, pattern, v, first, k);
    }
  }

  /** Nothing is hidden from a reader of the last version. */
  lemma LatestHidesNothing(c: Chain)
    requires |c.history| > 0
    ensures NothingHidden(c, c.min + |c.history| - 1)
  {
    var v := c.min + |c.history| - 1;
    forall k ensures !LocalHidden(c, k, v) && !LostAgain(c, k, v) { NothingLater(c, k); }
  }

  /** After the last version nothing comes. */
  lemma NothingLater(c: Chain, k: Key)
    requires |c.history| > 0
    ensures var v := c.min + |c.history| - 1; !LocalHidden(c, k, v) && !LostAgain(c, k, v) && !EntersLate(c, k, v)
  {
    hide Content;
    var v := c.min + |c.history| - 1;
    assert BackAfter(c, k, v) == {};
    assert v in GoneUpTo(c, k, v) ==> |GoneUpTo(c, k, v)| > 0;
  }

  lemma MetKnown(s: Store, c: Chain, pattern: Triple, v: int, k: Key)
    requires Queryable(s, c, v) && Met(c, s.vocabulary, pattern, v, k)
    ensures k in s.deletions && k in c.universe && Matches(s.vocabulary(k), pattern)
  {
    hide Queryable, LocalHidden, Lost;
    QueryableFacts(s, c, v);
    MetIff(s, c, pattern, v, k);
  }

  class PositionedTripleIterator {
    const it: PatchTreeIterator
    const patchId: int
    const pattern: Triple

    constructor (it: PatchTreeIterator, patchId: int, pattern: Triple)
      ensures this.it == it && this.patchId == patchId && this.pattern == pattern
    {
      this.it := it;
      this.patchId := patchId;
      this.pattern := pattern;
    }

    /** The next deletion can be asked for its ranks: they begin by the version that it answers for. */
    ghost predicate RanksFirst()
      reads it
    {
      var rest := it.RestDeletions(patchId + 1);
      rest != [] ==>
        rest[0] in it.deletions && var d := it.deletions[rest[0]]; BegunBy(d, VersionRead(d, patchId, patchId + 1))
    }

    /** The position is read from a value that knows of no version after the one asked for. */
    method Next(silentStep: bool, getPosition: bool) returns (found: bool, key: Key, position: int)
      requires it.Valid() && 0 < patchId < MAX
      requires getPosition ==> RanksFirst()
      modifies it`cursorDeletions
      ensures it.Valid()
      ensures var rest := old(it.RestDeletions(patchId + 1));
        if rest == [] then !found && it.RestDeletions(patchId + 1) == []
        else
          && found && key == rest[0] && key in it.deletions
          && it.RestDeletions(patchId + 1) == (if silentStep then rest else rest[1..])
          && (getPosition ==>
                position == GetByPattern(RanksAt(it.deletions[key].positions,
                                                 VersionRead(it.deletions[key], patchId, patchId + 1)), pattern))
    {
      hide DeletionHit, VersionRead, RanksAt, Stream, Ahead, StopAt, GetByPattern, BegunBy;
      var value := new DeletionValue(patchId);
      position := 0;
      found, key := it.NextDeletion(value, silentStep);
      if found && getPosition {
        var e := value.Get(patchId);
        position := GetByPattern(e.positions, pattern);
      }
    }
  }

  /** `deletion_iterator_from`, set to break early, always in the SPO tree. */
  method DeletionIteratorFrom(s: Store, ghost c: Chain, keys: seq<Key>, offset: Key, v: int, pattern: Triple)
    returns (r: PositionedTripleIterator)
    requires Queryable(s, c, v) && IsIndex(keys, s.deletions.Keys, SPO, s.vocabulary)
    requires offset in c.universe && Matches(s.vocabulary(offset), pattern)
    ensures fresh(r) && fresh(r.it) && Reading(r, s, keys, v, pattern)
    ensures FirstMet(r.it.RestDeletions(v + 1), c, s.vocabulary, pattern, v, offset)
  {
    hide Queryable, IsIndex, Matches, DeletionHit, StopAt, Stream, Ahead, Readable, Dictionary, FirstMet;
    var f := QueryFilters(pattern, v);
    var cursor := Jump(keys, SPO, s.vocabulary, s.vocabulary(offset));
    var it := new PatchTreeIterator(s.vocabulary, keys, s.deletions, [], map[], cursor, 0, f, false);
    AllReadable(s, c, v);
    IndexKeys(keys, s.deletions.Keys, SPO, s.vocabulary);
    r := new PositionedTripleIterator(it, v, pattern);
    FromOffset(s, c, keys, offset, v, pattern);
  }

  /** The walk begins with the first triple that can be met at or after `first`, if it is not blocked on the way
      there; if it finds none, there is none or it is blocked. */
  ghost predicate FirstMet(rest: seq<Key>, c: Chain, vocabulary: Key -> Triple, pattern: Triple, v: int, first: Key) {
    && (rest == [] ==> forall k :: Met(c, vocabulary, pattern, v, k) && first <= k ==>
        Blocked(c, vocabulary, pattern, first, k))
    && (rest != [] ==>
          && first <= rest[0] && Met(c, vocabulary, pattern, v, rest[0]) &&
             !Blocked(c, vocabulary, pattern, first, rest[0])
          && forall k :: Met(c, vocabulary, pattern, v, k) && first <= k ==> rest[0] <= k)
  }

  /** The iterator walks over the deletion tree of the store in SPO order, at version `v`. */
  ghost predicate Reading(r: PositionedTripleIterator, s: Store, keys: seq<Key>, v: int, pattern: Triple)
    reads r, r.it
  {
    && r.patchId == v && r.pattern == pattern && r.it.Valid() && !r.it.reverse
    && r.it.vocabulary == s.vocabulary && r.it.deletionKeys == keys && r.it.deletions == s.deletions
    && r.it.filters.patchId == Some(v) && r.it.filters.exact && r.it.filters.dropLocal && r.it.filters.earlyBreak
  }

  lemma AllReadable(s: Store, c: Chain, v: int)
    requires Queryable(s, c, v)
    ensures forall k :: k in s.deletions ==> Readable(s.deletions[k])
  {
    hide ChainOk, Readable, Dictionary;
    forall k | k in s.deletions ensures Readable(s.deletions[k]) { FullyRead(s, c, v, k); }
  }

  /** In the SPO tree, from a triple on, the walk delivers what it meets from there on, until it is blocked. */
  lemma FromOffset(s: Store, c: Chain, keys: seq<Key>, offset: Key, v: int, pattern: Triple)
    requires Queryable(s, c, v) && IsIndex(keys, s.deletions.Keys, SPO, s.vocabulary)
    requires offset in c.universe
    ensures var f, cursor := QueryFilters(pattern, v), Jump(keys, SPO, s.vocabulary, s.vocabulary(offset));
      var rest := Stream(Ahead(keys, cursor, false), DeletionHit(s.deletions, s.vocabulary, f, v + 1),
                         StopAt(s.vocabulary, f));
      FirstMet(rest, c, s.vocabulary, pattern, v, offset)
  {
    hide Queryable, Matches, Met, Shows, PlaceShown, DeletionHit, StopAt, Stream, Compare, IsReal, IsIndex, Leaves,
         Increasing, Jump, FirstMet;
    var f := QueryFilters(pattern, v);
    var hit, stop := DeletionHit(s.deletions, s.vocabulary, f, v + 1), StopAt(s.vocabulary, f);
    var cursor := Jump(keys, SPO, s.vocabulary, s.vocabulary(offset));
    var ahead := keys[cursor..];
    QueryableFacts(s, c, v);
    IndexKeys(keys, s.deletions.Keys, SPO, s.vocabulary);
    SplitAtOffset(keys, s.deletions.Keys, c.universe, s.vocabulary, offset, cursor);
    StreamFirst(ahead, hit, stop);
    forall k ensures hit(k) <==> Met(c, s.vocabulary, pattern, v, k)
             ensures hit(k) ==> k in keys && !stop(k)
             ensures stop(k) <==> !Matches(s.vocabulary(k), pattern)
             ensures k in keys <==> exists u :: Leaves(c, k, u) {
      WalkedKey(s, c, keys, pattern, v, k);
    }
    AheadIs(keys, cursor);
    MetOrBlocked(Stream(ahead, hit, stop), c, s.vocabulary, keys, ahead, hit, stop, pattern, v, offset);
  }

  lemma MetOrBlocked(rest: seq<Key>, c: Chain, vocabulary: Key -> Triple, keys: seq<Key>, ahead: seq<Key>,
                     hit: Key -> bool, stop: Key -> bool, pattern: Triple, v: int, first: Key)
    requires forall k :: k in keys ==> (k in ahead <==> first <= k)
    requires forall k :: k in ahead ==> k in keys
    requires rest == [] ==> forall k :: k in ahead && hit(k) ==> exists n :: n in ahead && n <= k && stop(n)
    requires rest != [] ==> rest[0] in ahead && hit(rest[0]) && (forall k :: k in ahead && hit(k) ==> rest[0] <= k)
    requires rest != [] ==> forall n :: n in ahead && n <= rest[0] ==> !stop(n)
    requires forall k :: hit(k) <==> Met(c, vocabulary, pattern, v, k)
    requires forall k :: hit(k) ==> k in keys && !stop(k)
    requires forall k :: stop(k) <==> !Matches(vocabulary(k), pattern)
    requires forall k :: k in keys <==> exists u :: Leaves(c, k, u)
    ensures FirstMet(rest, c, vocabulary, pattern, v, first)
  {
    hide Met, Matches, Leaves;
    forall k | rest == [] && Met(c, vocabulary, pattern, v, k) && first <= k
      ensures Blocked(c, vocabulary, pattern, first, k) {
      assert k in keys && k in ahead && hit(k) && !stop(k);
      var n :| n in ahead && n <= k && stop(n);
      assert n in keys;
      var u :| Leaves(c, n, u);
      assert first <= n < k && Leaves(c, n, u) && !Matches(vocabulary(n), pattern);
    }
    forall n, u | rest != [] && first <= n < rest[0] && Leaves(c, n, u) ensures Matches(vocabulary(n), pattern) {
      assert n in keys;
      assert n in ahead;
    }
  }

  /** A key of the walk: whether it is delivered, and whether the walk stops there. */
  lemma WalkedKey(s: Store, c: Chain, keys: seq<Key>, pattern: Triple, v: int, k: Key)
    requires Queryable(s, c, v) && forall j :: j in keys <==> j in s.deletions.Keys
    ensures var f := QueryFilters(pattern, v);
      var hit, stop := DeletionHit(s.deletions, s.vocabulary, f, v + 1), StopAt(s.vocabulary, f);
      && (hit(k) <==> Met(c, s.vocabulary, pattern, v, k)) && (hit(k) ==> k in keys && !stop(k))
      && (stop(k) <==> !Matches(s.vocabulary(k), pattern)) && (k in keys <==> exists u :: Leaves(c, k, u))
  {
    hide Queryable, Matches, LocalHidden, Lost, DeletionHit, Leaves, PlaceShown;
    var f := QueryFilters(pattern, v);
    MetIff(s, c, pattern, v, k);
    DeletionStored(s, c, v, k);
    StopsWhere(s.vocabulary, f, k);
    QuerySelects(pattern, v, s.vocabulary(k));
  }

  /** A walk over increasing keys begins with the least hit, unless it stops before. */
  lemma {:induction false} StreamFirst(keys: seq<Key>, hit: Key -> bool, stop: Key -> bool)
    requires Increasing(keys)
    ensures var r := Stream(keys, hit, stop);
      && (r == [] ==> forall k :: k in keys && hit(k) ==> exists n :: n in keys && n <= k && stop(n))
      && (r != [] ==>
            && r[0] in keys && hit(r[0]) && (forall k :: k in keys && hit(k) ==> r[0] <= k)
            && forall n :: n in keys && n <= r[0] ==> !stop(n))
  {
    if keys != [] {
      HeadOfIncreasing(keys);
      if !stop(keys[0]) && !hit(keys[0]) {
        hide Increasing;
        StreamFirst(keys[1..], hit, stop);
      }
    }
  }

  lemma HeadOfIncreasing(keys: seq<Key>)
    requires Increasing(keys) && keys != []
    ensures keys[0] in keys && Increasing(keys[1..])
    ensures forall k :: k in keys <==> k == keys[0] || k in keys[1..]
    ensures forall k :: k in keys ==> keys[0] <= k
  {
    forall k | k in keys ensures keys[0] <= k && (k == keys[0] || k in keys[1..]) {
      var i :| 0 <= i < |keys| && keys[i] == k;
      if i > 0 { assert keys[1..][i - 1] == k; }
    }
  }

  /** Jumping to a known triple splits the SPO tree at its key. */
  lemma SplitAtOffset(keys: seq<Key>, stored: set<Key>, universe: set<Key>, vocabulary: Key -> Triple, offset: Key,
                      cursor: nat)
    requires Dictionary(universe, vocabulary) && stored <= universe && IsIndex(keys, stored, SPO, vocabulary)
    requires offset in universe && cursor == Jump(keys, SPO, vocabulary, vocabulary(offset))
    ensures Increasing(keys[cursor..])
    ensures forall k :: k in keys ==> (k in keys[cursor..] <==> offset <= k)
  {
    hide Compare, IsReal, Jump;
    var ahead := keys[cursor..];
    SpoIncreasing(keys, stored, universe, vocabulary);
    forall k | k in keys ensures k in ahead <==> offset <= k {
      var i :| 0 <= i < |keys| && keys[i] == k;
      assert k in stored;
      CompareKeys(universe, vocabulary, k, offset);
      if i >= cursor {
        assert ahead[i - cursor] == k;
        var first := keys[cursor];
        assert first in keys;
        CompareKeys(universe, vocabulary, first, offset);
        assert cursor < i ==> keys[cursor] < keys[i];
      } else {
        forall j | 0 <= j < |ahead| ensures ahead[j] != k {
          assert keys[i] < keys[cursor + j];
        }
      }
    }
  }

  lemma SpoIncreasing(keys: seq<Key>, stored: set<Key>, universe: set<Key>, vocabulary: Key -> Triple)
    requires Dictionary(universe, vocabulary) && stored <= universe && IsIndex(keys, stored, SPO, vocabulary)
    ensures Increasing(keys)
  {
    hide Compare, IsReal, Above;
    forall i, j | 0 <= i < j < |keys| ensures keys[i] < keys[j] {
      Known(keys, stored, universe, vocabulary, SPO, i);
      Known(keys, stored, universe, vocabulary, SPO, j);
      SpoKeys(universe, vocabulary, keys[i], keys[j]);
    }
  }

  lemma CompareKeys(universe: set<Key>, vocabulary: Key -> Triple, j: Key, k: Key)
    requires Dictionary(universe, vocabulary) && j in universe && k in universe
    ensures Compare(SPO, vocabulary(j), vocabulary(k)) >= 0 <==> k <= j
  {
    SpoKeys(universe, vocabulary, k, j);
    SpoKeys(universe, vocabulary, j, k);
    if j < k { assert Above(SPO, vocabulary(k), vocabulary(j)); }
  }

  // ----- the offset loop

  /** The snapshot's matches, in SPO order, as the snapshot store delivers them. */
  ghost predicate IsSnapshotResult(triples: seq<Key>, s: Store, c: Chain, pattern: Triple) {
    triples == Sorted(MatchesOf(c.snapshot, s.vocabulary, pattern))
  }

  /** The answer to a query at a version: what survives of the snapshot, then the additions. */
  ghost function Answer(triples: seq<Key>, s: Store, c: Chain, pattern: Triple, v: int): seq<Key> {
    Select(triples, Kept(MatchesOf(Lost(c, v), s.vocabulary, pattern))) + Additions(c, s.vocabulary, pattern, v)
  }

  function Place(triples: seq<Key>, start: int): (p: nat)
    ensures p <= |triples|
  {
    if start < 0 then 0 else if start < |triples| then start else |triples|
  }

  /** What is delivered from a place in the snapshot's matches on, and from a place in the additions on. */
  ghost function DeliveredFrom(triples: seq<Key>, c: Chain, vocabulary: Key -> Triple, pattern: Triple, v: int,
                               start: int, tail: int): seq<Key> {
    Select(triples[Place(triples, start)..], Kept(MatchesOf(Lost(c, v), vocabulary, pattern))) +
    Skip(Additions(c, vocabulary, pattern, v), tail)
  }

  /** No smaller number of skipped deletions would do. */
  ghost predicate NoneSmaller(triples: seq<Key>, lost: set<Key>, offset: nat, added: nat) {
    forall i :: offset <= i < offset + added && i < |triples| ==> |Before(lost, triples[i])| > i - offset
  }

  /** The walk from `first` on begins with `k`. */
  ghost predicate FirstFound(c: Chain, vocabulary: Key -> Triple, pattern: Triple, v: int, first: Key, k: Key) {
    && first <= k && Met(c, vocabulary, pattern, v, k) && !Blocked(c, vocabulary, pattern, first, k)
    && forall j :: first <= j < k ==> !Met(c, vocabulary, pattern, v, j)
  }

  /** The rank of a triple met can be read, rightly or not: it is a deletion of the version that does not come again,
      or that is back for fewer versions than it was gone for. */
  ghost predicate RankDefined(c: Chain, k: Key, v: int) {
    k in Lost(c, v) && (LostAgain(c, k, v) ==> |BackAfter(c, k, v)| < |GoneBy(c, k, v)|)
  }

  ghost predicate TurnDefined(c: Chain, vocabulary: Key -> Triple, pattern: Triple, v: int, first: Key) {
    forall k :: FirstFound(c, vocabulary, pattern, v, first, k) ==> RankDefined(c, k, v)
  }

  /** What a turn of the offset loop takes for the number of deletions before a triple: the rank read for the first
      one found from there on, or what it assumes if none is found. */
  ghost function TurnRead(s: Store, c: Chain, pattern: Triple, v: int, first: Key): int {
    var last := LastDeletion(c, s.vocabulary, pattern, v);
    if found :| FirstFound(c, s.vocabulary, pattern, v, first, found) then
      if found in s.deletions then RankRead(s.deletions[found], pattern, v, v + 1) else 0
    else if last.Some? && first < last.value then 0
    else CountRead(s, c, pattern, v)
  }

  /** Where the offset loop ends, from a number of skipped deletions on: at the first turn that reads no more than was
      skipped, or with the matches exhausted. */
  ghost function LoopEnd(s: Store, c: Chain, pattern: Triple, v: int, triples: seq<Key>, offset: nat, added: int): int
    decreases if offset + added < |triples| then |triples| - offset - added else 0
  {
    if 0 <= offset + added < |triples| then
      var next := TurnRead(s, c, pattern, v, triples[offset + added]);
      if next <= added then next else LoopEnd(s, c, pattern, v, triples, offset, next)
    else added
  }

  /** Every turn on the way there can read the rank it finds. */
  ghost predicate LoopDefined(s: Store, c: Chain, pattern: Triple, v: int, triples: seq<Key>, offset: nat, added: int)
    decreases if offset + added < |triples| then |triples| - offset - added else 0
  {
    0 <= offset + added < |triples| ==>
      var next := TurnRead(s, c, pattern, v, triples[offset + added]);
      && TurnDefined(c, s.vocabulary, pattern, v, triples[offset + added])
      && (next > added ==> LoopDefined(s, c, pattern, v, triples, offset, next))
  }

  /** A turn that goes on: what it reads is more than the number of deletions skipped so far. */
  ghost predicate TurnGoesOn(s: Store, c: Chain, pattern: Triple, v: int, triples: seq<Key>, offset: nat, added: nat,
                             next: nat) {
    added < next && offset + added < |triples| && TurnRead(s, c, pattern, v, triples[offset + added]) == next
  }

  ghost predicate GoesOn(s: Store, c: Chain, pattern: Triple, v: int, triples: seq<Key>, offset: nat, trace: seq<nat>) {
    forall i, j :: 0 <= i < |trace| && j == i + 1 && j < |trace| ==>
      TurnGoesOn(s, c, pattern, v, triples, offset, trace[i], trace[j])
  }

  /** The loop stops at a number of skipped deletions: the turn there reads no more, and what it reads counts, even if
      that is less; with the matches exhausted, the number itself counts. */
  ghost predicate StopsWith(s: Store, c: Chain, pattern: Triple, v: int, triples: seq<Key>, offset: nat, last: nat,
                            end: int) {
    if offset + last < |triples| then TurnRead(s, c, pattern, v, triples[offset + last]) == end <= last
    else end == last
  }

  /** The run of the offset loop from nothing skipped on, and the number it ends with. */
  ghost predicate LoopRun(s: Store, c: Chain, pattern: Triple, v: int, triples: seq<Key>, offset: nat, trace: seq<nat>,
                          end: int) {
    && trace != [] && trace[0] == 0 && GoesOn(s, c, pattern, v, triples, offset, trace)
    && StopsWith(s, c, pattern, v, triples, offset, trace[|trace| - 1], end)
  }

  ghost predicate TurnsDefined(c: Chain, vocabulary: Key -> Triple, pattern: Triple, v: int, triples: seq<Key>,
                               offset: nat, trace: seq<nat>) {
    forall i :: 0 <= i < |trace| && offset + trace[i] < |triples| ==>
      TurnDefined(c, vocabulary, pattern, v, triples[offset + trace[i]])
  }

  lemma {:induction false} RunEnds(s: Store, c: Chain, pattern: Triple, v: int, triples: seq<Key>, offset: nat,
                                   trace: seq<nat>, end: int)
    requires trace != [] && GoesOn(s, c, pattern, v, triples, offset, trace)
    requires StopsWith(s, c, pattern, v, triples, offset, trace[|trace| - 1], end)
    ensures LoopEnd(s, c, pattern, v, triples, offset, trace[0]) == end
    ensures LoopDefined(s, c, pattern, v, triples, offset, trace[0]) <==>
            TurnsDefined(c, s.vocabulary, pattern, v, triples, offset, trace)
    decreases |trace|
  {
    hide TurnRead, TurnDefined, TurnsDefined, StopsWith, LoopEnd, LoopDefined;
    if |trace| > 1 {
      var rest := trace[1..];
      assert rest[|rest| - 1] == trace[|trace| - 1];
      assert TurnGoesOn(s, c, pattern, v, triples, offset, trace[0], trace[1]);
      forall i, j | 0 <= i < |rest| && j == i + 1 && j < |rest|
        ensures TurnGoesOn(s, c, pattern, v, triples, offset, rest[i], rest[j]) {
        assert rest[i] == trace[i + 1] && rest[j] == trace[j + 1];
      }
      RunEnds(s, c, pattern, v, triples, offset, rest, end);
      DefinedTail(c, s.vocabulary, pattern, v, triples, offset, trace);
      EndStep(s, c, pattern, v, triples, offset, trace[0], trace[1]);
    } else {
      assert trace == [trace[0]];
      EndHere(s, c, pattern, v, triples, offset, trace[0], end);
    }
  }

  lemma RunStarts(s: Store, c: Chain, pattern: Triple, v: int, triples: seq<Key>, offset: nat, added: nat)
    ensures GoesOn(s, c, pattern, v, triples, offset, [added])
  {
  }

  lemma RunGoesOn(s: Store, c: Chain, pattern: Triple, v: int, triples: seq<Key>, offset: nat, trace: seq<nat>,
                  next: nat)
    requires trace != [] && GoesOn(s, c, pattern, v, triples, offset, trace)
    requires TurnGoesOn(s, c, pattern, v, triples, offset, trace[|trace| - 1], next)
    ensures GoesOn(s, c, pattern, v, triples, offset, trace + [next])
  {
    hide TurnGoesOn;
    var longer := trace + [next];
    forall i, j | 0 <= i < |longer| && j == i + 1 && j < |longer|
      ensures TurnGoesOn(s, c, pattern, v, triples, offset, longer[i], longer[j]) {
      assert longer[i] == trace[i];
      if j < |trace| { assert longer[j] == trace[j]; }
    }
  }

  lemma EndStep(s: Store, c: Chain, pattern: Triple, v: int, triples: seq<Key>, offset: nat, added: nat, next: nat)
    requires TurnGoesOn(s, c, pattern, v, triples, offset, added, next)
    ensures LoopEnd(s, c, pattern, v, triples, offset, added) == LoopEnd(s, c, pattern, v, triples, offset, next)
    ensures LoopDefined(s, c, pattern, v, triples, offset, added) <==>
            TurnDefined(c, s.vocabulary, pattern, v, triples[offset + added]) &&
            LoopDefined(s, c, pattern, v, triples, offset, next)
  {
    hide TurnRead, TurnDefined;
  }

  lemma EndHere(s: Store, c: Chain, pattern: Triple, v: int, triples: seq<Key>, offset: nat, added: nat, end: int)
    requires StopsWith(s, c, pattern, v, triples, offset, added, end)
    ensures LoopEnd(s, c, pattern, v, triples, offset, added) == end
    ensures LoopDefined(s, c, pattern, v, triples, offset, added) <==>
            TurnsDefined(c, s.vocabulary, pattern, v, triples, offset, [added])
  {
    hide TurnRead, TurnDefined;
    assert [added][0] == added;
  }

  lemma DefinedTail(c: Chain, vocabulary: Key -> Triple, pattern: Triple, v: int, triples: seq<Key>, offset: nat,
                    trace: seq<nat>)
    requires trace != [] && offset + trace[0] < |triples|
    ensures TurnsDefined(c, vocabulary, pattern, v, triples, offset, trace) <==>
      && TurnDefined(c, vocabulary, pattern, v, triples[offset + trace[0]])
      && TurnsDefined(c, vocabulary, pattern, v, triples, offset, trace[1..])
  {
    hide TurnDefined;
    var rest := trace[1..];
    if TurnDefined(c, vocabulary, pattern, v, triples[offset + trace[0]]) &&
       TurnsDefined(c, vocabulary, pattern, v, triples, offset, rest) {
      forall i | 0 <= i < |trace| && offset + trace[i] < |triples|
        ensures TurnDefined(c, vocabulary, pattern, v, triples[offset + trace[i]]) {
        if i > 0 { assert rest[i - 1] == trace[i]; }
      }
    }
  }

  lemma {:induction false} RunExists(s: Store, c: Chain, pattern: Triple, v: int, triples: seq<Key>, offset: nat,
                                     added: nat)
    returns (trace: seq<nat>)
    ensures trace != [] && trace[0] == added && GoesOn(s, c, pattern, v, triples, offset, trace)
    ensures StopsWith(s, c, pattern, v, triples, offset, trace[|trace| - 1],
                      LoopEnd(s, c, pattern, v, triples, offset, added))
    decreases if offset + added < |triples| then |triples| - offset - added else 0
  {
    hide TurnRead, StopsWith, LoopEnd, LoopDefined, TurnDefined;
    trace := [added];
    var next := if offset + added < |triples| then TurnRead(s, c, pattern, v, triples[offset + added]) else 0;
    if offset + added < |triples| && next > added {
      var rest := RunExists(s, c, pattern, v, triples, offset, next);
      trace := [added] + rest;
      assert TurnGoesOn(s, c, pattern, v, triples, offset, added, next);
      EndStep(s, c, pattern, v, triples, offset, added, next);
      assert trace[|trace| - 1] == rest[|rest| - 1];
      forall i, j | 0 <= i < |trace| && j == i + 1 && j < |trace|
        ensures TurnGoesOn(s, c, pattern, v, triples, offset, trace[i], trace[j]) {
        if i > 0 { assert rest[i - 1] == trace[i] && rest[j - 1] == trace[j]; }
      }
    } else {
      StopsHere(s, c, pattern, v, triples, offset, added);
    }
  }

  lemma StopsHere(s: Store, c: Chain, pattern: Triple, v: int, triples: seq<Key>, offset: nat, added: nat)
    requires offset + added < |triples| ==> TurnRead(s, c, pattern, v, triples[offset + added]) <= added
    ensures StopsWith(s, c, pattern, v, triples, offset, added, LoopEnd(s, c, pattern, v, triples, offset, added))
  {
    hide TurnRead;
  }

  /** The loop ends with a number of skipped deletions. */
  ghost predicate RunsTo(s: Store, c: Chain, pattern: Triple, v: int, triples: seq<Key>, offset: nat, end: int) {
    exists trace :: LoopRun(s, c, pattern, v, triples, offset, trace, end)
  }

  /** It ends with one number, and it can be run exactly if all of its turns can. */
  lemma LoopIsRun(s: Store, c: Chain, pattern: Triple, v: int, triples: seq<Key>, offset: nat, end: int)
    ensures RunsTo(s, c, pattern, v, triples, offset, end) <==>
            LoopEnd(s, c, pattern, v, triples, offset, 0) == end
    ensures LoopDefined(s, c, pattern, v, triples, offset, 0) <==>
            exists trace :: LoopRun(s, c, pattern, v, triples, offset, trace,
                                    LoopEnd(s, c, pattern, v, triples, offset, 0)) &&
                            TurnsDefined(c, s.vocabulary, pattern, v, triples, offset, trace)
  {
    hide TurnRead, TurnsDefined, GoesOn, StopsWith, LoopEnd, LoopDefined;
    var run := RunExists(s, c, pattern, v, triples, offset, 0);
    var found := LoopEnd(s, c, pattern, v, triples, offset, 0);
    assert LoopRun(s, c, pattern, v, triples, offset, run, found);
    RunEnds(s, c, pattern, v, triples, offset, run, found);
    forall trace, e | LoopRun(s, c, pattern, v, triples, offset, trace, e)
      ensures e == found
      ensures LoopDefined(s, c, pattern, v, triples, offset, 0) <==>
              TurnsDefined(c, s.vocabulary, pattern, v, triples, offset, trace) {
      RunEnds(s, c, pattern, v, triples, offset, trace, e);
    }
  }

  /** It is so wherever the rank of every triple that can be met can be read. */
  lemma {:induction false} MetDefined(s: Store, c: Chain, pattern: Triple, v: int, triples: seq<Key>, offset: nat,
                                      added: int)
    requires forall k :: Met(c, s.vocabulary, pattern, v, k) ==> RankDefined(c, k, v)
    ensures LoopDefined(s, c, pattern, v, triples, offset, added)
    decreases if offset + added < |triples| then |triples| - offset - added else 0
  {
    hide Met, RankDefined, TurnRead, Blocked;
    if 0 <= offset + added < |triples| {
      var next := TurnRead(s, c, pattern, v, triples[offset + added]);
      if next > added { MetDefined(s, c, pattern, v, triples, offset, next); }
    }
  }

  /** The first triple of the walk is found, and if there is none, none is. */
  lemma FoundIsFirst(rest: seq<Key>, c: Chain, vocabulary: Key -> Triple, pattern: Triple, v: int, first: Key)
    requires FirstMet(rest, c, vocabulary, pattern, v, first)
    ensures rest == [] ==> forall k :: !FirstFound(c, vocabulary, pattern, v, first, k)
    ensures rest != [] ==> forall k :: FirstFound(c, vocabulary, pattern, v, first, k) <==> k == rest[0]
  {
    hide Met, Blocked;
  }

  /** What a turn reads once its walk is known. */
  lemma TurnReads(rest: seq<Key>, s: Store, c: Chain, pattern: Triple, v: int, first: Key)
    requires FirstMet(rest, c, s.vocabulary, pattern, v, first)
    ensures var last := LastDeletion(c, s.vocabulary, pattern, v);
      TurnRead(s, c, pattern, v, first) ==
        if rest != [] then if rest[0] in s.deletions then RankRead(s.deletions[rest[0]], pattern, v, v + 1) else 0
        else if last.Some? && first < last.value then 0
        else CountRead(s, c, pattern, v)
  {
    hide FirstMet, FirstFound, RankRead, LastDeletion, CountRead;
    FoundIsFirst(rest, c, s.vocabulary, pattern, v, first);
    if rest != [] {
      var k := rest[0];
      assert FirstFound(c, s.vocabulary, pattern, v, first, k);
    }
  }

  /** The rank of the first triple found can be read exactly if the turn is defined, and is not negative. */
  lemma TurnReadable(rest: seq<Key>, s: Store, c: Chain, pattern: Triple, v: int, first: Key)
    requires Queryable(s, c, v) && FirstMet(rest, c, s.vocabulary, pattern, v, first)
    requires TurnDefined(c, s.vocabulary, pattern, v, first) && rest != []
    ensures rest[0] in s.deletions && var d := s.deletions[rest[0]]; BegunBy(d, VersionRead(d, v, v + 1))
    ensures RankRead(s.deletions[rest[0]], pattern, v, v + 1) >= 0
  {
    hide Queryable, FirstMet, FirstFound, Lost, LostAgain, GoneBy, BackAfter, BegunBy, VersionRead, RankRead,
         SizeSeen, Readable;
    FoundIsFirst(rest, c, s.vocabulary, pattern, v, first);
    var k := rest[0];
    assert FirstFound(c, s.vocabulary, pattern, v, first, k) && RankDefined(c, k, v);
    RankReadIff(s, c, v, k);
    FullyRead(s, c, v, k);
    QueryableFacts(s, c, v);
    DefinedMeans(s, c, v, k);
    LostOfSnapshot(c, v, k);
    RankReadNatural(s, c, pattern, v, k, v + 1);
  }

  lemma LostOfSnapshot(c: Chain, v: int, k: Key)
    requires k in Lost(c, v)
    ensures k in c.snapshot
  {
    hide Content;
  }

  /** A rank can be read exactly if an entry seems to exist. */
  lemma DefinedMeans(s: Store, c: Chain, v: int, k: Key)
    requires Queryable(s, c, v) && k in Lost(c, v) && k in s.deletions
    ensures var d := s.deletions[k]; BegunBy(d, VersionRead(d, v, v + 1)) <==> SizeSeen(d, v + 1) > 0
  {
    hide Queryable, Lost, BegunBy, VersionRead, SizeSeen, Readable;
    QueryableFacts(s, c, v);
    FullyRead(s, c, v, k);
    LostVersions(s, c, v, k);
    LostFrom(s, c, v, k);
    GetDefinedIff(s.deletions[k], v, v + 1);
  }

  /** `deletion_offset` as the loop uses it: the rank read for the first deletion from a triple on, or what is assumed
      if the walk finds none. */
  method DeletionsBefore(s: Store, ghost c: Chain, keys: seq<Key>, first: Key, v: int, pattern: Triple,
                         count: int, last: Option<Key>)
    returns (snapshotOffset: int, deletionIt: PositionedTripleIterator)
    requires Queryable(s, c, v) && TurnDefined(c, s.vocabulary, pattern, v, first)
    requires IsIndex(keys, s.deletions.Keys, SPO, s.vocabulary)
    requires first in c.universe && Matches(s.vocabulary(first), pattern)
    requires count == CountRead(s, c, pattern, v) >= 0 && last == LastDeletion(c, s.vocabulary, pattern, v)
    ensures snapshotOffset == TurnRead(s, c, pattern, v, first) >= 0
    ensures fresh(deletionIt) && fresh(deletionIt.it) && Reading(deletionIt, s, keys, v, pattern)
  {
    hide Queryable, IsIndex, Matches, DeletionHit, StopAt, Stream, Ahead, Readable, RanksAt, GetByPattern, FirstMet,
         VersionRead, BegunBy, TurnRead, TurnDefined, CountRead, LastDeletion;
    QueryableFacts(s, c, v);
    deletionIt := DeletionIteratorFrom(s, c, keys, first, v, pattern);
    ghost var rest := deletionIt.it.RestDeletions(v + 1);
    TurnReads(rest, s, c, pattern, v, first);
    if rest != [] { TurnReadable(rest, s, c, pattern, v, first); }
    assert deletionIt.RanksFirst();
    var found, key, position := deletionIt.Next(true, true);
    if found {
      snapshotOffset := position;
    } else if last.Some? && first < last.value {
      snapshotOffset := 0;
    } else {
      snapshotOffset := count;
    }
  }

  /** Where nothing is hidden, a turn fails only if its walk is blocked, with deletions on both sides of the triple. */
  lemma TurnBlocked(s: Store, c: Chain, rest: seq<Key>, v: int, pattern: Triple, first: Key, count: int,
                    last: Option<Key>)
    requires Queryable(s, c, v) && NothingHidden(c, v) && !ShownFrom(c, s.vocabulary, pattern, v, first)
    requires FirstMet(rest, c, s.vocabulary, pattern, v, first)
    requires CountRight(count, last, MatchesOf(Lost(c, v), s.vocabulary, pattern))
    ensures rest == [] && last.Some? && first < last.value
    ensures var lost := MatchesOf(Lost(c, v), s.vocabulary, pattern); first !in lost && |Before(lost, first)| > 0
  {
    hide Queryable, Matches, Lost, LocalHidden, LostAgain, Leaves;
    var lost := MatchesOf(Lost(c, v), s.vocabulary, pattern);
    var k :| first <= k && Met(c, s.vocabulary, pattern, v, k) &&
             (forall j :: first <= j < k ==> !Met(c, s.vocabulary, pattern, v, j)) &&
             !(if Blocked(c, s.vocabulary, pattern, first, k) then OneSided(lost, first) else Shows(c, k, v));
    assert k in lost && first < k;
    assert first in lost ==> Met(c, s.vocabulary, pattern, v, first);
    var j :| j in lost && j < first;
    assert j in Before(lost, first);
  }

  /** What the loop assumes when the walk finds nothing is right exactly if the matching deletions lie on one side. */
  lemma WithoutHit(count: int, last: Option<Key>, lost: set<Key>, first: Key)
    requires CountRight(count, last, lost) && first !in lost
    ensures |Before(lost, first)| == (if last.Some? && first < last.value then 0 else count) <==> OneSided(lost, first)
  {
    if last.Some? && first < last.value {
      assert |Before(lost, first)| == 0 <==> Before(lost, first) == {};
      assert forall j :: j in Before(lost, first) <==> j in lost && j < first;
      assert !(forall j :: j in lost ==> j < first);
    } else {
      assert forall j :: j in lost ==> j < first;
      assert Before(lost, first) == lost;
    }
  }

  /** What is met first is the first deletion of the version, and its place shows. */
  lemma FirstShown(s: Store, c: Chain, rest: seq<Key>, v: int, pattern: Triple, first: Key)
    requires Queryable(s, c, v) && ShownFrom(c, s.vocabulary, pattern, v, first) && rest != []
    requires FirstMet(rest, c, s.vocabulary, pattern, v, first)
    ensures var lost := MatchesOf(Lost(c, v), s.vocabulary, pattern);
      && rest[0] in s.deletions && Readable(s.deletions[rest[0]]) && PlaceShown(s.deletions[rest[0]], v)
      && first <= rest[0] && rest[0] in lost && forall k :: k in lost && first <= k ==> rest[0] <= k
  {
    hide Queryable, Matches, Lost, LocalHidden, LostAgain, PlaceShown, Blocked, OneSided;
    MetIff(s, c, pattern, v, rest[0]);
    FullyRead(s, c, v, rest[0]);
    assert forall j :: first <= j < rest[0] ==> !Met(c, s.vocabulary, pattern, v, j);
    forall k | k in MatchesOf(Lost(c, v), s.vocabulary, pattern) ensures Met(c, s.vocabulary, pattern, v, k) {}
  }

  /** If nothing is met, the matching deletions lie on one side of the triple, which is none of them. */
  lemma NoneShown(s: Store, c: Chain, rest: seq<Key>, v: int, pattern: Triple, first: Key)
    requires Queryable(s, c, v) && ShownFrom(c, s.vocabulary, pattern, v, first) && rest == []
    requires FirstMet(rest, c, s.vocabulary, pattern, v, first)
    ensures var lost := MatchesOf(Lost(c, v), s.vocabulary, pattern); OneSided(lost, first) && first !in lost
  {
    hide Queryable, Matches, LocalHidden, LostAgain, Leaves;
    var lost := MatchesOf(Lost(c, v), s.vocabulary, pattern);
    var met := set k | k in s.deletions && first <= k && Met(c, s.vocabulary, pattern, v, k);
    forall k | first <= k && Met(c, s.vocabulary, pattern, v, k) ensures k in met { MetKnown(s, c, pattern, v, k); }
    forall k | k in lost ensures Met(c, s.vocabulary, pattern, v, k) {}
    hide Met, Shows, Blocked, Lost;
    if met != {} {
      LeastExists(met);
      var k :| k in met && forall y :: y in met ==> k <= y;
      assert forall j :: first <= j < k ==> !Met(c, s.vocabulary, pattern, v, j);
      assert Blocked(c, s.vocabulary, pattern, first, k);
    }
    if first in lost { NotBlockedAt(c, s.vocabulary, pattern, first); }
  }

  lemma NotBlockedAt(c: Chain, vocabulary: Key -> Triple, pattern: Triple, first: Key)
    ensures !Blocked(c, vocabulary, pattern, first, first)
  {
  }

  /** The place of the first deletion at or after a triple is the number of deletions before the triple. */
  lemma PlaceBefore(s: Store, c: Chain, pattern: Triple, v: int, k: Key, first: Key)
    requires var lost := MatchesOf(Lost(c, v), s.vocabulary, pattern);
      k in lost && first <= k && forall j :: j in lost && first <= j ==> k <= j
    ensures |MatchesBefore(Lost(c, v), k, s.vocabulary, pattern)| ==
            |Before(MatchesOf(Lost(c, v), s.vocabulary, pattern), first)|
  {
    hide Matches, Lost;
    forall j ensures j in MatchesBefore(Lost(c, v), k, s.vocabulary, pattern) <==>
                     j in Before(MatchesOf(Lost(c, v), s.vocabulary, pattern), first) {
      assert j in MatchesOf(Lost(c, v), s.vocabulary, pattern) <==>
             j in Lost(c, v) && Matches(s.vocabulary(j), pattern);
    }
    assert MatchesBefore(Lost(c, v), k, s.vocabulary, pattern) ==
           Before(MatchesOf(Lost(c, v), s.vocabulary, pattern), first);
  }

  /** The loop of `get_version_materialized`: where in the snapshot's matches to start. It ends because a turn that
      goes on skips more deletions than the one before. */
  method FindOffset(s: Store, ghost c: Chain, keys: seq<Key>, triples: seq<Key>, offset: nat, v: int, pattern: Triple,
                    count: int, last: Option<Key>)
    returns (start: nat, deletionIt: PositionedTripleIterator?)
    requires Queryable(s, c, v) && LoopDefined(s, c, pattern, v, triples, offset, 0)
    requires IsIndex(keys, s.deletions.Keys, SPO, s.vocabulary) && IsSnapshotResult(triples, s, c, pattern)
    requires count == CountRead(s, c, pattern, v) >= 0 && last == LastDeletion(c, s.vocabulary, pattern, v)
    ensures start == offset + LoopEnd(s, c, pattern, v, triples, offset, 0)
    ensures RunsTo(s, c, pattern, v, triples, offset, start - offset)
    ensures start < |triples| ==> deletionIt != null
    ensures deletionIt != null ==> fresh(deletionIt) && fresh(deletionIt.it) && Reading(deletionIt, s, keys, v, pattern)
  {
    hide Queryable, IsIndex, Matches, MatchesOf, Lost, Reading, Increasing, IsSnapshotResult, TurnDefined, TurnRead,
         CountRead, LastDeletion, LoopEnd, GoesOn;
    SnapshotResult(triples, s, c, v, pattern);
    deletionIt := null;
    var addedOffset := 0;
    ghost var trace: seq<nat> := [0];
    RunStarts(s, c, pattern, v, triples, offset, 0);
    start := offset;
    var checkOffsetedDeletions := true;
    while checkOffsetedDeletions
      invariant 0 <= addedOffset && start == offset + addedOffset
      invariant trace != [] && trace[0] == 0 && GoesOn(s, c, pattern, v, triples, offset, trace)
      invariant checkOffsetedDeletions ==>
        LoopDefined(s, c, pattern, v, triples, offset, addedOffset) && trace[|trace| - 1] == addedOffset
      invariant !checkOffsetedDeletions ==>
        StopsWith(s, c, pattern, v, triples, offset, trace[|trace| - 1], addedOffset)
      invariant !checkOffsetedDeletions && start < |triples| ==> deletionIt != null
      invariant deletionIt != null ==>
                fresh(deletionIt) && fresh(deletionIt.it) && Reading(deletionIt, s, keys, v, pattern)
      decreases checkOffsetedDeletions, if start < |triples| then |triples| - start else 0
    {
      if start < |triples| {
        var firstTriple := triples[start];
        assert firstTriple in triples;
        var snapshotOffset;
        snapshotOffset, deletionIt := DeletionsBefore(s, c, keys, firstTriple, v, pattern, count, last);
        var previousAddedOffset := addedOffset;
        addedOffset := snapshotOffset;
        start := offset + addedOffset;
        checkOffsetedDeletions := previousAddedOffset < addedOffset;
        if checkOffsetedDeletions {
          deletionIt := null;
          RunGoesOn(s, c, pattern, v, triples, offset, trace, addedOffset);
          trace := trace + [addedOffset];
        }
      } else {
        checkOffsetedDeletions := false;
      }
    }
    assert LoopRun(s, c, pattern, v, triples, offset, trace, addedOffset);
    RunEnds(s, c, pattern, v, triples, offset, trace, addedOffset);
  }

  // ----- where the loop ends if nothing is hidden from it

  /** Where ranks can be trusted and nothing is hidden, a turn reads the number of deletions before the triple, unless
      its walk is blocked between deletions. */
  lemma TurnTrusted(rest: seq<Key>, s: Store, c: Chain, pattern: Triple, v: int, first: Key)
    requires Queryable(s, c, v) && RanksTrusted(s, c, pattern, v) && FirstMet(rest, c, s.vocabulary, pattern, v, first)
    requires ShownFrom(c, s.vocabulary, pattern, v, first) || NothingHidden(c, v)
    requires CountRight(CountRead(s, c, pattern, v), LastDeletion(c, s.vocabulary, pattern, v),
                        MatchesOf(Lost(c, v), s.vocabulary, pattern))
    ensures TurnDefined(c, s.vocabulary, pattern, v, first)
    ensures var lost, read := MatchesOf(Lost(c, v), s.vocabulary, pattern), TurnRead(s, c, pattern, v, first);
      if ShownFrom(c, s.vocabulary, pattern, v, first) then read == |Before(lost, first)|
      else read == 0 < |Before(lost, first)| && first !in lost
  {
    hide Queryable, RanksTrusted, Matches, MatchesOf, Lost, CountRight, PlaceShown, ShownFrom, FirstMet, OneSided,
         NothingHidden, Before, TurnRead, TurnDefined, LastDeletion, CountRead, RankRead, MatchesBefore;
    var count, last := CountRead(s, c, pattern, v), LastDeletion(c, s.vocabulary, pattern, v);
    var lost := MatchesOf(Lost(c, v), s.vocabulary, pattern);
    TurnReads(rest, s, c, pattern, v, first);
    TrustedDefined(c, s.vocabulary, pattern, v, first);
    if !ShownFrom(c, s.vocabulary, pattern, v, first) {
      TurnBlocked(s, c, rest, v, pattern, first, count, last);
    } else if rest != [] {
      FirstShown(s, c, rest, v, pattern, first);
      ShownRank(s, c, pattern, v, rest[0]);
      PlaceBefore(s, c, pattern, v, rest[0], first);
    } else {
      NoneShown(s, c, rest, v, pattern, first);
      WithoutHit(count, last, lost, first);
    }
  }

  /** A rank that shows is the place of the deletion. */
  lemma ShownRank(s: Store, c: Chain, pattern: Triple, v: int, k: Key)
    requires Queryable(s, c, v) && RanksTrusted(s, c, pattern, v) && k in MatchesOf(Lost(c, v), s.vocabulary, pattern)
    requires k in s.deletions && Readable(s.deletions[k]) && PlaceShown(s.deletions[k], v)
    ensures RankRead(s.deletions[k], pattern, v, v + 1) == |MatchesBefore(Lost(c, v), k, s.vocabulary, pattern)|
  {
    hide Queryable, Lost, PlaceShown, RanksAt, GetByPattern, VersionRead, MatchesBefore, FieldOf, Matches, BegunBy;
    QueryableFacts(s, c, v);
    ReadsOwnVersion(s.deletions[k], v);
    PlaceRead(s, c, pattern, v, k);
  }

  lemma TrustedDefined(c: Chain, vocabulary: Key -> Triple, pattern: Triple, v: int, first: Key)
    requires ShownFrom(c, vocabulary, pattern, v, first) || NothingHidden(c, v)
    ensures TurnDefined(c, vocabulary, pattern, v, first)
  {
    hide Lost, LostAgain, LocalHidden, Blocked, Matches, OneSided;
    forall k | FirstFound(c, vocabulary, pattern, v, first, k) ensures RankDefined(c, k, v) {
      assert ShownFrom(c, vocabulary, pattern, v, first) ==> Shows(c, k, v);
    }
  }

  /** Then the loop ends at the least number of deletions that fits, or with the matches exhausted; once a walk is
      blocked between deletions, at the offset. */
  lemma EndTrusted(s: Store, c: Chain, keys: seq<Key>, triples: seq<Key>, pattern: Triple, v: int, offset: nat,
                   added: nat)
    requires Queryable(s, c, v) && RanksTrusted(s, c, pattern, v) && IsSnapshotResult(triples, s, c, pattern)
    requires ShownAlong(c, s.vocabulary, pattern, v, triples, offset, added) || NothingHidden(c, v)
    requires IsIndex(keys, s.deletions.Keys, SPO, s.vocabulary)
    requires CountRight(CountRead(s, c, pattern, v), LastDeletion(c, s.vocabulary, pattern, v),
                        MatchesOf(Lost(c, v), s.vocabulary, pattern))
    requires var lost := MatchesOf(Lost(c, v), s.vocabulary, pattern);
      && added <= |lost| && NoneSmaller(triples, lost, offset, added)
      && (offset + added < |triples| ==> |Before(lost, triples[offset + added])| >= added)
    ensures LoopDefined(s, c, pattern, v, triples, offset, added)
    ensures var lost, end := MatchesOf(Lost(c, v), s.vocabulary, pattern),
                             LoopEnd(s, c, pattern, v, triples, offset, added);
      if ShownAlong(c, s.vocabulary, pattern, v, triples, offset, added) then
        && 0 <= end <= |lost| && NoneSmaller(triples, lost, offset, end)
        && (offset + end < |triples| ==> |Before(lost, triples[offset + end])| == end)
      else end == 0 && StartsEarly(triples, lost, offset)
    decreases if offset + added < |triples| then |triples| - offset - added else 0
  {
    hide Queryable, ShownAlong, RanksTrusted, IsIndex, Matches, MatchesOf, CountRight, Lost, Before, NoneSmaller,
         Increasing, IsSnapshotResult, ShownFrom, NothingHidden, StartsEarly, TurnRead, TurnDefined, CountRead,
         LastDeletion, FirstMet;
    var lost := MatchesOf(Lost(c, v), s.vocabulary, pattern);
    SnapshotResult(triples, s, c, v, pattern);
    ShownHere(c, s.vocabulary, pattern, v, triples, offset, added);
    if offset + added < |triples| {
      var first := triples[offset + added];
      assert first in triples;
      var rest := WalkFrom(s, c, keys, first, v, pattern);
      TurnTrusted(rest, s, c, pattern, v, first);
      BeforeGrows(lost, first, first);
      if ShownFrom(c, s.vocabulary, pattern, v, first) {
        var next := TurnRead(s, c, pattern, v, first);
        OffsetGrows(triples, lost, offset, added, next);
        if next > added { EndTrusted(s, c, keys, triples, pattern, v, offset, next); }
      } else {
        EarlyAt(triples, lost, offset, added);
      }
    }
  }

  /** The walk that a turn begins. */
  ghost function WalkFrom(s: Store, c: Chain, keys: seq<Key>, first: Key, v: int, pattern: Triple): (rest: seq<Key>)
    requires Queryable(s, c, v) && IsIndex(keys, s.deletions.Keys, SPO, s.vocabulary) && first in c.universe
    ensures FirstMet(rest, c, s.vocabulary, pattern, v, first)
  {
    FromOffset(s, c, keys, first, v, pattern);
    var f := QueryFilters(pattern, v);
    Stream(Ahead(keys, Jump(keys, SPO, s.vocabulary, s.vocabulary(first)), false),
           DeletionHit(s.deletions, s.vocabulary, f, v + 1), StopAt(s.vocabulary, f))
  }

  /** What the loop asks of this turn, and of the next one. */
  lemma ShownHere(c: Chain, vocabulary: Key -> Triple, pattern: Triple, v: int, triples: seq<Key>, offset: nat,
                  added: nat)
    ensures ShownAlong(c, vocabulary, pattern, v, triples, offset, added) <==>
      (offset + added < |triples| ==>
         var next := |Before(MatchesOf(Lost(c, v), vocabulary, pattern), triples[offset + added])|;
         && ShownFrom(c, vocabulary, pattern, v, triples[offset + added])
         && (added < next ==> ShownAlong(c, vocabulary, pattern, v, triples, offset, next)))
  {
    hide ShownFrom, Matches, Lost;
    if offset + added < |triples| {
      BeforeGrows(MatchesOf(Lost(c, v), vocabulary, pattern), triples[offset + added], triples[offset + added]);
    }
  }

  lemma NoneYet(triples: seq<Key>, lost: set<Key>, offset: nat)
    ensures NoneSmaller(triples, lost, offset, 0)
  {
  }

  /** A place past the offset that is no deletion, with more deletions before the offset than skipped. */
  lemma EarlyAt(triples: seq<Key>, lost: set<Key>, offset: nat, added: nat)
    requires offset + added < |triples| && triples[offset + added] !in lost &&
             |Before(lost, triples[offset + added])| > 0
    requires NoneSmaller(triples, lost, offset, added)
    ensures StartsEarly(triples, lost, offset) && NoneSmaller(triples, lost, offset, 0)
  {
    hide Before;
    if added > 0 { assert |Before(lost, triples[offset])| > offset - offset; }
  }

  lemma OffsetGrows(triples: seq<Key>, lost: set<Key>, offset: nat, added: nat, next: nat)
    requires Increasing(triples) && offset + added < |triples| &&
             next == |Before(lost, triples[offset + added])| >= added
    requires NoneSmaller(triples, lost, offset, added)
    ensures offset + next < |triples| ==> |Before(lost, triples[offset + next])| >= next
    ensures NoneSmaller(triples, lost, offset, next)
  {
    hide Before;
    if offset + next < |triples| { BeforeGrows(lost, triples[offset + added], triples[offset + next]); }
    forall i | offset + added <= i < offset + next && i < |triples| ensures |Before(lost, triples[i])| > i - offset {
      BeforeGrows(lost, triples[offset + added], triples[i]);
    }
  }

  lemma SnapshotResult(triples: seq<Key>, s: Store, c: Chain, v: int, pattern: Triple)
    requires Queryable(s, c, v) && IsSnapshotResult(triples, s, c, pattern)
    ensures Increasing(triples)
    ensures forall k :: k in triples ==> k in c.snapshot && k in c.universe && Matches(s.vocabulary(k), pattern)
    ensures forall k :: k in MatchesOf(Lost(c, v), s.vocabulary, pattern) ==> k in triples
  {
    hide ChainOk, Matches, Dictionary;
  }

  // ----- the iterator

  /** Walking to one triple of the snapshot finds it exactly if the version has lost it. */
  lemma OneTriple(s: Store, c: Chain, keys: seq<Key>, v: int, t: Key)
    requires Queryable(s, c, v) && IsIndex(keys, s.deletions.Keys, SPO, s.vocabulary) && t in c.snapshot
    ensures var f := QueryFilters(s.vocabulary(t), v);
      Stream(Ahead(keys, Jump(keys, SPO, s.vocabulary, s.vocabulary(t)), false),
             DeletionHit(s.deletions, s.vocabulary, f, v + 1), StopAt(s.vocabulary, f)) ==
      if t in Lost(c, v) then [t] else []
  {
    hide ChainOk, DeletionHit, Stream, Ahead, Jump, Compare, LocalVisible, StopAt;
    var pattern := s.vocabulary(t);
    var f := QueryFilters(pattern, v);
    var hit := DeletionHit(s.deletions, s.vocabulary, f, v + 1);
    forall k ensures hit(k) ==> k in s.deletions && k == t && Matches(s.vocabulary(k), pattern)
             ensures StopAt(s.vocabulary, f)(k) ==> !Matches(s.vocabulary(k), pattern)
             ensures hit(k) <==> k == t && t in Lost(c, v) {
      OneHit(s, c, v, t, k);
      StopsWhere(s.vocabulary, f, k);
      QuerySelects(pattern, v, s.vocabulary(k));
    }
    MergeOrderAgrees(pattern);
    JumpedStream(keys, s.deletions.Keys, c.universe, s.vocabulary, pattern, hit, StopAt(s.vocabulary, f));
    var hits := HitsIn(s.deletions.Keys, hit);
    var one: seq<Key> := if t in Lost(c, v) then [t] else [];
    assert forall k :: k in one <==> k in hits;
    IncreasingUnique(Sorted(hits), one);
  }

  lemma OneHit(s: Store, c: Chain, v: int, t: Key, k: Key)
    requires Queryable(s, c, v) && t in c.snapshot
    ensures DeletionHit(s.deletions, s.vocabulary, QueryFilters(s.vocabulary(t), v), v + 1)(k) <==>
            k == t && t in Lost(c, v)
    ensures k == t && t in Lost(c, v) ==> k in s.deletions
  {
    hide ChainOk, DeletionHit, Above;
    var pattern := s.vocabulary(t);
    var f := QueryFilters(pattern, v);
    QuerySelects(pattern, v, s.vocabulary(k));
    DeletionHitMeaning(s.Nodes(), s.countAdditions, c.snapshot, c.history, c.min, s.vocabulary, c.misranked, f, v + 1,
                       k);
    HitStored(s.deletions, s.vocabulary, f, v + 1, k);
    if k in s.deletions && Matches(s.vocabulary(k), pattern) {
      SameTriple(c.universe, s.vocabulary, k, t, pattern);
      EntryReadable(s.Nodes(), s.countAdditions, c.snapshot, c.history, c.min, s.vocabulary, c.misranked, k);
      assert forall x :: !In([], x);
    }
  }

  class SnapshotPatchIterator {
    const s: Store
    const deletionKeys: seq<Key>
    const additionKeys: seq<Key>
    const triples: seq<Key>  // the matches in the snapshot
    const pattern: Triple
    const patchId: int
    const offset: int
    const deletionCount: int
    const deletionIt: PositionedTripleIterator?
    var position: nat
    var snapshotEnded: bool
    var additionIt: PatchTreeIterator?
    var hasLastDeletedTriple: bool
    var lastDeletedTriple: Key
    ghost const c: Chain

    /** The queried chain, indexes and result of the snapshot. */
    ghost predicate Given() {
      && Queryable(s, c, patchId) && IsPattern(pattern)
      && IsIndex(deletionKeys, s.deletions.Keys, SPO, s.vocabulary)
      && IsIndex(additionKeys, s.additions.Keys, QueryOrder(pattern), s.vocabulary)
      && IsSnapshotResult(triples, s, c, pattern)
    }

    ghost predicate Valid()
      reads this, if deletionIt != null then {deletionIt, deletionIt.it} else {}
      reads if additionIt != null then {additionIt} else {}
    {
      && Given() && position <= |triples| && !hasLastDeletedTriple
      && (deletionIt != null ==> Reading(deletionIt, s, deletionKeys, patchId, pattern))
      && (position < |triples| ==> deletionIt != null)
      && (additionIt != null ==>
            && snapshotEnded && additionIt.Valid()
            && (deletionIt != null ==> additionIt != deletionIt.it)
            && additionIt.AdditionStopsAreFinal(s.maxPatchId + 1))
    }

    /** What is still to be delivered. */
    ghost function Rest(): seq<Key>
      reads this, if additionIt != null then {additionIt} else {}
    {
      if !snapshotEnded && position <= |triples| then
        Select(triples[position..], Kept(MatchesOf(Lost(c, patchId), s.vocabulary, pattern))) +
        Skip(Additions(c, s.vocabulary, pattern, patchId), offset - |triples| + deletionCount)
      else if additionIt == null then []
      else additionIt.RestAdditions(s.maxPatchId + 1)
    }

    /** How many snapshot triples are still to be emitted. */
    ghost function Survivors(): nat
      reads this
    {
      if !snapshotEnded && position <= |triples| then
        |Select(triples[position..], Kept(MatchesOf(Lost(c, patchId), s.vocabulary, pattern)))|
      else 0
    }

    /** `n` more triples can be delivered: snapshot triples always, additions as far as their walk is in reach. */
    ghost predicate InReach(n: nat)
      reads this, if additionIt != null then {additionIt} else {}
    {
      n > Survivors() ==>
        if !snapshotEnded then
          Opens(s, c, additionKeys, pattern, patchId, offset - |triples| + deletionCount, n - Survivors())
        else additionIt != null ==> additionIt.InReach(s.maxPatchId + 1, n)
    }

    constructor (s: Store, ghost c: Chain, deletionKeys: seq<Key>, additionKeys: seq<Key>, triples: seq<Key>,
                 pattern: Triple, patchId: int, offset: int, deletionCount: int,
                 position: nat, deletionIt: PositionedTripleIterator?)
      requires Queryable(s, c, patchId) && IsPattern(pattern)
      requires IsIndex(deletionKeys, s.deletions.Keys, SPO, s.vocabulary)
      requires IsIndex(additionKeys, s.additions.Keys, QueryOrder(pattern), s.vocabulary) &&
               IsSnapshotResult(triples, s, c, pattern)
      requires position <= |triples| && (position < |triples| ==> deletionIt != null)
      requires deletionIt != null ==> Reading(deletionIt, s, deletionKeys, patchId, pattern)
      ensures Valid() && !snapshotEnded && this.position == position && this.triples == triples && this.s == s
      ensures this.c == c && this.pattern == pattern && this.patchId == patchId && this.additionKeys == additionKeys
      ensures this.offset == offset && this.deletionCount == deletionCount && this.deletionIt == deletionIt &&
              additionIt == null
    {
      this.s, this.c := s, c;
      this.deletionKeys, this.additionKeys, this.triples := deletionKeys, additionKeys, triples;
      this.pattern, this.patchId, this.offset, this.deletionCount := pattern, patchId, offset, deletionCount;
      this.position, this.deletionIt := position, deletionIt;
      snapshotEnded, additionIt := false, null;
      hasLastDeletedTriple, lastDeletedTriple := false, 0;
    }

    /** Compares a found deletion with the snapshot triple: the triple itself, a later one (kept for the next time), or
        an earlier one. */
    method Judge(triple: Key) returns (emitTriple: bool, foundTripleBefore: bool)
      modifies `hasLastDeletedTriple
      ensures emitTriple <==> lastDeletedTriple != triple
      ensures foundTripleBefore <==> lastDeletedTriple < triple
      ensures hasLastDeletedTriple <==> lastDeletedTriple > triple
    {
      emitTriple, foundTripleBefore := true, true;
      if lastDeletedTriple == triple {
        hasLastDeletedTriple := false;
        emitTriple := false;
        foundTripleBefore := false;
      } else if lastDeletedTriple > triple {
        hasLastDeletedTriple := true;
        foundTripleBefore := false;
      } else {
        hasLastDeletedTriple := false;
      }
    }

    /** Jumps to the place in the deletion tree where the snapshot triple would be. */
    method Emits(triple: Key) returns (emitTriple: bool)
      requires Given() && triple in c.snapshot && !hasLastDeletedTriple
      requires deletionIt != null && Reading(deletionIt, s, deletionKeys, patchId, pattern)
      modifies `hasLastDeletedTriple, `lastDeletedTriple, deletionIt.it
      ensures !hasLastDeletedTriple && Reading(deletionIt, s, deletionKeys, patchId, pattern)
      ensures emitTriple <==> triple !in Lost(c, patchId)
    {
      hide Queryable, IsPattern, QueryOrder, IsIndex, IsSnapshotResult, DeletionHit, StopAt, Stream,
           Ahead, Jump;
      var it := deletionIt.it;
      QueryableFacts(s, c, patchId);
      it.cursorDeletions := Jump(deletionKeys, SPO, s.vocabulary, s.vocabulary(triple));
      it.filters := it.filters.(pattern := Some(s.vocabulary(triple)));
      FilterOf(s, c, patchId, triple);
      OneTriple(s, c, deletionKeys, patchId, triple);
      assert it.RestDeletions(patchId + 1) == if triple in Lost(c, patchId) then [triple] else [];
      emitTriple := true;
      var foundTripleBefore := true;
      while foundTripleBefore
        invariant !hasLastDeletedTriple && Reading(deletionIt, s, deletionKeys, patchId, pattern)
        invariant foundTripleBefore ==>
                    emitTriple && it.RestDeletions(patchId + 1) == if triple in Lost(c, patchId) then [triple] else []
        invariant !foundTripleBefore ==> (emitTriple <==> triple !in Lost(c, patchId))
        decreases foundTripleBefore
      {
        var found := hasLastDeletedTriple;
        if !found {
          var position;
          found, lastDeletedTriple, position := deletionIt.Next(false, false);
        }
        if found {
          emitTriple, foundTripleBefore := Judge(triple);
        } else {
          foundTripleBefore := false;
        }
      }
    }

    /** Emits the next snapshot triple, unless it is deleted. */
    method NextOfSnapshot() returns (found: bool, triple: Key)
      requires Valid() && !snapshotEnded && position < |triples|
      modifies `position, `hasLastDeletedTriple, `lastDeletedTriple, if deletionIt != null then {deletionIt.it} else {}
      ensures Valid() && position == old(position) + 1 && !snapshotEnded && additionIt == old(additionIt)
      ensures old(Rest()) == if found then [triple] + Rest() else Rest()
      ensures forall n: nat :: InReach(n) <==> old(InReach(if found then n + 1 else n))
    {
      hide Queryable, IsPattern, QueryOrder, IsIndex, IsSnapshotResult, Reading, Select, Skip, Kept,
           MatchesOf, Lost, Gained, Opens, Additions, AdditionHit, StopAt, Stream, Ahead, StopsAreFinal, Unbegun,
           WalksSafely, Readable, AdditionReadable, PatchTreeIterator.InReach;
      triple := triples[position];
      SelectStep(s, c, triples, pattern, patchId, position,
                 Skip(Additions(c, s.vocabulary, pattern, patchId), offset - |triples| + deletionCount));
      found := Emits(triple);
      position := position + 1;
    }

    /** Opens the additions at the place the offset leads to. */
    method StartAdditions()
      requires Valid() && !snapshotEnded && position == |triples|
      modifies `snapshotEnded, `additionIt
      requires InReach(1)
      ensures Valid() && snapshotEnded && additionIt != null && fresh(additionIt) && Rest() == old(Rest())
      ensures forall n: nat :: n > 0 ==> (InReach(n) <==> old(InReach(n)))
    {
      hide Queryable, IsPattern, QueryOrder, IsIndex, IsSnapshotResult, Reading, Skip, Kept, MatchesOf, Gained, Lost,
           Additions, AdditionHit, StopAt, Stream, Ahead, StopsAreFinal, AdditionReadable, Readable, Opens,
           WalksSafely, Unbegun, PatchTreeIterator.InReach;
      assert Survivors() == 0;
      OpensLess(s, c, additionKeys, pattern, patchId, offset - |triples| + deletionCount, 1, 0);
      EndOfSnapshot(triples, Kept(MatchesOf(Lost(c, patchId), s.vocabulary, pattern)));
      additionIt := AdditionIteratorFrom(s, c, additionKeys, offset - |triples| + deletionCount, patchId, pattern);
      snapshotEnded := true;
    }

    /** Emits the next addition. */
    method NextOfAdditions() returns (found: bool, triple: Key)
      requires Valid() && additionIt != null && InReach(1)
      modifies `additionIt, additionIt
      ensures Valid() && (additionIt == old(additionIt) || additionIt == null)
      ensures if found then additionIt != null && old(Rest()) == [triple] + Rest()
              else additionIt == null && old(Rest()) == [] == Rest()
      ensures found ==> forall n: nat :: InReach(n) <==> old(InReach(n + 1))
    {
      hide Queryable, IsPattern, QueryOrder, IsIndex, IsSnapshotResult, Reading, Skip, Kept,
           MatchesOf, Gained, Lost, AdditionHit, StopAt, Stream, Ahead, StopsAreFinal, AdditionReadable, Readable,
           Select, WellFormed, InOrder, Increasing, In, Content, Matches, Additions, WalksSafely, Unbegun,
           PatchTreeIterator.InReach;
      additionIt.NoneInReach(s.maxPatchId + 1);
      QueryableFacts(s, c, patchId);
      ghost var rest := additionIt.RestAdditions(s.maxPatchId + 1);
      assert Rest() == rest && (rest != [] ==> rest == [rest[0]] + rest[1..]);
      var value := new AdditionValue(s.maxPatchId);
      found, triple := additionIt.NextAddition(value);
      if !found {
        additionIt := null;
      } else {
        additionIt.NoneInReach(s.maxPatchId + 1);
      }
    }

    method Next() returns (found: bool, triple: Key)
      requires Valid() && InReach(1)
      modifies this
      modifies if deletionIt != null then {deletionIt.it} else {}
      modifies if additionIt != null then {additionIt} else {}
      ensures Valid() && (additionIt != old(additionIt) ==> additionIt == null || fresh(additionIt))
      ensures var rest := old(Rest());
        if rest == [] then !found && Rest() == [] else found && triple == rest[0] && Rest() == rest[1..]
      ensures found ==> forall n: nat :: InReach(n) <==> old(InReach(n + 1))
    {
      hide Valid, Rest, InReach;
      Bounded();
      triple := 0;
      while !snapshotEnded || additionIt != null
        invariant Valid() && Rest() == old(Rest()) && position <= |triples|
        invariant !snapshotEnded || additionIt != null ==> forall n: nat :: n > 0 ==> (InReach(n) <==> old(InReach(n)))
        invariant additionIt != old(additionIt) ==> additionIt == null || fresh(additionIt)
        decreases |triples| - position, !snapshotEnded, additionIt != null
      {
        if !snapshotEnded && position < |triples| {
          found, triple := NextOfSnapshot();
        } else {
          if !snapshotEnded {
            StartAdditions();
          }
          found, triple := NextOfAdditions();
        }
        Bounded();
        if found {
          return;
        }
      }
      Drained();
      found := false;
    }

    /** At the start, all that is left can be delivered if all additions from the offset on can. */
    lemma WholeInReach()
      requires !snapshotEnded && position <= |triples|
      ensures InReach(|Rest()| + 1) <==>
              DrainOpens(s, c, additionKeys, pattern, patchId, offset - |triples| + deletionCount)
    {
      hide Opens, DrainOpens, Select, Additions, Skip, MatchesOf, Lost, Gained;
      ReachOfAll(s, c, additionKeys, pattern, patchId, offset - |triples| + deletionCount);
    }

    lemma OneInReach(n: nat)
      requires InReach(n) && n > 0
      ensures InReach(1)
    {
      if Survivors() == 0 {
        if !snapshotEnded {
          OpensLess(s, c, additionKeys, pattern, patchId, offset - |triples| + deletionCount, n, 1);
        } else if additionIt != null {
          additionIt.FewerInReach(s.maxPatchId + 1, n, 1);
        }
      }
    }

    lemma Bounded()
      requires Valid()
      ensures position <= |triples|
    {
    }

    lemma Drained()
      requires snapshotEnded && additionIt == null
      ensures Rest() == []
    {
    }
  }

  /** One snapshot triple more. */
  lemma SelectStep(s: Store, c: Chain, triples: seq<Key>, pattern: Triple, v: int, position: nat, added: seq<Key>)
    requires Queryable(s, c, v) && IsSnapshotResult(triples, s, c, pattern) && position < |triples|
    ensures triples[position] in c.snapshot
    ensures var t, kept := triples[position], Kept(MatchesOf(Lost(c, v), s.vocabulary, pattern));
      var rest := Select(triples[position + 1..], kept) + added;
      Select(triples[position..], kept) + added == if t in Lost(c, v) then rest else [t] + rest
    ensures var t, kept := triples[position], Kept(MatchesOf(Lost(c, v), s.vocabulary, pattern));
      |Select(triples[position..], kept)| == |Select(triples[position + 1..], kept)| + if t in Lost(c, v) then 0 else 1
  {
    hide Queryable, IsSnapshotResult, Matches, Lost;
    SnapshotResult(triples, s, c, v, pattern);
    var t := triples[position];
    assert t in triples;
    assert triples[position..][1..] == triples[position + 1..];
    var later := Select(triples[position + 1..], Kept(MatchesOf(Lost(c, v), s.vocabulary, pattern)));
    assert ([t] + later) + added == [t] + (later + added);
    var none: seq<Key> := [];
    assert none + later == later;
  }

  lemma OpensLess(s: Store, c: Chain, keys: seq<Key>, pattern: Triple, v: int, offset: int, n: nat, m: nat)
    requires Opens(s, c, keys, pattern, v, offset, n) && m <= n
    ensures Opens(s, c, keys, pattern, v, offset, m)
  {
    hide EntersLate, Matches, Gained;
  }

  lemma EndOfSnapshot(triples: seq<Key>, hit: Key -> bool)
    ensures forall x: seq<Key> :: Select(triples[|triples|..], hit) + x == x
  {
    assert triples[|triples|..] == [];
  }

  lemma FilterOf(s: Store, c: Chain, v: int, t: Key)
    requires Queryable(s, c, v) && t in c.snapshot
    ensures QueryFilters(s.vocabulary(t), v) == Filters(Some(v), true, Some(s.vocabulary(t)), true, true)
  {
    hide ChainOk;
  }

  // ----- the query

  /** What is delivered within a chain: the snapshot's matches from the place on where the offset loop ends, and the
      additions from the place on that the count of deletions leads to. */
  ghost function Delivered(s: Store, c: Chain, pattern: Triple, v: int, triples: seq<Key>, offset: nat): seq<Key> {
    DeliveredFrom(triples, c, s.vocabulary, pattern, v, offset + LoopEnd(s, c, pattern, v, triples, offset, 0),
                  offset - |triples| + CountRead(s, c, pattern, v))
  }

  /** It begins where the run of the offset loop ends. */
  lemma DeliveredWhere(s: Store, c: Chain, pattern: Triple, v: int, triples: seq<Key>, offset: nat, end: int)
    requires RunsTo(s, c, pattern, v, triples, offset, end)
    ensures Delivered(s, c, pattern, v, triples, offset) ==
            DeliveredFrom(triples, c, s.vocabulary, pattern, v, offset + end,
                          offset - |triples| + CountRead(s, c, pattern, v))
  {
    hide RunsTo, DeliveredFrom, LoopEnd, CountRead;
    LoopIsRun(s, c, pattern, v, triples, offset, end);
  }

  /** As many of the survivors are skipped as there should be, and as many of the additions are left. */
  ghost predicate SkipsRight(triples: seq<Key>, c: Chain, vocabulary: Key -> Triple, pattern: Triple, v: int,
                             offset: nat, start: int, tail: int) {
    var lost, all := MatchesOf(Lost(c, v), vocabulary, pattern), Additions(c, vocabulary, pattern, v);
    var survivors := |triples| - |lost|;
    && |Select(triples[..Place(triples, start)], Kept(lost))| == (if offset < survivors then offset else survivors)
    && |Skip(all, tail)| == |Skip(all, offset - |triples| + |lost|)|
  }

  /** The answer from a place on is right if and only if that is so. */
  lemma RightIff(s: Store, c: Chain, pattern: Triple, v: int, triples: seq<Key>, offset: nat, start: int, tail: int)
    requires Queryable(s, c, v) && IsSnapshotResult(triples, s, c, pattern)
    ensures DeliveredFrom(triples, c, s.vocabulary, pattern, v, start, tail) ==
            Skip(Answer(triples, s, c, pattern, v), offset)
            <==> SkipsRight(triples, c, s.vocabulary, pattern, v, offset, start, tail)
  {
    hide Queryable, Lost, Gained, Matches, Kept, Select, Skip, Additions, IsSnapshotResult, Content;
    var lost, all := MatchesOf(Lost(c, v), s.vocabulary, pattern), Additions(c, s.vocabulary, pattern, v);
    var p, kept := Place(triples, start), Select(triples, Kept(lost));
    var front, late := Select(triples[..p], Kept(lost)), Select(triples[p..], Kept(lost));
    SnapshotResult(triples, s, c, v, pattern);
    PastSurvivors(triples, lost, all, offset);
    assert triples == triples[..p] + triples[p..];
    SelectConcat(triples[..p], triples[p..], Kept(lost));
    var right := Skip(all, offset - |triples| + |lost|);
    SkipWhole(kept, all, offset, |triples| - |lost|);
    PartsApart(s, c, pattern, v, triples, p, offset);
    SameSplit(late, Skip(all, tail), Skip(kept, offset), right, c.snapshot);
    SuffixByLength(kept, front, late, offset);
    SkippedByLength(all, tail, offset - |triples| + |lost|);
  }

  /** Inside the snapshot's matches the place is right if and only if as many deletions lie before it as the loop has
      skipped. */
  lemma PlaceRightIff(triples: seq<Key>, lost: set<Key>, offset: nat, added: nat)
    requires Increasing(triples) && (forall k :: k in lost ==> k in triples) && offset + added < |triples|
    ensures |Select(triples[..offset + added], Kept(lost))| == offset <==>
            |Before(lost, triples[offset + added])| == added
  {
    hide Select, Before, AmongFirst, Increasing, Kept;
    BeforeIsAmong(lost, triples, offset + added);
    FrontIncreasing(triples, offset + added);
    SurvivorsAndDeletions(triples[..offset + added], lost);
  }

  /** Skipping in a list of two parts. */
  lemma SkipWhole(kept: seq<Key>, all: seq<Key>, offset: nat, survivors: int)
    requires |kept| == survivors
    ensures Skip(kept + all, offset) == Skip(kept, offset) + Skip(all, offset - survivors)
  {
  }

  /** What is kept is in the snapshot, and what is added is not. */
  lemma PartsApart(s: Store, c: Chain, pattern: Triple, v: int, triples: seq<Key>, p: nat, offset: int)
    requires Queryable(s, c, v) && IsSnapshotResult(triples, s, c, pattern) && p <= |triples|
    ensures var kept := Kept(MatchesOf(Lost(c, v), s.vocabulary, pattern));
      && (forall k :: k in Select(triples[p..], kept) ==> k in c.snapshot)
      && (forall k :: k in Skip(Select(triples, kept), offset) ==> k in c.snapshot)
    ensures forall n, k :: k in Skip(Additions(c, s.vocabulary, pattern, v), n) ==> k !in c.snapshot
  {
    hide Queryable, Matches, Content, Kept, Select, Skip;
    SnapshotResult(triples, s, c, v, pattern);
    var kept := Kept(MatchesOf(Lost(c, v), s.vocabulary, pattern));
    SkipIn(Select(triples, kept), offset);
    forall n { SkipIn(Additions(c, s.vocabulary, pattern, v), n); }
  }

  lemma SkipIn(all: seq<Key>, n: int)
    ensures forall k :: k in Skip(all, n) ==> k in all
  {
  }

  lemma SameSplit(a: seq<Key>, b: seq<Key>, x: seq<Key>, y: seq<Key>, first: set<Key>)
    requires (forall k :: k in a || k in x ==> k in first) && forall k :: k in b || k in y ==> k !in first
    ensures a + b == x + y <==> a == x && b == y
  {
    if a + b == x + y {
      NotShorter(a, b, x, y, first);
      NotShorter(x, y, a, b, first);
      assert a == (a + b)[..|a|] && x == (x + y)[..|x|] && b == (a + b)[|a|..] && y == (x + y)[|x|..];
    }
  }

  lemma NotShorter(a: seq<Key>, b: seq<Key>, x: seq<Key>, y: seq<Key>, first: set<Key>)
    requires a + b == x + y && (forall k :: k in x ==> k in first) && forall k :: k in b ==> k !in first
    ensures |x| <= |a|
  {
    var all := a + b;
    assert forall i :: |a| <= i < |all| ==> all[i] == b[i - |a|] && all[i] in b;
    assert all == x + y;
    assert forall i :: 0 <= i < |x| ==> all[i] == x[i] && all[i] in x;
    assert |a| < |all| ==> all[|a|] == b[0];
  }

  lemma SuffixByLength(kept: seq<Key>, front: seq<Key>, late: seq<Key>, offset: nat)
    requires kept == front + late
    ensures late == Skip(kept, offset) <==> |front| == if offset < |kept| then offset else |kept|
  {
    assert late == kept[|front|..];
  }

  lemma SkippedByLength(all: seq<Key>, n: int, m: int)
    ensures Skip(all, n) == Skip(all, m) <==> |Skip(all, n)| == |Skip(all, m)|
  {
  }

  /** `get_version_materialized` within a chain, where the ranks that the offset loop asks for can be read. The
      deletions are counted in the tree of the pattern, and walked over in the SPO tree. */
  method GetVersionMaterialized(s: Store, ghost c: Chain, deletionKeys: seq<Key>, countKeys: seq<Key>,
                                additionKeys: seq<Key>, reduced: map<Key, DeletionData>, triples: seq<Key>,
                                pattern: Triple, offset: nat, v: int)
    returns (it: SnapshotPatchIterator)
    requires Queryable(s, c, v) && IsReducedTree(reduced, s.deletions) && IsPattern(pattern)
    requires LoopDefined(s, c, pattern, v, triples, offset, 0)
    requires IsIndex(deletionKeys, s.deletions.Keys, SPO, s.vocabulary)
    requires IsIndex(countKeys, s.deletions.Keys, QueryOrder(pattern), s.vocabulary)
    requires IsIndex(additionKeys, s.additions.Keys, QueryOrder(pattern), s.vocabulary)
    requires IsSnapshotResult(triples, s, c, pattern)
    ensures fresh(it) && it.Valid() && it.s == s && it.c == c && it.pattern == pattern && it.patchId == v
    ensures it.additionIt == null && (it.deletionIt != null ==> fresh(it.deletionIt) && fresh(it.deletionIt.it))
    ensures it.Rest() == Delivered(s, c, pattern, v, triples, offset)
    ensures forall end :: RunsTo(s, c, pattern, v, triples, offset, end) ==>
      it.Rest() == DeliveredFrom(triples, c, s.vocabulary, pattern, v, offset + end,
                                 offset - |triples| + CountRead(s, c, pattern, v))
    ensures it.Rest() == Skip(Answer(triples, s, c, pattern, v), offset) <==>
            SkipsRight(triples, c, s.vocabulary, pattern, v, offset,
                       offset + LoopEnd(s, c, pattern, v, triples, offset, 0),
                       offset - |triples| + CountRead(s, c, pattern, v))
    ensures it.InReach(|it.Rest()| + 1) <==>
            DrainOpens(s, c, additionKeys, pattern, v, offset - |triples| + CountRead(s, c, pattern, v))
  {
    hide Queryable, IsIndex, Matches, MatchesOf, Lost, Gained, Opens, Reading, IsSnapshotResult, IsReducedTree, Kept,
         Skip, Select, Additions, DrainOpens, IsPattern, QueryOrder, IsDefaultTree, LastStillLost, LastRanked,
         CountRight, CountRead, LastDeletion, LoopEnd, LoopDefined, CountIsRead, SnapshotPatchIterator.InReach,
         SnapshotPatchIterator.Survivors, Answer, SkipsRight, MatchesBefore, RunsTo;
    forall end | RunsTo(s, c, pattern, v, triples, offset, end)
      ensures Delivered(s, c, pattern, v, triples, offset) ==
              DeliveredFrom(triples, c, s.vocabulary, pattern, v, offset + end,
                            offset - |triples| + CountRead(s, c, pattern, v)) {
      DeliveredWhere(s, c, pattern, v, triples, offset, end);
    }
    var count, last := DeletionCount(s, c, countKeys, reduced, pattern, v);
    CountReadIs(s, c, pattern, v, count, last);
    var start, deletionIt := FindOffset(s, c, deletionKeys, triples, offset, v, pattern, count, last);
    var position := if start < |triples| then start else |triples|;
    it := new SnapshotPatchIterator(s, c, deletionKeys, additionKeys, triples, pattern, v, offset, count, position,
                                    deletionIt);
    RightIff(s, c, pattern, v, triples, offset, start, offset - |triples| + count);
    it.WholeInReach();
  }

  /** Where the ranks can be trusted, the tree of the pattern tells the last deletion, and no rank is hidden, at least
      from the offset loop. */
  ghost predicate StoreAsked(s: Store, c: Chain, pattern: Triple, v: int, triples: seq<Key>, offset: nat) {
    && RanksTrusted(s, c, pattern, v) && (IsDefaultTree(pattern) || LastStillLost(c, s.vocabulary, pattern, v))
    && (NothingHidden(c, v) || ShownAlong(c, s.vocabulary, pattern, v, triples, offset, 0))
  }

  /** Then the ranks can be read, and the answer is right if and only if no walk of the offset loop is blocked between
      deletions; otherwise the loop ends at the offset, and too much is delivered. */
  lemma AskedIff(s: Store, c: Chain, pattern: Triple, v: int, triples: seq<Key>, offset: nat)
    requires Queryable(s, c, v) && IsPattern(pattern) && IsSnapshotResult(triples, s, c, pattern)
    requires StoreAsked(s, c, pattern, v, triples, offset)
    ensures LoopDefined(s, c, pattern, v, triples, offset, 0)
    ensures CountRead(s, c, pattern, v) == |MatchesOf(Lost(c, v), s.vocabulary, pattern)|
    ensures Delivered(s, c, pattern, v, triples, offset) == Skip(Answer(triples, s, c, pattern, v), offset) <==>
            ShownAlong(c, s.vocabulary, pattern, v, triples, offset, 0)
    ensures !ShownAlong(c, s.vocabulary, pattern, v, triples, offset, 0) ==>
      Delivered(s, c, pattern, v, triples, offset) ==
      DeliveredFrom(triples, c, s.vocabulary, pattern, v, offset,
                    offset - |triples| + |MatchesOf(Lost(c, v), s.vocabulary, pattern)|)
  {
    hide Queryable, ShownAlong, IsIndex, Matches, MatchesOf, Lost, Gained, Before, IsSnapshotResult, NoneSmaller,
         Kept, Skip, Select, Additions, IsPattern, QueryOrder, IsDefaultTree, LastStillLost, NothingHidden,
         StartsEarly, Answer, LoopEnd, LoopDefined, CountRead, LastDeletion, Increasing;
    var lost := MatchesOf(Lost(c, v), s.vocabulary, pattern);
    QueryableFacts(s, c, v);
    CountTrusted(s, c, pattern, v);
    var keys := IndexOf(s.deletions.Keys, c.universe, SPO, s.vocabulary);
    NoneYet(triples, lost, offset);
    EndTrusted(s, c, keys, triples, pattern, v, offset, 0);
    if ShownAlong(c, s.vocabulary, pattern, v, triples, offset, 0) {
      StartsRight(triples, s, c, pattern, v, offset, offset + LoopEnd(s, c, pattern, v, triples, offset, 0));
    } else {
      StartsWrong(triples, s, c, pattern, v, offset);
    }
  }

  lemma CountTrusted(s: Store, c: Chain, pattern: Triple, v: int)
    requires Queryable(s, c, v) && IsPattern(pattern) && RanksTrusted(s, c, pattern, v)
    requires IsDefaultTree(pattern) || LastStillLost(c, s.vocabulary, pattern, v)
    ensures CountRight(CountRead(s, c, pattern, v), LastDeletion(c, s.vocabulary, pattern, v),
                       MatchesOf(Lost(c, v), s.vocabulary, pattern))
  {
    hide Queryable, IsPattern, IsDefaultTree, LastStillLost, CountRight, MatchesOf, Lost, CountRead, LastDeletion,
         CountIsRead, MatchesBefore, FieldOf;
    CountOfRead(s, c, pattern, v);
    CountRightIff(s, c, pattern, v, CountRead(s, c, pattern, v), LastDeletion(c, s.vocabulary, pattern, v));
    TrustedLast(s, c, pattern, v);
  }

  lemma TrustedLast(s: Store, c: Chain, pattern: Triple, v: int)
    requires Queryable(s, c, v) && RanksTrusted(s, c, pattern, v)
    ensures LastRanked(c, s.vocabulary, pattern, v)
  {
    hide Queryable, Matches, Lost, FieldOf;
  }

  /** All additions from an offset on can be delivered: no triple enters late, or the offset is past a stored count,
      when only the last record is asked. */
  ghost predicate DrainOpens(s: Store, c: Chain, keys: seq<Key>, pattern: Triple, v: int, offset: int) {
    if PastCount(s, pattern, v, offset) then
      keys != [] && EntersLate(c, keys[|keys| - 1], v) ==> !Matches(s.vocabulary(keys[|keys| - 1]), pattern)
    else AdditionsBegun(c, s.vocabulary, pattern, v)
  }

  /** The last triple that ever comes into the chain, in the order of the pattern, does not enter late, or does not
      match. */
  ghost predicate LastBegun(c: Chain, vocabulary: Key -> Triple, pattern: Triple, v: int) {
    forall k :: EntersLate(c, k, v) && Matches(vocabulary(k), pattern) ==>
      exists j, u :: Above(QueryOrder(pattern), vocabulary(j), vocabulary(k)) && Enters(c, j, u)
  }

  /** After the last version nothing enters. */
  lemma LatestBegun(c: Chain, vocabulary: Key -> Triple, pattern: Triple)
    requires |c.history| > 0
    ensures var v := c.min + |c.history| - 1;
      AdditionsBegun(c, vocabulary, pattern, v) && LastBegun(c, vocabulary, pattern, v)
  {
    hide EntersLate, Matches, Above, Enters;
    var v := c.min + |c.history| - 1;
    forall k ensures !EntersLate(c, k, v) { NothingLater(c, k); }
  }

  /** In the index of the pattern that is the last record. */
  lemma LastRecord(s: Store, c: Chain, keys: seq<Key>, pattern: Triple, v: int)
    requires Queryable(s, c, v) && IsIndex(keys, s.additions.Keys, QueryOrder(pattern), s.vocabulary)
    ensures (keys != [] && EntersLate(c, keys[|keys| - 1], v) ==>
             !Matches(s.vocabulary(keys[|keys| - 1]), pattern)) <==>
            LastBegun(c, s.vocabulary, pattern, v)
  {
    hide Queryable, Matches, Enters, EntersLate, IsIndex, Above, QueryOrder;
    var order := QueryOrder(pattern);
    QueryableFacts(s, c, v);
    IndexKeys(keys, s.additions.Keys, order, s.vocabulary);
    forall k ensures k in keys <==> exists u :: Enters(c, k, u)
             ensures EntersLate(c, k, v) ==> k in keys {
      AdditionStart(s, c, v, k);
      UnbegunIff(s, c, pattern, v, k);
    }
    if keys != [] {
      var last := keys[|keys| - 1];
      assert last in keys;
      forall j | j in keys
        ensures !Above(order, s.vocabulary(j), s.vocabulary(last)) &&
                (j != last ==> Above(order, s.vocabulary(last), s.vocabulary(j))) {
        LastInOrder(keys, s.additions.Keys, c.universe, order, s.vocabulary, j);
      }
      var u :| Enters(c, last, u);
      forall j, w | Enters(c, j, w) ensures !Above(order, s.vocabulary(j), s.vocabulary(last)) { assert j in keys; }
      forall k | EntersLate(c, k, v) && k != last
        ensures exists j, w :: Above(order, s.vocabulary(j), s.vocabulary(k)) && Enters(c, j, w) {
        assert Above(order, s.vocabulary(last), s.vocabulary(k)) && Enters(c, last, u);
      }
    }
  }

  lemma LastInOrder(keys: seq<Key>, stored: set<Key>, universe: set<Key>, order: Order, vocabulary: Key -> Triple,
                    j: Key)
    requires Dictionary(universe, vocabulary) && stored <= universe && IsIndex(keys, stored, order, vocabulary) &&
             j in keys
    ensures !Above(order, vocabulary(j), vocabulary(keys[|keys| - 1]))
    ensures j != keys[|keys| - 1] ==> Above(order, vocabulary(keys[|keys| - 1]), vocabulary(j))
  {
    hide Above;
    var i :| 0 <= i < |keys| && keys[i] == j;
    Known(keys, stored, universe, vocabulary, order, i);
    Known(keys, stored, universe, vocabulary, order, |keys| - 1);
    Antisymmetric(order, vocabulary(j), vocabulary(keys[|keys| - 1]));
  }

  lemma LengthOfRest(all: seq<Key>, offset: int)
    ensures |all| <= (if offset > 0 then offset else 0) + |Skip(all, offset)|
  {
  }

  lemma ReachOfAll(s: Store, c: Chain, keys: seq<Key>, pattern: Triple, v: int, offset: int)
    ensures var rest := Skip(Additions(c, s.vocabulary, pattern, v), offset);
      Opens(s, c, keys, pattern, v, offset, |rest| + 1) <==> DrainOpens(s, c, keys, pattern, v, offset)
  {
    hide EntersLate, Matches, MatchesOf, Gained, BegunUpTo, AdditionsBegun, Additions, Skip, PastCount;
    var all := Additions(c, s.vocabulary, pattern, v);
    var rest := Skip(all, offset);
    LengthOfRest(all, offset);
    DrainedIff(c, s.vocabulary, pattern, v, if offset > 0 then offset + |rest| + 1 else |rest| + 1);
  }

  lemma StartsRight(triples: seq<Key>, s: Store, c: Chain, pattern: Triple, v: int, offset: nat, start: nat)
    requires Queryable(s, c, v) && IsSnapshotResult(triples, s, c, pattern)
    requires var lost := MatchesOf(Lost(c, v), s.vocabulary, pattern);
      && offset <= start && start - offset <= |lost|
      && (start < |triples| ==> |Before(lost, triples[start])| == start - offset)
    ensures DeliveredFrom(triples, c, s.vocabulary, pattern, v, start,
                          offset - |triples| + |MatchesOf(Lost(c, v), s.vocabulary, pattern)|) ==
            Skip(Answer(triples, s, c, pattern, v), offset)
  {
    hide Queryable, Lost, Gained, Matches, Before, Kept, Select, Skip, Additions;
    var lost := MatchesOf(Lost(c, v), s.vocabulary, pattern);
    var additions := Additions(c, s.vocabulary, pattern, v);
    SnapshotResult(triples, s, c, v, pattern);
    PastSurvivors(triples, lost, additions, offset);
    if start < |triples| {
      FixpointSkips(triples, lost, offset, start - offset);
    } else {
      EndOfSnapshot(triples, Kept(lost));
    }
  }

  lemma StartsWrong(triples: seq<Key>, s: Store, c: Chain, pattern: Triple, v: int, offset: nat)
    requires Queryable(s, c, v) && IsSnapshotResult(triples, s, c, pattern)
    requires StartsEarly(triples, MatchesOf(Lost(c, v), s.vocabulary, pattern), offset)
    ensures DeliveredFrom(triples, c, s.vocabulary, pattern, v, offset,
                          offset - |triples| + |MatchesOf(Lost(c, v), s.vocabulary, pattern)|) !=
            Skip(Answer(triples, s, c, pattern, v), offset)
  {
    hide Queryable, Lost, Gained, Matches, Kept, Select, Skip, Additions, Before;
    SnapshotResult(triples, s, c, v, pattern);
    EarlyMisses(triples, MatchesOf(Lost(c, v), s.vocabulary, pattern), Additions(c, s.vocabulary, pattern, v), offset);
  }

  /** The count, if the deletions up to a triple are counted. */
  ghost function CountedUpTo(c: Chain, vocabulary: Key -> Triple, pattern: Triple, v: int, k: Key): int {
    |MatchesOf(c.snapshot, vocabulary, pattern)| - (|MatchesBefore(Lost(c, v), k, vocabulary, pattern)| + 1) +
    |MatchesOf(Gained(c, v), vocabulary, pattern)|
  }

  /** If the last once-lost triple of the pattern's order is lost, it is right exactly if that triple comes last in
      SPO order too. */
  lemma CountedIff(s: Store, c: Chain, pattern: Triple, v: int, k: Key)
    requires Queryable(s, c, v) && IsLastOnce(c, s.vocabulary, pattern, v, k) && k in Lost(c, v)
    ensures CountedUpTo(c, s.vocabulary, pattern, v, k) == |MatchesOf(Content(c, v), s.vocabulary, pattern)| <==>
            LastStillLost(c, s.vocabulary, pattern, v)
  {
    hide Queryable, Matches, Lost, Gained, Content, MatchesBefore, MatchesOf, OnceLost, IsLast, QueryOrder;
    QueryableFacts(s, c, v);
    LostKnown(s, c, pattern, v);
    LastUnique(OnceLost(c, s.vocabulary, pattern, v), c.universe, QueryOrder(pattern), s.vocabulary);
    LastIsOne(OnceLost(c, s.vocabulary, pattern, v), QueryOrder(pattern), s.vocabulary, k);
    OnceLostCoversLost(s, c, pattern, v);
    LastRankCounts(Lost(c, v), s.vocabulary, pattern, k);
    CountsAddUp(c, s.vocabulary, pattern, v);
  }

  /** The number of answers, from the snapshot's count and the two stored counts. */
  method GetVersionMaterializedCount(s: Store, ghost c: Chain, deletionKeys: seq<Key>, additionKeys: seq<Key>,
                                     reduced: map<Key, DeletionData>, snapshotCount: int, pattern: Triple, v: int)
    returns (r: int)
    requires Queryable(s, c, v) && IsReducedTree(reduced, s.deletions) && IsPattern(pattern) && Counts(s, c, pattern, v)
    requires IsIndex(deletionKeys, s.deletions.Keys, QueryOrder(pattern), s.vocabulary)
    requires IsIndex(additionKeys, s.additions.Keys, QueryOrder(pattern), s.vocabulary)
    requires snapshotCount == |MatchesOf(c.snapshot, s.vocabulary, pattern)|
    ensures r == |MatchesOf(c.snapshot, s.vocabulary, pattern)| - CountRead(s, c, pattern, v) +
                 |MatchesOf(Gained(c, v), s.vocabulary, pattern)|
  {
    hide Gained, MatchesBefore, LastStillLost, LastRanked, Queryable, Counts, IsIndex, IsReducedTree, Matches,
         MatchesOf, IsPattern, QueryOrder, IsDefaultTree, CountRight, CountRead, LastDeletion, CountIsRead, Lost;
    var deletionCount, last := DeletionCount(s, c, deletionKeys, reduced, pattern, v);
    CountReadIs(s, c, pattern, v, deletionCount, last);
    var additionCount := AdditionCount(s, c, additionKeys, v, pattern);
    r := snapshotCount - deletionCount + additionCount;
  }

  /** Through the SPO trees a count is right if and only if the rank of the last deletion is. Through the others, if
      that rank is right, the count is right if the tree tells the last deletion, and is that of the deletions up to
      the last once-lost triple if this one is lost. */
  ghost predicate CountTells(r: int, c: Chain, vocabulary: Key -> Triple, pattern: Triple, v: int) {
    var right, ranked := r == |MatchesOf(Content(c, v), vocabulary, pattern)|, LastRanked(c, vocabulary, pattern, v);
    && (IsDefaultTree(pattern) ==> (right <==> ranked))
    && (ranked && LastStillLost(c, vocabulary, pattern, v) ==> right)
    && (ranked && !IsDefaultTree(pattern) ==>
          forall k :: IsLastOnce(c, vocabulary, pattern, v, k) && k in Lost(c, v) ==>
            r == CountedUpTo(c, vocabulary, pattern, v, k))
  }

  /** What is counted tells that of the version. */
  lemma CountOfVersion(s: Store, c: Chain, pattern: Triple, v: int)
    requires Queryable(s, c, v) && IsPattern(pattern)
    ensures CountTells(|MatchesOf(c.snapshot, s.vocabulary, pattern)| - CountRead(s, c, pattern, v) +
                       |MatchesOf(Gained(c, v), s.vocabulary, pattern)|, c, s.vocabulary, pattern, v)
  {
    hide Queryable, IsPattern, IsDefaultTree, LastStillLost, MatchesOf, Matches, Lost, Gained, Content, CountRead,
         LastDeletion, CountIsRead, MatchesBefore, LastRanked, OnceLost, QueryOrder, IsLast, Dictionary;
    var count, last := CountRead(s, c, pattern, v), LastDeletion(c, s.vocabulary, pattern, v);
    CountOfRead(s, c, pattern, v);
    CountRightIff(s, c, pattern, v, count, last);
    CountsAddUp(c, s.vocabulary, pattern, v);
    if IsDefaultTree(pattern) { DefaultLast(s, c, pattern, v); }
    forall k | LastRanked(c, s.vocabulary, pattern, v) && !IsDefaultTree(pattern) &&
               IsLastOnce(c, s.vocabulary, pattern, v, k) && k in Lost(c, v)
      ensures count == |MatchesBefore(Lost(c, v), k, s.vocabulary, pattern)| + 1 {
      assert IsLastTold(c, s.vocabulary, pattern, v, k);
    }
  }

  lemma CountsAddUp(c: Chain, vocabulary: Key -> Triple, pattern: Triple, v: int)
    ensures |MatchesOf(Content(c, v), vocabulary, pattern)| ==
            |MatchesOf(c.snapshot, vocabulary, pattern)| - |MatchesOf(Lost(c, v), vocabulary, pattern)| +
            |MatchesOf(Gained(c, v), vocabulary, pattern)|
  {
    hide Matches;
    var before, lost := MatchesOf(c.snapshot, vocabulary, pattern), MatchesOf(Lost(c, v), vocabulary, pattern);
    var gained, now := MatchesOf(Gained(c, v), vocabulary, pattern), MatchesOf(Content(c, v), vocabulary, pattern);
    assert before == (before - lost) + lost;
    assert now == (before - lost) + gained;
  }

  /** The answer is what the version holds: each match of it once, the snapshot's first, both parts in order. */
  lemma AnswerIsVersion(triples: seq<Key>, s: Store, c: Chain, pattern: Triple, v: int)
    requires Queryable(s, c, v) && IsSnapshotResult(triples, s, c, pattern)
    ensures forall k :: k in Answer(triples, s, c, pattern, v) <==> k in MatchesOf(Content(c, v), s.vocabulary, pattern)
    ensures |Answer(triples, s, c, pattern, v)| == |MatchesOf(Content(c, v), s.vocabulary, pattern)|
    ensures Increasing(Select(triples, Kept(MatchesOf(Lost(c, v), s.vocabulary, pattern))))
  {
    hide Queryable, Matches;
    var lost, gained := MatchesOf(Lost(c, v), s.vocabulary, pattern), MatchesOf(Gained(c, v), s.vocabulary, pattern);
    SnapshotResult(triples, s, c, v, pattern);
    PastSurvivors(triples, lost, Additions(c, s.vocabulary, pattern, v), 0);
    SelectIncreasing(triples, Kept(lost));
    CountsAddUp(c, s.vocabulary, pattern, v);
    var kept, all := Select(triples, Kept(lost)), Answer(triples, s, c, pattern, v);
    forall k ensures k in all <==> k in MatchesOf(Content(c, v), s.vocabulary, pattern) {
      assert k in all <==> k in kept || k in gained;
      assert k in triples <==> k in MatchesOf(c.snapshot, s.vocabulary, pattern);
    }
  }
}
