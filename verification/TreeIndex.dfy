/** The ordered indexes of the trees, and what a filtered walk over one delivers. */
module TreeIndexes {
  import opened OrderedKeys
  import opened Selection
  import opened Triples
  import opened Dictionaries

  ghost predicate SortedBy(keys: seq<Key>, order: Order, vocabulary: Key -> Triple) {
    forall i, j :: 0 <= i < j < |keys| ==> Above(order, vocabulary(keys[j]), vocabulary(keys[i]))
  }

  /** The keys of a tree in the order of one of its indexes. */
  ghost predicate IsIndex(keys: seq<Key>, stored: set<Key>, order: Order, vocabulary: Key -> Triple) {
    && SortedBy(keys, order, vocabulary)
    && (forall k :: k in keys <==> k in stored)
  }

  /** A tree cursor's `jump(target)`: the first record at or above the target. */
  function Jump(keys: seq<Key>, order: Order, vocabulary: Key -> Triple, target: Triple): (r: nat)
    ensures r <= |keys|
    ensures forall i :: 0 <= i < r ==> Compare(order, vocabulary(keys[i]), target) < 0
    ensures r < |keys| ==> Compare(order, vocabulary(keys[r]), target) >= 0
  {
    if keys == [] || Compare(order, vocabulary(keys[0]), target) >= 0 then 0
    else 1 + Jump(keys[1..], order, vocabulary, target)
  }

  /** A tree cursor's `jump_back(target)`: the last record at or below the target, or -1. */
  function JumpBack(keys: seq<Key>, order: Order, vocabulary: Key -> Triple, target: Triple): (r: int)
    ensures -1 <= r < |keys|
    ensures forall i :: r < i < |keys| ==> Compare(order, vocabulary(keys[i]), target) > 0
    ensures r >= 0 ==> Compare(order, vocabulary(keys[r]), target) <= 0
  {
    if keys == [] then -1
    else if Compare(order, vocabulary(keys[|keys| - 1]), target) <= 0 then |keys| - 1
    else JumpBack(keys[..|keys| - 1], order, vocabulary, target)
  }

  /** What is left for a cursor at position `c`: the keys from there on, or back to the first. */
  function Ahead(keys: seq<Key>, c: int, reverse: bool): (r: seq<Key>)
    ensures forall k :: k in r ==> k in keys
  {
    if c < 0 || c >= |keys| then []
    else if reverse then [keys[c]] + Ahead(keys, c - 1, reverse)
    else keys[c..]
  }

  lemma AheadStep(keys: seq<Key>, c: int, reverse: bool)
    requires 0 <= c < |keys|
    ensures Ahead(keys, c, reverse) == [keys[c]] + Ahead(keys, if reverse then c - 1 else c + 1, reverse)
  {
  }

  /** A walk delivers the hits, and ends at the first key it may stop at. */
  ghost function Stream(keys: seq<Key>, hit: Key -> bool, stop: Key -> bool): (r: seq<Key>)
    ensures forall k :: k in r ==> k in keys && hit(k)
  {
    if keys == [] || stop(keys[0]) then []
    else (if hit(keys[0]) then [keys[0]] else []) + Stream(keys[1..], hit, stop)
  }

  /** No hit follows a stop. */
  ghost predicate StopsAreFinal(keys: seq<Key>, hit: Key -> bool, stop: Key -> bool) {
    forall i, j :: 0 <= i <= j < |keys| && stop(keys[i]) ==> !hit(keys[j])
  }

  /** Stopping early then loses nothing. */
  lemma {:induction false} StreamIsSelect(keys: seq<Key>, hit: Key -> bool, stop: Key -> bool)
    requires StopsAreFinal(keys, hit, stop)
    ensures Stream(keys, hit, stop) == Select(keys, hit)
  {
    if keys != [] {
      if stop(keys[0]) {
        NothingSelected(keys, hit);
      } else {
        StreamIsSelect(keys[1..], hit, stop);
      }
    }
  }

  lemma {:induction false} NothingSelected(keys: seq<Key>, hit: Key -> bool)
    requires forall i :: 0 <= i < |keys| ==> !hit(keys[i])
    ensures Select(keys, hit) == []
  {
    if keys != [] {
      NothingSelected(keys[1..], hit);
    }
  }

  /** A stop that is final leaves nothing for a walk that goes on behind it. */
  lemma StopEnds(keys: seq<Key>, c: int, reverse: bool, hit: Key -> bool, stop: Key -> bool)
    requires 0 <= c < |keys| && StopsAreFinal(Ahead(keys, c, reverse), hit, stop)
    ensures var next := Ahead(keys, if reverse then c - 1 else c + 1, reverse);
      StopsAreFinal(next, hit, stop) && (stop(keys[c]) ==> Stream(next, hit, stop) == [])
  {
    var next := Ahead(keys, if reverse then c - 1 else c + 1, reverse);
    AheadStep(keys, c, reverse);
    var all := [keys[c]] + next;
    assert forall i :: 0 <= i < |next| ==> next[i] == all[i + 1];
    forall i, j | 0 <= i <= j < |next| && stop(next[i]) ensures !hit(next[j]) {
      assert stop(all[i + 1]) && !hit(all[j + 1]);
    }
    if stop(keys[c]) {
      forall i | 0 <= i < |next| ensures !hit(next[i]) {
        assert stop(all[0]) && !hit(all[i + 1]);
      }
      StreamIsSelect(next, hit, stop);
      NothingSelected(next, hit);
    }
  }

  /** Up to its `n`-th hit the walk comes across no bad key. */
  ghost predicate WalksSafely(keys: seq<Key>, hit: Key -> bool, stop: Key -> bool, bad: Key -> bool, n: nat) {
    n == 0 || keys == [] || stop(keys[0]) ||
    (!bad(keys[0]) && WalksSafely(keys[1..], hit, stop, bad, if hit(keys[0]) then n - 1 else n))
  }

  lemma {:induction false} NothingBad(keys: seq<Key>, hit: Key -> bool, stop: Key -> bool, bad: Key -> bool, n: nat)
    requires forall i :: 0 <= i < |keys| ==> !bad(keys[i])
    ensures WalksSafely(keys, hit, stop, bad, n)
  {
    if n > 0 && keys != [] && !stop(keys[0]) {
      NothingBad(keys[1..], hit, stop, bad, if hit(keys[0]) then n - 1 else n);
    }
  }

  /** Behind a stop that is final there is nothing bad either. */
  lemma SafeBehindStop(keys: seq<Key>, c: int, reverse: bool, hit: Key -> bool, stop: Key -> bool, bad: Key -> bool,
                       n: nat)
    requires 0 <= c < |keys| && StopsAreFinal(Ahead(keys, c, reverse), bad, stop) && stop(keys[c])
    ensures WalksSafely(Ahead(keys, if reverse then c - 1 else c + 1, reverse), hit, stop, bad, n)
  {
    var next := Ahead(keys, if reverse then c - 1 else c + 1, reverse);
    AheadStep(keys, c, reverse);
    var all := [keys[c]] + next;
    forall i | 0 <= i < |next| ensures !bad(next[i]) {
      assert stop(all[0]) && !bad(all[i + 1]);
    }
    NothingBad(next, hit, stop, bad, n);
  }

  lemma SafeStep(keys: seq<Key>, c: int, reverse: bool, hit: Key -> bool, stop: Key -> bool, bad: Key -> bool, n: nat)
    requires 0 <= c < |keys|
    ensures var k, next := keys[c], Ahead(keys, if reverse then c - 1 else c + 1, reverse);
      WalksSafely(Ahead(keys, c, reverse), hit, stop, bad, n) <==>
      n == 0 || stop(k) || (!bad(k) && WalksSafely(next, hit, stop, bad, if hit(k) then n - 1 else n))
  {
    var next := Ahead(keys, if reverse then c - 1 else c + 1, reverse);
    AheadStep(keys, c, reverse);
    assert ([keys[c]] + next)[1..] == next;
  }

  ghost function HitsIn(stored: set<Key>, hit: Key -> bool): set<Key> {
    set k | k in stored && hit(k)
  }

  // ----- the index of an order

  /** The stored key that the order puts first. */
  predicate IsFirstOf(stored: set<Key>, order: Order, vocabulary: Key -> Triple, k: Key) {
    k in stored && forall j :: j in stored && j != k ==> Above(order, vocabulary(j), vocabulary(k))
  }

  /** Known keys are strictly ordered by every index order. */
  lemma Ordered(universe: set<Key>, order: Order, vocabulary: Key -> Triple, j: Key, k: Key)
    requires Dictionary(universe, vocabulary) && j in universe && k in universe && j != k
    ensures Above(order, vocabulary(j), vocabulary(k)) <==> !Above(order, vocabulary(k), vocabulary(j))
  {
    SpoKeys(universe, vocabulary, j, k);
    SpoKeys(universe, vocabulary, k, j);
    DifferentOrdered(order, vocabulary(j), vocabulary(k));
  }

  lemma DifferentOrdered(order: Order, a: Triple, b: Triple)
    requires IsReal(a) && IsReal(b) && (Above(SPO, a, b) || Above(SPO, b, a))
    ensures Above(order, a, b) <==> !Above(order, b, a)
  {
  }

  lemma AboveTransitive(order: Order, a: Triple, b: Triple, c: Triple)
    requires IsReal(a) && IsReal(b) && IsReal(c) && Above(order, c, b) && Above(order, b, a)
    ensures Above(order, c, a)
  {
  }

  lemma {:induction false} FirstExists(stored: set<Key>, universe: set<Key>, order: Order, vocabulary: Key -> Triple)
    requires Dictionary(universe, vocabulary) && stored <= universe && stored != {}
    ensures exists k :: IsFirstOf(stored, order, vocabulary, k)
  {
    hide Above, IsReal;
    LeastExists(stored);
    var some :| some in stored && forall y :: y in stored ==> some <= y;
    var rest := stored - {some};
    if rest == {} {
      assert forall j :: j in stored && j != some ==> j in rest;
      assert IsFirstOf(stored, order, vocabulary, some);
    } else {
      FirstExists(rest, universe, order, vocabulary);
      var k :| IsFirstOf(rest, order, vocabulary, k);
      FirstOfBoth(stored, universe, order, vocabulary, k, some);
    }
  }

  lemma FirstOfBoth(stored: set<Key>, universe: set<Key>, order: Order, vocabulary: Key -> Triple, k: Key, some: Key)
    requires Dictionary(universe, vocabulary) && stored <= universe && some in stored
    requires IsFirstOf(stored - {some}, order, vocabulary, k)
    ensures IsFirstOf(stored, order, vocabulary, k) || IsFirstOf(stored, order, vocabulary, some)
  {
    Ordered(universe, order, vocabulary, k, some);
    if Above(order, vocabulary(k), vocabulary(some)) {
      forall j | j in stored && j != some ensures Above(order, vocabulary(j), vocabulary(some)) {
        if j != k {
          assert j in stored - {some};
          AboveTransitive(order, vocabulary(some), vocabulary(k), vocabulary(j));
        }
      }
    } else {
      forall j | j in stored && j != k ensures Above(order, vocabulary(j), vocabulary(k)) {
        assert j != some ==> j in stored - {some};
      }
    }
  }

  lemma FirstUnique(stored: set<Key>, universe: set<Key>, order: Order, vocabulary: Key -> Triple)
    requires Dictionary(universe, vocabulary) && stored <= universe
    ensures forall j, k :: IsFirstOf(stored, order, vocabulary, j) && IsFirstOf(stored, order, vocabulary, k) ==> j == k
  {
    hide Above, IsReal;
    forall j, k | IsFirstOf(stored, order, vocabulary, j) && IsFirstOf(stored, order, vocabulary, k) ensures j == k {
      if j != k { Ordered(universe, order, vocabulary, j, k); }
    }
  }

  /** The last of some keys in an order. */
  ghost predicate IsLast(some: set<Key>, order: Order, vocabulary: Key -> Triple, k: Key) {
    k in some && forall j :: j in some && j != k ==> Above(order, vocabulary(k), vocabulary(j))
  }

  lemma LastUnique(some: set<Key>, universe: set<Key>, order: Order, vocabulary: Key -> Triple)
    requires Dictionary(universe, vocabulary) && some <= universe
    ensures forall j, k :: IsLast(some, order, vocabulary, j) && IsLast(some, order, vocabulary, k) ==> j == k
  {
    hide Above, IsReal;
    forall j, k | IsLast(some, order, vocabulary, j) && IsLast(some, order, vocabulary, k) ensures j == k {
      if j != k { Antisymmetric(order, vocabulary(j), vocabulary(k)); }
    }
  }

  /** For all patterns but `? p ?` the last match in the order of the index is the last one in SPO order. */
  lemma LastInSpo(some: set<Key>, universe: set<Key>, vocabulary: Key -> Triple, pattern: Triple, k: Key)
    requires Dictionary(universe, vocabulary) && some <= universe && AgreesWithSpo(pattern)
    requires forall j :: j in some ==> Matches(vocabulary(j), pattern)
    requires IsLast(some, QueryOrder(pattern), vocabulary, k)
    ensures forall j :: j in some ==> j <= k
  {
    hide Above, QueryOrder, Matches, IsReal;
    forall j | j in some ensures j <= k {
      if j != k { SpoKeys(universe, vocabulary, j, k); }
    }
  }

  /** `get_triple_comparator`: compares triples in one of the orders. */
  datatype Comparator = Comparator(order: Order, vocabulary: Key -> Triple)
  {
    predicate Less(j: Key, k: Key) {
      Above(order, vocabulary(k), vocabulary(j))
    }
  }

  /** It orders known triples strictly. */
  lemma LessTotal(cmp: Comparator, universe: set<Key>, j: Key, k: Key)
    requires Dictionary(universe, cmp.vocabulary) && j in universe && k in universe
    ensures if j == k then !cmp.Less(j, k) else cmp.Less(j, k) <==> !cmp.Less(k, j)
  {
    if j == k {
      Antisymmetric(cmp.order, cmp.vocabulary(j), cmp.vocabulary(k));
    } else {
      Ordered(universe, cmp.order, cmp.vocabulary, j, k);
    }
  }

  lemma LessTransitive(cmp: Comparator, universe: set<Key>, i: Key, j: Key, k: Key)
    requires Dictionary(universe, cmp.vocabulary) && i in universe && j in universe && k in universe
    requires cmp.Less(i, j) && cmp.Less(j, k)
    ensures cmp.Less(i, k)
  {
    AboveTransitive(cmp.order, cmp.vocabulary(i), cmp.vocabulary(j), cmp.vocabulary(k));
  }

  /** The keys of a tree in the order of an index. */
  function IndexOf(stored: set<Key>, ghost universe: set<Key>, order: Order,
                   vocabulary: Key -> Triple): (keys: seq<Key>)
    requires Dictionary(universe, vocabulary) && stored <= universe
    ensures IsIndex(keys, stored, order, vocabulary) && |keys| == |stored|
  {
    if stored == {} then
      []
    else
      FirstExists(stored, universe, order, vocabulary);
      FirstUnique(stored, universe, order, vocabulary);
      var k :| k in stored && IsFirstOf(stored, order, vocabulary, k);
      var rest := IndexOf(stored - {k}, universe, order, vocabulary);
      IndexPrepended(stored, order, vocabulary, k, rest);
      [k] + rest
  }

  /** Known keys, in the order of an index. */
  ghost function Arranged(some: set<Key>, universe: set<Key>, order: Order, vocabulary: Key -> Triple): (keys: seq<Key>)
    ensures |keys| == |some| && forall k :: k in keys <==> k in some
  {
    if Dictionary(universe, vocabulary) && some <= universe then IndexOf(some, universe, order, vocabulary)
    else Sorted(some)
  }

  lemma LastExists(some: set<Key>, universe: set<Key>, order: Order, vocabulary: Key -> Triple)
    requires Dictionary(universe, vocabulary) && some <= universe && some != {}
    ensures exists k :: IsLast(some, order, vocabulary, k)
  {
    hide Above, Dictionary;
    var keys := IndexOf(some, universe, order, vocabulary);
    var last := keys[|keys| - 1];
    assert last in keys;
    forall j | j in some && j != last ensures Above(order, vocabulary(last), vocabulary(j)) {
      assert j in keys;
      var i :| 0 <= i < |keys| && keys[i] == j;
    }
    assert IsLast(some, order, vocabulary, last);
  }

  lemma IndexPrepended(stored: set<Key>, order: Order, vocabulary: Key -> Triple, k: Key, rest: seq<Key>)
    requires IsFirstOf(stored, order, vocabulary, k) && IsIndex(rest, stored - {k}, order, vocabulary) &&
             |rest| == |stored - {k}|
    ensures IsIndex([k] + rest, stored, order, vocabulary) && |[k] + rest| == |stored|
  {
    hide Above, SortedBy;
    PrependSorted(k, rest, order, vocabulary);
  }

  /** The comparator is transitive through a pattern. */
  lemma AboveAtLeast(order: Order, a: Triple, b: Triple, target: Triple)
    requires IsReal(a) && IsReal(b) && Above(order, b, a)
    ensures Compare(order, a, target) >= 0 ==> Compare(order, b, target) >= 0
    ensures Compare(order, b, target) <= 0 ==> Compare(order, a, target) <= 0
  {
  }

  lemma SpoKeys(universe: set<Key>, vocabulary: Key -> Triple, j: Key, k: Key)
    requires Dictionary(universe, vocabulary) && j in universe && k in universe
    ensures Above(SPO, vocabulary(k), vocabulary(j)) <==> j < k
  {
    if k < j { assert Above(SPO, vocabulary(j), vocabulary(k)); }
  }

  /** The hits of a pattern in its own index come in SPO order, for all patterns but `? p ?`. */
  lemma HitsIncrease(keys: seq<Key>, stored: set<Key>, universe: set<Key>, vocabulary: Key -> Triple, pattern: Triple,
                     hit: Key -> bool)
    requires Dictionary(universe, vocabulary) && stored <= universe
    requires IsIndex(keys, stored, QueryOrder(pattern), vocabulary) && AgreesWithSpo(pattern)
    requires forall k :: k in stored && hit(k) ==> Matches(vocabulary(k), pattern)
    ensures Select(keys, hit) == Sorted(HitsIn(stored, hit))
  {
    SelectKeepsOrder(keys, stored, universe, vocabulary, pattern, hit);
    var hits := HitsIn(stored, hit);
    IncreasingUnique(Select(keys, hit), Sorted(hits));
  }

  lemma {:induction false} SelectKeepsOrder(keys: seq<Key>, stored: set<Key>, universe: set<Key>,
                                            vocabulary: Key -> Triple, pattern: Triple, hit: Key -> bool)
    requires Dictionary(universe, vocabulary) && stored <= universe && AgreesWithSpo(pattern)
    requires forall k :: k in keys ==> k in stored
    requires forall i, j :: 0 <= i < j < |keys| ==> Above(QueryOrder(pattern), vocabulary(keys[j]), vocabulary(keys[i]))
    requires forall k :: k in stored && hit(k) ==> Matches(vocabulary(k), pattern)
    ensures Increasing(Select(keys, hit))
  {
    hide Above, QueryOrder, Matches, IsReal;
    if keys != [] {
      var rest := keys[1..];
      SelectKeepsOrder(rest, stored, universe, vocabulary, pattern, hit);
      if hit(keys[0]) {
        forall y | y in Select(rest, hit) ensures keys[0] < y {
          var i :| 0 <= i < |rest| && rest[i] == y;
          assert keys[i + 1] == y && y in keys && keys[0] in keys;
          SpoKeys(universe, vocabulary, keys[0], y);
        }
        IncreasingConcat([keys[0]], Select(rest, hit));
      }
    }
  }

  /** The keys of an index are known to the dictionary. */
  lemma Known(keys: seq<Key>, stored: set<Key>, universe: set<Key>, vocabulary: Key -> Triple, order: Order, i: nat)
    requires Dictionary(universe, vocabulary) && stored <= universe && IsIndex(keys, stored, order, vocabulary)
    requires i < |keys|
    ensures var k := keys[i]; k in stored && k in universe && IsReal(vocabulary(k))
  {
    var k := keys[i];
    assert k in keys;
  }

  /** Jumping to a pattern in its own index and walking on, with or without early break, delivers exactly the hits. */
  lemma JumpedSelect(keys: seq<Key>, stored: set<Key>, universe: set<Key>, vocabulary: Key -> Triple, pattern: Triple,
                     hit: Key -> bool, stop: Key -> bool)
    requires Dictionary(universe, vocabulary) && stored <= universe && IsPattern(pattern)
    requires IsIndex(keys, stored, QueryOrder(pattern), vocabulary)
    requires forall k :: k in stored && hit(k) ==> Matches(vocabulary(k), pattern)
    requires forall k :: k in stored && stop(k) ==> !Matches(vocabulary(k), pattern)
    ensures var ahead := Ahead(keys, Jump(keys, QueryOrder(pattern), vocabulary, pattern), false);
      StopsAreFinal(ahead, hit, stop) && Stream(ahead, hit, stop) == Select(keys, hit) == Select(ahead, hit)
  {
    hide QueryOrder, Jump, IsIndex, Dictionary, Stream, Select, IsPattern, StopsAreFinal;
    var c := Jump(keys, QueryOrder(pattern), vocabulary, pattern);
    var below, ahead := keys[..c], keys[c..];
    assert keys == below + ahead;
    NoHitBelow(keys, stored, universe, vocabulary, pattern, hit, c);
    NothingSelected(below, hit);
    SelectConcat(below, ahead, hit);
    var none: seq<Key> := [];
    assert none + Select(ahead, hit) == Select(ahead, hit);
    NoHitsAfterStops(keys, stored, universe, vocabulary, pattern, hit, stop, c);
    StreamIsSelect(ahead, hit, stop);
    assert Ahead(keys, c, false) == ahead;
  }

  /** The selected keys of an index are an index of them. */
  lemma SelectIndex(keys: seq<Key>, stored: set<Key>, universe: set<Key>, order: Order, vocabulary: Key -> Triple,
                    hit: Key -> bool)
    requires Dictionary(universe, vocabulary) && stored <= universe && IsIndex(keys, stored, order, vocabulary)
    ensures Select(keys, hit) == Arranged(HitsIn(stored, hit), universe, order, vocabulary)
  {
    hide Above, Dictionary;
    SelectSorted(keys, order, vocabulary, hit);
    var hits := HitsIn(stored, hit);
    assert hits <= universe && forall k :: k in Select(keys, hit) <==> k in hits;
    SameIndex(Select(keys, hit), Arranged(hits, universe, order, vocabulary), hits, universe, order, vocabulary);
  }

  lemma {:induction false} SelectSorted(keys: seq<Key>, order: Order, vocabulary: Key -> Triple, hit: Key -> bool)
    requires SortedBy(keys, order, vocabulary)
    ensures SortedBy(Select(keys, hit), order, vocabulary)
  {
    hide Above;
    if keys != [] {
      var rest := keys[1..];
      SelectSorted(rest, order, vocabulary, hit);
      var tail := Select(rest, hit);
      forall y | y in tail ensures Above(order, vocabulary(y), vocabulary(keys[0])) {
        var i :| 0 <= i < |rest| && rest[i] == y;
        assert keys[i + 1] == y;
      }
      hide SortedBy;
      PrependSorted(keys[0], tail, order, vocabulary);
      var none: seq<Key> := [];
      assert none + tail == tail;
    }
  }

  lemma PrependSorted(first: Key, rest: seq<Key>, order: Order, vocabulary: Key -> Triple)
    requires SortedBy(rest, order, vocabulary)
    requires forall y :: y in rest ==> Above(order, vocabulary(y), vocabulary(first))
    ensures SortedBy([first] + rest, order, vocabulary)
  {
    hide Above;
    var keys := [first] + rest;
    forall i, j | 0 <= i < j < |keys| ensures Above(order, vocabulary(keys[j]), vocabulary(keys[i])) {
      var y := rest[j - 1];
      assert y in rest;
    }
  }

  /** The keys of a tree have one index in an order. */
  lemma {:induction false} SameIndex(a: seq<Key>, b: seq<Key>, stored: set<Key>, universe: set<Key>, order: Order,
                                     vocabulary: Key -> Triple)
    requires Dictionary(universe, vocabulary) && stored <= universe
    requires IsIndex(a, stored, order, vocabulary) && IsIndex(b, stored, order, vocabulary)
    ensures a == b
  {
    hide Above, Dictionary, IsReal;
    EmptyIndex(a, b, stored, order, vocabulary);
    if a != [] {
      var k := a[0];
      assert k in a && k in b;
      FirstInIndex(a, b, stored, universe, order, vocabulary);
      TailIndex(a, stored, universe, order, vocabulary);
      TailIndex(b, stored, universe, order, vocabulary);
      SameIndex(a[1..], b[1..], stored - {k}, universe, order, vocabulary);
      assert a == [a[0]] + a[1..] && b == [b[0]] + b[1..];
    }
  }

  lemma EmptyIndex(a: seq<Key>, b: seq<Key>, stored: set<Key>, order: Order, vocabulary: Key -> Triple)
    requires IsIndex(a, stored, order, vocabulary) && IsIndex(b, stored, order, vocabulary)
    ensures a == [] ==> b == []
  {
    hide Above;
    if b != [] {
      var k := b[0];
      assert k in b && k in a;
    }
  }

  lemma FirstInIndex(a: seq<Key>, b: seq<Key>, stored: set<Key>, universe: set<Key>, order: Order,
                     vocabulary: Key -> Triple)
    requires Dictionary(universe, vocabulary) && stored <= universe && a != [] && b != []
    requires IsIndex(a, stored, order, vocabulary) && IsIndex(b, stored, order, vocabulary)
    ensures a[0] == b[0]
  {
    hide Above, Dictionary;
    var x, y := a[0], b[0];
    assert x in a && y in b;
    assert x in b && y in a;
    var i :| 0 <= i < |a| && a[i] == y;
    var j :| 0 <= j < |b| && b[j] == x;
    InIndex(a, stored, universe, order, vocabulary, 0, i);
    InIndex(a, stored, universe, order, vocabulary, i, 0);
    InIndex(b, stored, universe, order, vocabulary, 0, j);
  }

  lemma TailIndex(keys: seq<Key>, stored: set<Key>, universe: set<Key>, order: Order, vocabulary: Key -> Triple)
    requires Dictionary(universe, vocabulary) && stored <= universe && IsIndex(keys, stored, order, vocabulary) &&
             keys != []
    ensures IsIndex(keys[1..], stored - {keys[0]}, order, vocabulary)
  {
    hide Above, Dictionary;
    var rest := keys[1..];
    assert forall k :: k in keys <==> k == keys[0] || k in rest;
    forall k | k in rest ensures k != keys[0] {
      var i :| 0 <= i < |rest| && rest[i] == k;
      InIndex(keys, stored, universe, order, vocabulary, 0, i + 1);
      InIndex(keys, stored, universe, order, vocabulary, 0, 0);
    }
  }

  /** In SPO order, for all patterns but `? p ?`. */
  lemma JumpedStream(keys: seq<Key>, stored: set<Key>, universe: set<Key>, vocabulary: Key -> Triple, pattern: Triple,
                     hit: Key -> bool, stop: Key -> bool)
    requires Dictionary(universe, vocabulary) && stored <= universe && IsPattern(pattern)
    requires IsIndex(keys, stored, QueryOrder(pattern), vocabulary) && AgreesWithSpo(pattern)
    requires forall k :: k in stored && hit(k) ==> Matches(vocabulary(k), pattern)
    requires forall k :: k in stored && stop(k) ==> !Matches(vocabulary(k), pattern)
    ensures var ahead := Ahead(keys, Jump(keys, QueryOrder(pattern), vocabulary, pattern), false);
      StopsAreFinal(ahead, hit, stop) && Stream(ahead, hit, stop) == Sorted(HitsIn(stored, hit))
  {
    hide QueryOrder, AgreesWithSpo, Jump, IsIndex, Dictionary, Stream, Select, HitsIn, IsPattern, StopsAreFinal;
    JumpedSelect(keys, stored, universe, vocabulary, pattern, hit, stop);
    HitsIncrease(keys, stored, universe, vocabulary, pattern, hit);
  }

  lemma {:induction false} SafeFewer(keys: seq<Key>, hit: Key -> bool, stop: Key -> bool, bad: Key -> bool, n: nat,
                                     m: nat)
    requires WalksSafely(keys, hit, stop, bad, n) && m <= n
    ensures WalksSafely(keys, hit, stop, bad, m)
  {
    if m > 0 && keys != [] && !stop(keys[0]) {
      if hit(keys[0]) {
        SafeFewer(keys[1..], hit, stop, bad, n - 1, m - 1);
      } else {
        SafeFewer(keys[1..], hit, stop, bad, n, m);
      }
    }
  }

  /** The hits before a key in an order. */
  ghost function HitsBelow(keys: seq<Key>, hit: Key -> bool, order: Order, vocabulary: Key -> Triple,
                           k: Key): set<Key> {
    set j | j in keys && hit(j) && Above(order, vocabulary(k), vocabulary(j))
  }

  /** The hits and the bad keys of a sequence are in order, and stops are final for both. */
  ghost predicate MarksInOrder(keys: seq<Key>, hit: Key -> bool, stop: Key -> bool, bad: Key -> bool,
                               order: Order, vocabulary: Key -> Triple) {
    && (forall i, j ::
          0 <= i < |keys| && 0 <= j < |keys| && (hit(keys[i]) || bad(keys[i])) && (hit(keys[j]) || bad(keys[j])) ==>
          (Above(order, vocabulary(keys[j]), vocabulary(keys[i])) <==> i < j))
    && StopsAreFinal(keys, hit, stop) && StopsAreFinal(keys, bad, stop)
  }

  /** A walk is safe up to its `n`-th hit exactly if every bad key has that many hits before it. */
  lemma {:induction false} SafeIffHitsBefore(keys: seq<Key>, hit: Key -> bool, stop: Key -> bool, bad: Key -> bool,
                                             order: Order, vocabulary: Key -> Triple, n: nat)
    requires MarksInOrder(keys, hit, stop, bad, order, vocabulary)
    ensures WalksSafely(keys, hit, stop, bad, n) <==>
            forall k :: k in keys && bad(k) ==> n <= |HitsBelow(keys, hit, order, vocabulary, k)|
  {
    hide Above;
    if keys == [] || n == 0 {
    } else if stop(keys[0]) {
      forall k | k in keys ensures !bad(k) {
        var i :| 0 <= i < |keys| && keys[i] == k;
      }
    } else {
      var first, rest := keys[0], keys[1..];
      assert first in keys;
      var m := if hit(first) then n - 1 else n;
      MarksOfRest(keys, hit, stop, bad, order, vocabulary);
      SafeIffHitsBefore(rest, hit, stop, bad, order, vocabulary, m);
      if bad(first) {
        NoHitsBelowFirst(keys, hit, stop, bad, order, vocabulary);
      } else {
        forall k | k in rest && bad(k)
          ensures |HitsBelow(keys, hit, order, vocabulary, k)| ==
                  |HitsBelow(rest, hit, order, vocabulary, k)| + if hit(first) then 1 else 0 {
          OneMoreBelow(keys, hit, stop, bad, order, vocabulary, k);
        }
        assert forall k :: k in keys <==> k == first || k in rest;
      }
    }
  }

  lemma MarksOfRest(keys: seq<Key>, hit: Key -> bool, stop: Key -> bool, bad: Key -> bool, order: Order,
                    vocabulary: Key -> Triple)
    requires MarksInOrder(keys, hit, stop, bad, order, vocabulary) && keys != []
    ensures MarksInOrder(keys[1..], hit, stop, bad, order, vocabulary)
  {
    hide Above;
    var rest := keys[1..];
    assert forall i :: 0 <= i < |rest| ==> rest[i] == keys[i + 1];
    forall i, j | 0 <= i <= j < |rest| && stop(rest[i]) ensures !hit(rest[j]) && !bad(rest[j]) {
      assert stop(keys[i + 1]) && !hit(keys[j + 1]) && !bad(keys[j + 1]);
    }
  }

  lemma NoHitsBelowFirst(keys: seq<Key>, hit: Key -> bool, stop: Key -> bool, bad: Key -> bool,
                         order: Order, vocabulary: Key -> Triple)
    requires MarksInOrder(keys, hit, stop, bad, order, vocabulary) && keys != [] && bad(keys[0])
    ensures HitsBelow(keys, hit, order, vocabulary, keys[0]) == {}
  {
    hide Above;
    forall j | j in keys && hit(j) ensures !Above(order, vocabulary(keys[0]), vocabulary(j)) {
      var i :| 0 <= i < |keys| && keys[i] == j;
    }
  }

  lemma AboveFirst(keys: seq<Key>, hit: Key -> bool, stop: Key -> bool, bad: Key -> bool, order: Order,
                   vocabulary: Key -> Triple, k: Key)
    requires MarksInOrder(keys, hit, stop, bad, order, vocabulary) && keys != [] && hit(keys[0])
    requires k in keys[1..] && (hit(k) || bad(k))
    ensures Above(order, vocabulary(k), vocabulary(keys[0])) && k != keys[0]
  {
    hide Above;
    var i :| 0 <= i < |keys[1..]| && keys[1..][i] == k;
    assert keys[i + 1] == k;
    assert !Above(order, vocabulary(keys[0]), vocabulary(keys[0]));
  }

  lemma OneMoreBelow(keys: seq<Key>, hit: Key -> bool, stop: Key -> bool, bad: Key -> bool, order: Order,
                     vocabulary: Key -> Triple, k: Key)
    requires MarksInOrder(keys, hit, stop, bad, order, vocabulary) && keys != [] && k in keys[1..] && bad(k)
    ensures |HitsBelow(keys, hit, order, vocabulary, k)| ==
            |HitsBelow(keys[1..], hit, order, vocabulary, k)| + if hit(keys[0]) then 1 else 0
  {
    hide Above, MarksInOrder;
    var first, rest := keys[0], keys[1..];
    assert forall j :: j in keys <==> j == first || j in rest;
    if hit(first) {
      AboveFirst(keys, hit, stop, bad, order, vocabulary, k);
      forall j | j in rest && hit(j) ensures j != first {
        AboveFirst(keys, hit, stop, bad, order, vocabulary, j);
      }
      assert first !in HitsBelow(rest, hit, order, vocabulary, k);
      assert HitsBelow(keys, hit, order, vocabulary, k) == HitsBelow(rest, hit, order, vocabulary, k) + {first};
    } else {
      assert HitsBelow(keys, hit, order, vocabulary, k) == HitsBelow(rest, hit, order, vocabulary, k);
    }
  }

  /** Jumping to a pattern and walking on: bad keys are come across exactly if fewer hits than wanted lie before
      them. */
  lemma JumpedSafe(keys: seq<Key>, stored: set<Key>, universe: set<Key>, vocabulary: Key -> Triple, pattern: Triple,
                   hit: Key -> bool, stop: Key -> bool, bad: Key -> bool, n: nat)
    requires Dictionary(universe, vocabulary) && stored <= universe && IsPattern(pattern)
    requires IsIndex(keys, stored, QueryOrder(pattern), vocabulary)
    requires forall k :: k in stored && (hit(k) || bad(k)) ==> Matches(vocabulary(k), pattern)
    requires forall k :: k in stored && stop(k) ==> !Matches(vocabulary(k), pattern)
    ensures var ahead := Ahead(keys, Jump(keys, QueryOrder(pattern), vocabulary, pattern), false);
      && StopsAreFinal(ahead, bad, stop)
      && (WalksSafely(ahead, hit, stop, bad, n) <==>
          forall k :: k in stored && bad(k) ==> n <= |HitsBelow(keys, hit, QueryOrder(pattern), vocabulary, k)|)
  {
    hide *;
    var order := QueryOrder(pattern);
    var c := Jump(keys, order, vocabulary, pattern);
    var below, ahead := keys[..c], keys[c..];
    AheadIs(keys, c);
    JumpedMarks(keys, stored, universe, vocabulary, pattern, hit, stop, bad, c);
    MarksFinal(ahead, hit, stop, bad, order, vocabulary);
    SafeIffHitsBefore(ahead, hit, stop, bad, order, vocabulary, n);
    NoHitBelow(keys, stored, universe, vocabulary, pattern, hit, c);
    NoHitBelow(keys, stored, universe, vocabulary, pattern, bad, c);
    HitsBelowAhead(keys, stored, hit, bad, order, vocabulary, c) by { IndexHolds(keys, stored, order, vocabulary); }
  }

  lemma AheadIs(keys: seq<Key>, c: nat)
    requires c <= |keys|
    ensures Ahead(keys, c, false) == keys[c..]
  {
  }

  lemma MarksFinal(keys: seq<Key>, hit: Key -> bool, stop: Key -> bool, bad: Key -> bool, order: Order,
                   vocabulary: Key -> Triple)
    requires MarksInOrder(keys, hit, stop, bad, order, vocabulary)
    ensures StopsAreFinal(keys, bad, stop)
  {
  }

  lemma IndexHolds(keys: seq<Key>, stored: set<Key>, order: Order, vocabulary: Key -> Triple)
    requires IsIndex(keys, stored, order, vocabulary)
    ensures forall k :: k in keys <==> k in stored
  {
  }

  lemma JumpedMarks(keys: seq<Key>, stored: set<Key>, universe: set<Key>, vocabulary: Key -> Triple, pattern: Triple,
                    hit: Key -> bool, stop: Key -> bool, bad: Key -> bool, c: nat)
    requires Dictionary(universe, vocabulary) && stored <= universe && IsPattern(pattern)
    requires IsIndex(keys, stored, QueryOrder(pattern), vocabulary)
    requires forall k :: k in stored && (hit(k) || bad(k)) ==> Matches(vocabulary(k), pattern)
    requires forall k :: k in stored && stop(k) ==> !Matches(vocabulary(k), pattern)
    requires c == Jump(keys, QueryOrder(pattern), vocabulary, pattern)
    ensures MarksInOrder(keys[c..], hit, stop, bad, QueryOrder(pattern), vocabulary)
  {
    hide QueryOrder, IsIndex, Dictionary, IsPattern, StopsAreFinal, Matches, Compare, Jump, Above;
    NoHitsAfterStops(keys, stored, universe, vocabulary, pattern, hit, stop, c);
    NoHitsAfterStops(keys, stored, universe, vocabulary, pattern, bad, stop, c);
    var ahead := keys[c..];
    forall i, j | 0 <= i < |ahead| && 0 <= j < |ahead|
      ensures Above(QueryOrder(pattern), vocabulary(ahead[j]), vocabulary(ahead[i])) <==> i < j {
      InIndex(keys, stored, universe, QueryOrder(pattern), vocabulary, c + i, c + j);
    }
  }

  /** Places in an index tell the order. */
  lemma InIndex(keys: seq<Key>, stored: set<Key>, universe: set<Key>, order: Order, vocabulary: Key -> Triple, i: nat,
                j: nat)
    requires Dictionary(universe, vocabulary) && stored <= universe && IsIndex(keys, stored, order, vocabulary)
    requires i < |keys| && j < |keys|
    ensures Above(order, vocabulary(keys[j]), vocabulary(keys[i])) <==> i < j
  {
    hide Above, IsReal;
    Known(keys, stored, universe, vocabulary, order, i);
    Known(keys, stored, universe, vocabulary, order, j);
    Antisymmetric(order, vocabulary(keys[i]), vocabulary(keys[j]));
  }

  lemma HitsBelowAhead(keys: seq<Key>, stored: set<Key>, hit: Key -> bool, bad: Key -> bool, order: Order,
                       vocabulary: Key -> Triple, c: nat)
    requires c <= |keys| && forall k :: k in keys <==> k in stored
    requires forall i :: 0 <= i < c ==> !hit(keys[..c][i]) && !bad(keys[..c][i])
    ensures forall k :: HitsBelow(keys, hit, order, vocabulary, k) == HitsBelow(keys[c..], hit, order, vocabulary, k)
    ensures forall k :: k in stored && bad(k) <==> k in keys[c..] && bad(k)
  {
    hide Above;
    var below, ahead := keys[..c], keys[c..];
    assert keys == below + ahead;
    assert forall k :: k in below ==> !hit(k) && !bad(k);
    assert forall k :: k in keys <==> k in below || k in ahead;
    forall k ensures HitsBelow(keys, hit, order, vocabulary, k) == HitsBelow(ahead, hit, order, vocabulary, k) {}
  }

  lemma NoHitBelow(keys: seq<Key>, stored: set<Key>, universe: set<Key>, vocabulary: Key -> Triple,
                   pattern: Triple, hit: Key -> bool, c: nat)
    requires Dictionary(universe, vocabulary) && stored <= universe && IsPattern(pattern)
    requires IsIndex(keys, stored, QueryOrder(pattern), vocabulary)
    requires forall k :: k in stored && hit(k) ==> Matches(vocabulary(k), pattern)
    requires c <= |keys| && forall i :: 0 <= i < c ==> Compare(QueryOrder(pattern), vocabulary(keys[i]), pattern) < 0
    ensures forall i :: 0 <= i < c ==> !hit(keys[..c][i])
  {
    hide Compare, QueryOrder, Matches, IsReal;
    forall i | 0 <= i < c ensures !hit(keys[..c][i]) {
      Known(keys, stored, universe, vocabulary, QueryOrder(pattern), i);
      var k := keys[i];
      if hit(k) { JumpThenEarlyBreak(pattern, vocabulary(k), vocabulary(k)); }
    }
  }

  lemma NoHitsAfterStops(keys: seq<Key>, stored: set<Key>, universe: set<Key>, vocabulary: Key -> Triple,
                         pattern: Triple, hit: Key -> bool, stop: Key -> bool, c: nat)
    requires Dictionary(universe, vocabulary) && stored <= universe && IsPattern(pattern)
    requires IsIndex(keys, stored, QueryOrder(pattern), vocabulary)
    requires forall k :: k in stored && hit(k) ==> Matches(vocabulary(k), pattern)
    requires forall k :: k in stored && stop(k) ==> !Matches(vocabulary(k), pattern)
    requires c <= |keys| && (c < |keys| ==> Compare(QueryOrder(pattern), vocabulary(keys[c]), pattern) >= 0)
    ensures StopsAreFinal(keys[c..], hit, stop)
  {
    hide Compare, QueryOrder, Matches, IsReal, IsIndex;
    var ahead := keys[c..];
    forall i, j | 0 <= i <= j < |ahead| && stop(ahead[i]) ensures !hit(ahead[j]) {
      Known(keys, stored, universe, vocabulary, QueryOrder(pattern), c + i);
      var k := keys[c + i];
      assert k in stored && stop(k);
      NoHitAfterStop(keys, stored, universe, vocabulary, pattern, hit, c, c + i, c + j);
    }
  }

  lemma NoHitAfterStop(keys: seq<Key>, stored: set<Key>, universe: set<Key>, vocabulary: Key -> Triple,
                       pattern: Triple, hit: Key -> bool, c: nat, i: nat, j: nat)
    requires Dictionary(universe, vocabulary) && stored <= universe && IsPattern(pattern)
    requires IsIndex(keys, stored, QueryOrder(pattern), vocabulary)
    requires forall k :: k in stored && hit(k) ==> Matches(vocabulary(k), pattern)
    requires c <= i <= j < |keys| && Compare(QueryOrder(pattern), vocabulary(keys[c]), pattern) >= 0
    requires !Matches(vocabulary(keys[i]), pattern)
    ensures !hit(keys[j])
  {
    hide Compare, QueryOrder, Matches, IsReal;
    var order := QueryOrder(pattern);
    Known(keys, stored, universe, vocabulary, order, c);
    Known(keys, stored, universe, vocabulary, order, i);
    Known(keys, stored, universe, vocabulary, order, j);
    if c < i { AboveAtLeast(order, vocabulary(keys[c]), vocabulary(keys[i]), pattern); }
    var k := keys[j];
    if hit(k) {
      assert k in stored;
      JumpThenEarlyBreak(pattern, vocabulary(keys[i]), vocabulary(k));
      Antisymmetric(order, vocabulary(keys[i]), vocabulary(keys[j]));
    }
  }

  lemma Antisymmetric(order: Order, a: Triple, b: Triple)
    requires IsReal(a) && IsReal(b)
    ensures !(Above(order, a, b) && Above(order, b, a))
    ensures a == b ==> !Above(order, a, b)
  {
  }

  /** Jumping back to the last possible match and walking down, the first hit is the greatest in the order of the
      index. */
  lemma JumpedBack(keys: seq<Key>, stored: set<Key>, universe: set<Key>, vocabulary: Key -> Triple, pattern: Triple,
                   hit: Key -> bool, stop: Key -> bool)
    requires Dictionary(universe, vocabulary) && stored <= universe && IsPattern(pattern)
    requires IsIndex(keys, stored, QueryOrder(pattern), vocabulary)
    requires forall k :: k in stored && hit(k) ==> Matches(vocabulary(k), pattern)
    requires forall k :: k in stored && stop(k) ==> !Matches(vocabulary(k), pattern)
    ensures var s := Stream(Ahead(keys, JumpBack(keys, QueryOrder(pattern), vocabulary, JumpBackKey(pattern)), true),
                            hit, stop);
      && (s == [] <==> HitsIn(stored, hit) == {})
      && (s != [] ==> IsLast(HitsIn(stored, hit), QueryOrder(pattern), vocabulary, s[0]))
  {
    var order, target := QueryOrder(pattern), JumpBackKey(pattern);
    var c := JumpBack(keys, order, vocabulary, target);
    hide Compare, Above, QueryOrder, Matches, IsReal, JumpBack, JumpBackKey, IsLast;
    forall i | c < i < |keys| ensures !hit(keys[i]) {
      Known(keys, stored, universe, vocabulary, order, i);
      var k := keys[i];
      assert k in stored && Compare(order, vocabulary(k), target) > 0;
      if hit(k) { JumpBackThenEarlyBreak(pattern, vocabulary(k), vocabulary(k)); }
    }
    FirstDown(keys, stored, universe, vocabulary, pattern, hit, stop, c, c);
  }

  /** The first hit from position `i` down, when there is none above. */
  lemma {:induction false} FirstDown(keys: seq<Key>, stored: set<Key>, universe: set<Key>, vocabulary: Key -> Triple,
                                     pattern: Triple, hit: Key -> bool, stop: Key -> bool, c: int, i: int)
    requires Dictionary(universe, vocabulary) && stored <= universe && IsPattern(pattern)
    requires IsIndex(keys, stored, QueryOrder(pattern), vocabulary)
    requires forall k :: k in stored && hit(k) ==> Matches(vocabulary(k), pattern)
    requires forall k :: k in stored && stop(k) ==> !Matches(vocabulary(k), pattern)
    requires -1 <= i <= c < |keys|
    requires c >= 0 ==> Compare(QueryOrder(pattern), vocabulary(keys[c]), JumpBackKey(pattern)) <= 0
    requires forall j :: i < j < |keys| ==> !hit(keys[j])
    ensures var s := Stream(Ahead(keys, i, true), hit, stop);
      && (s == [] <==> HitsIn(stored, hit) == {})
      && (s != [] ==> IsLast(HitsIn(stored, hit), QueryOrder(pattern), vocabulary, s[0]))
    decreases i + 1
  {
    hide Compare, Above, QueryOrder, Matches, IsReal, JumpBackKey, Dictionary;
    if i < 0 {
      NoHits(keys, stored, hit);
    } else if stop(keys[i]) {
      Known(keys, stored, universe, vocabulary, QueryOrder(pattern), i);
      var k := keys[i];
      assert k in stored && stop(k);
      forall j | 0 <= j < |keys| ensures !hit(keys[j]) {
        if j <= i { NoHitBelowStop(keys, stored, universe, vocabulary, pattern, hit, c, i, j); }
      }
      NoHits(keys, stored, hit);
    } else if hit(keys[i]) {
      Known(keys, stored, universe, vocabulary, QueryOrder(pattern), i);
      var first := keys[i];
      assert first in HitsIn(stored, hit);
      assert Stream(Ahead(keys, i, true), hit, stop)[0] == first;
      forall k | k in HitsIn(stored, hit) && k != first
        ensures Above(QueryOrder(pattern), vocabulary(first), vocabulary(k)) {
        assert k in keys;
        var j :| 0 <= j < |keys| && keys[j] == k;
        assert j < i;
      }
    } else {
      FirstDown(keys, stored, universe, vocabulary, pattern, hit, stop, c, i - 1);
    }
  }

  lemma NoHits(keys: seq<Key>, stored: set<Key>, hit: Key -> bool)
    requires forall k :: k in keys <==> k in stored
    requires forall i :: 0 <= i < |keys| ==> !hit(keys[i])
    ensures HitsIn(stored, hit) == {}
  {
    forall k | k in stored ensures !hit(k) {
      assert k in keys;
      var i :| 0 <= i < |keys| && keys[i] == k;
    }
  }

  lemma NoHitBelowStop(keys: seq<Key>, stored: set<Key>, universe: set<Key>, vocabulary: Key -> Triple,
                       pattern: Triple, hit: Key -> bool, c: nat, i: nat, j: nat)
    requires Dictionary(universe, vocabulary) && stored <= universe && IsPattern(pattern)
    requires IsIndex(keys, stored, QueryOrder(pattern), vocabulary)
    requires forall k :: k in stored && hit(k) ==> Matches(vocabulary(k), pattern)
    requires j <= i <= c < |keys| && Compare(QueryOrder(pattern), vocabulary(keys[c]), JumpBackKey(pattern)) <= 0
    requires !Matches(vocabulary(keys[i]), pattern)
    ensures !hit(keys[j])
  {
    hide Compare, QueryOrder, Matches, IsReal, JumpBackKey;
    var order := QueryOrder(pattern);
    Known(keys, stored, universe, vocabulary, order, c);
    Known(keys, stored, universe, vocabulary, order, i);
    Known(keys, stored, universe, vocabulary, order, j);
    if i < c { AboveAtLeast(order, vocabulary(keys[i]), vocabulary(keys[c]), JumpBackKey(pattern)); }
    var k := keys[j];
    if hit(k) {
      assert k in stored;
      JumpBackThenEarlyBreak(pattern, vocabulary(keys[i]), vocabulary(k));
      Antisymmetric(order, vocabulary(keys[i]), vocabulary(keys[j]));
    }
  }

  // ----- lists in the order of a comparator

  /** The order in which the triples of a pattern are listed. */
  function OrderOf(pattern: Triple, vocabulary: Key -> Triple): Comparator {
    Comparator(QueryOrder(pattern), vocabulary)
  }

  /** Known triples, in the order of a comparator. */
  ghost predicate KeysSorted(keys: seq<Key>, cmp: Comparator, universe: set<Key>) {
    SortedBy(keys, cmp.order, cmp.vocabulary) && forall k :: k in keys ==> k in universe
  }

  /** The head of a sorted list is before the rest of it, and not before itself. */
  lemma SortedHead(keys: seq<Key>, cmp: Comparator, universe: set<Key>)
    requires Dictionary(universe, cmp.vocabulary) && KeysSorted(keys, cmp, universe) && keys != []
    ensures KeysSorted(keys[1..], cmp, universe) && keys[0] in keys && !cmp.Less(keys[0], keys[0])
    ensures var first := keys[0];
      forall x :: (x in keys <==> x == first || x in keys[1..]) && (x in keys[1..] ==> cmp.Less(first, x) && x != first)
  {
    hide Dictionary, Above;
    var first, rest := keys[0], keys[1..];
    assert keys == [first] + rest && first in keys;
    LessTotal(cmp, universe, first, first);
    forall x | x in rest ensures cmp.Less(first, x) && x != first {
      var i :| 0 <= i < |rest| && rest[i] == x;
      assert Above(cmp.order, cmp.vocabulary(keys[i + 1]), cmp.vocabulary(keys[0]));
    }
  }

  /** What is before the head of a sorted list is before all of it, and not in it. */
  lemma BeforeHead(t: Key, keys: seq<Key>, cmp: Comparator, universe: set<Key>)
    requires Dictionary(universe, cmp.vocabulary) && KeysSorted(keys, cmp, universe) && keys != []
    requires t in universe && cmp.Less(t, keys[0])
    ensures t !in keys && forall x :: x in keys ==> cmp.Less(t, x)
  {
    hide Dictionary, Comparator.Less, KeysSorted;
    SortedHead(keys, cmp, universe);
    LessTotal(cmp, universe, t, t);
    forall x | x in keys ensures cmp.Less(t, x) {
      InUniverse(keys, cmp, universe, x);
      if x != keys[0] {
        InUniverse(keys, cmp, universe, keys[0]);
        LessTransitive(cmp, universe, t, keys[0], x);
      }
    }
  }

  lemma InUniverse(keys: seq<Key>, cmp: Comparator, universe: set<Key>, x: Key)
    requires KeysSorted(keys, cmp, universe) && x in keys
    ensures x in universe
  {
  }

  lemma PutBefore(t: Key, rest: seq<Key>, cmp: Comparator, universe: set<Key>)
    requires t in universe && KeysSorted(rest, cmp, universe) && forall x :: x in rest ==> cmp.Less(t, x)
    ensures KeysSorted([t] + rest, cmp, universe)
  {
    hide Above;
    PrependSorted(t, rest, cmp.order, cmp.vocabulary);
  }

  lemma ArrangedSorted(some: set<Key>, cmp: Comparator, universe: set<Key>)
    requires Dictionary(universe, cmp.vocabulary) && some <= universe
    ensures KeysSorted(Arranged(some, universe, cmp.order, cmp.vocabulary), cmp, universe)
  {
    hide Dictionary, SortedBy;
  }
}
