/** Merging the version annotations of all chains into one sorted list. */
module CombinedVersions {
  import opened OrderedKeys
  import opened Dictionaries
  import opened TreeIndexes
  import opened VersionAnnotation

  /** Known triples, in the order of a comparator. */
  ghost predicate TriplesSorted(s: seq<TripleVersions>, cmp: Comparator, universe: set<Key>) {
    && (forall i :: 0 <= i < |s| ==> s[i].key in universe)
    && (forall i, j :: 0 <= i < j < |s| ==> cmp.Less(s[i].key, s[j].key))
  }

  ghost predicate TriplesAbove(s: seq<TripleVersions>, cmp: Comparator, k: Key) {
    forall i :: 0 <= i < |s| ==> cmp.Less(k, s[i].key)
  }

  /** The versions listed for a triple. */
  ghost function VersionsIn(s: seq<TripleVersions>, k: Key): set<int> {
    if s == [] then {}
    else if s[0].key == k then Elements(s[0].versions)
    else VersionsIn(s[1..], k)
  }

  /** The union of two increasing lists of versions; `std::set_union`. */
  function MergeVersions(a: seq<int>, b: seq<int>): seq<int>
    decreases |a| + |b|
  {
    if a == [] then b
    else if b == [] then a
    else if a[0] < b[0] then [a[0]] + MergeVersions(a[1..], b)
    else if b[0] < a[0] then [b[0]] + MergeVersions(a, b[1..])
    else [a[0]] + MergeVersions(a[1..], b[1..])
  }

  lemma {:induction false} MergedVersions(a: seq<int>, b: seq<int>)
    requires Increasing(a) && Increasing(b)
    ensures Increasing(MergeVersions(a, b)) && forall v :: v in MergeVersions(a, b) <==> v in a || v in b
    decreases |a| + |b|
  {
    if a != [] && b != [] {
      ListHead(a);
      ListHead(b);
      var x, y := a[0], b[0];
      var rest;
      if x < y {
        MergedVersions(a[1..], b);
        rest := MergeVersions(a[1..], b);
      } else if y < x {
        MergedVersions(a, b[1..]);
        rest := MergeVersions(a, b[1..]);
      } else {
        MergedVersions(a[1..], b[1..]);
        rest := MergeVersions(a[1..], b[1..]);
      }
      IncreasingConcat([if x < y then x else y], rest);
    }
  }

  lemma MergedElements(a: seq<int>, b: seq<int>)
    requires Increasing(a) && Increasing(b)
    ensures Increasing(MergeVersions(a, b)) && Elements(MergeVersions(a, b)) == Elements(a) + Elements(b)
  {
    MergedVersions(a, b);
  }

  /** The merge of two sorted annotated lists; what both list gets both version lists. */
  ghost function Combine(a: seq<TripleVersions>, b: seq<TripleVersions>, cmp: Comparator): seq<TripleVersions>
    decreases |a| + |b|
  {
    if a == [] then b
    else if b == [] then a
    else if cmp.Less(a[0].key, b[0].key) then [a[0]] + Combine(a[1..], b, cmp)
    else if cmp.Less(b[0].key, a[0].key) then [b[0]] + Combine(a, b[1..], cmp)
    else [TripleVersions(a[0].key, MergeVersions(a[0].versions, b[0].versions))] + Combine(a[1..], b[1..], cmp)
  }

  ghost predicate VersionsIncrease(s: seq<TripleVersions>) {
    forall i :: 0 <= i < |s| ==> Increasing(s[i].versions)
  }

  lemma {:induction false} VersionsOfNone(s: seq<TripleVersions>, k: Key)
    requires forall i :: 0 <= i < |s| ==> s[i].key != k
    ensures VersionsIn(s, k) == {}
  {
    if s != [] { VersionsOfNone(s[1..], k); }
  }

  /** What lies before the first triple of a sorted list lies before all of them. */
  lemma BelowHead(s: seq<TripleVersions>, cmp: Comparator, universe: set<Key>, k: Key)
    requires Dictionary(universe, cmp.vocabulary) && TriplesSorted(s, cmp, universe) && k in universe
    requires s != [] ==> cmp.Less(k, s[0].key)
    ensures TriplesAbove(s, cmp, k) && VersionsIn(s, k) == {}
  {
    hide Dictionary, Comparator.Less, VersionsIn;
    forall i | 0 <= i < |s| ensures cmp.Less(k, s[i].key) && s[i].key != k {
      if i > 0 { LessTransitive(cmp, universe, k, s[0].key, s[i].key); }
      LessTotal(cmp, universe, k, k);
    }
    VersionsOfNone(s, k);
  }

  lemma HeadVersions(t: TripleVersions, rest: seq<TripleVersions>, cmp: Comparator, universe: set<Key>)
    requires Dictionary(universe, cmp.vocabulary) && t.key in universe && TriplesSorted(rest, cmp, universe)
    requires TriplesAbove(rest, cmp, t.key) && VersionsIncrease(rest) && Increasing(t.versions)
    ensures TriplesSorted([t] + rest, cmp, universe) && VersionsIncrease([t] + rest)
    ensures forall k :: VersionsIn([t] + rest, k) == if k == t.key then Elements(t.versions) else VersionsIn(rest, k)
    ensures VersionsIn(rest, t.key) == {}
  {
    hide Dictionary, Comparator.Less, Increasing, Elements;
    assert ([t] + rest)[1..] == rest;
    BelowHead(rest, cmp, universe, t.key);
  }

  lemma TailVersions(s: seq<TripleVersions>, cmp: Comparator, universe: set<Key>)
    requires Dictionary(universe, cmp.vocabulary) && TriplesSorted(s, cmp, universe) && VersionsIncrease(s) && s != []
    ensures TriplesSorted(s[1..], cmp, universe) && VersionsIncrease(s[1..]) && TriplesAbove(s[1..], cmp, s[0].key)
    ensures forall k :: VersionsIn(s, k) == if k == s[0].key then Elements(s[0].versions) else VersionsIn(s[1..], k)
    ensures VersionsIn(s[1..], s[0].key) == {}
  {
    hide Dictionary, Comparator.Less, Increasing, Elements;
    HeadVersions(s[0], s[1..], cmp, universe);
    assert s == [s[0]] + s[1..];
  }

  /** The merge stays sorted, and lists for every triple the versions that either side lists. */
  lemma {:induction false} CombineUnites(a: seq<TripleVersions>, b: seq<TripleVersions>, cmp: Comparator,
                                         universe: set<Key>)
    requires Dictionary(universe, cmp.vocabulary) && TriplesSorted(a, cmp, universe) && TriplesSorted(b, cmp, universe)
    requires VersionsIncrease(a) && VersionsIncrease(b)
    ensures TriplesSorted(Combine(a, b, cmp), cmp, universe) && VersionsIncrease(Combine(a, b, cmp))
    ensures forall k :: VersionsIn(Combine(a, b, cmp), k) == VersionsIn(a, k) + VersionsIn(b, k)
    ensures forall k :: TriplesAbove(a, cmp, k) && TriplesAbove(b, cmp, k) ==> TriplesAbove(Combine(a, b, cmp), cmp, k)
    decreases |a| + |b|
  {
    hide MergeVersions, Increasing, Elements, Dictionary, Comparator.Less;
    if a != [] && b != [] {
      TailVersions(a, cmp, universe);
      TailVersions(b, cmp, universe);
      var x, y := a[0], b[0];
      LessTotal(cmp, universe, x.key, y.key);
      if cmp.Less(x.key, y.key) {
        CombineUnites(a[1..], b, cmp, universe);
        BelowHead(b, cmp, universe, x.key);
        HeadVersions(x, Combine(a[1..], b, cmp), cmp, universe);
      } else if cmp.Less(y.key, x.key) {
        CombineUnites(a, b[1..], cmp, universe);
        BelowHead(a, cmp, universe, y.key);
        HeadVersions(y, Combine(a, b[1..], cmp), cmp, universe);
      } else {
        CombineUnites(a[1..], b[1..], cmp, universe);
        MergedElements(x.versions, y.versions);
        var t, rest := TripleVersions(x.key, MergeVersions(x.versions, y.versions)), Combine(a[1..], b[1..], cmp);
        HeadVersions(t, rest, cmp, universe);
        forall k | TriplesAbove(a, cmp, k) && TriplesAbove(b, cmp, k) ensures TriplesAbove([t] + rest, cmp, k) {
          assert cmp.Less(k, a[0].key) && TriplesAbove(a[1..], cmp, k) && TriplesAbove(b[1..], cmp, k);
        }
      }
    }
  }

  /** No triple is listed without a version. */
  ghost predicate AllAnnotated(s: seq<TripleVersions>) {
    forall i :: 0 <= i < |s| ==> s[i].versions != []
  }

  lemma {:induction false} CombineAnnotated(a: seq<TripleVersions>, b: seq<TripleVersions>, cmp: Comparator)
    requires AllAnnotated(a) && AllAnnotated(b)
    ensures AllAnnotated(Combine(a, b, cmp))
    decreases |a| + |b|
  {
    hide Comparator.Less;
    if a != [] && b != [] {
      if cmp.Less(a[0].key, b[0].key) {
        CombineAnnotated(a[1..], b, cmp);
      } else if cmp.Less(b[0].key, a[0].key) {
        CombineAnnotated(a, b[1..], cmp);
      } else {
        CombineAnnotated(a[1..], b[1..], cmp);
      }
    }
  }

  /** Everything before the head of the stream stays where it is. */
  lemma {:induction false} CombineSkips(a: seq<TripleVersions>, b: seq<TripleVersions>, cmp: Comparator, p: nat)
    requires p <= |a| && b != [] && forall i :: 0 <= i < p ==> cmp.Less(a[i].key, b[0].key)
    ensures Combine(a, b, cmp) == a[..p] + Combine(a[p..], b, cmp)
  {
    hide Comparator.Less;
    if p > 0 {
      assert a[1..][..p - 1] == a[1..p] && a[1..][p - 1..] == a[p..];
      CombineSkips(a[1..], b, cmp, p - 1);
      assert a[..p] == [a[0]] + a[1..p];
    }
  }

  /** An annotated stream that is read one by one. */
  class TripleVersionsStream {
    const items: seq<TripleVersions>
    var position: nat

    ghost predicate Valid()
      reads this
    {
      position <= |items|
    }

    ghost function Rest(): seq<TripleVersions>
      reads this
      requires Valid()
    {
      items[position..]
    }

    constructor (items: seq<TripleVersions>)
      ensures Valid() && Rest() == items
    {
      this.items := items;
      position := 0;
    }

    method Next() returns (found: bool, t: TripleVersions)
      requires Valid()
      modifies this
      ensures Valid()
      ensures if old(Rest()) == [] then !found && Rest() == [] else found && old(Rest()) == [t] + Rest()
    {
      if position < |items| {
        found, t := true, items[position];
        position := position + 1;
      } else {
        found, t := false, TripleVersions(0, []);
      }
    }
  }

  /** `std::lower_bound` from place `from` on. */
  function LowerTriple(s: seq<TripleVersions>, from: nat, k: Key, cmp: Comparator): (r: nat)
    requires from <= |s|
    ensures from <= r <= |s|
    ensures forall i :: from <= i < r ==> cmp.Less(s[i].key, k)
    ensures r < |s| ==> !cmp.Less(s[r].key, k)
    decreases |s| - from
  {
    if from == |s| || !cmp.Less(s[from].key, k) then from else LowerTriple(s, from + 1, k, cmp)
  }

  class TripleVersionsIteratorCombined {
    const cmp: Comparator
    var triples: seq<TripleVersions>

    constructor (cmp: Comparator)
      ensures triples == [] && this.cmp == cmp
    {
      this.cmp := cmp;
      triples := [];
    }

    /** Puts a triple at its place: unites its versions with those of the same triple, or inserts it. */
    method Place(t: TripleVersions, pos: nat, ghost rest: seq<TripleVersions>)
      requires pos <= |triples| && (pos < |triples| ==> !cmp.Less(triples[pos].key, t.key))
      modifies this
      ensures pos + 1 <= |triples|
      ensures triples[..pos + 1] + Combine(triples[pos + 1..], rest, cmp) ==
              old(triples)[..pos] + Combine(old(triples)[pos..], [t] + rest, cmp)
      ensures rest == [] ==> triples == old(triples)[..pos] + Combine(old(triples)[pos..], [t] + rest, cmp)
    {
      hide MergeVersions, Combine, Comparator.Less;
      CombineStep(triples[pos..], t, rest, cmp);
      ghost var before := triples;
      if pos < |triples| {
        if cmp.Less(t.key, triples[pos].key) {
          triples := triples[..pos] + [t] + triples[pos..];
          Placed(before, pos, 0, t, triples, rest, cmp);
        } else {
          var nv := MergeVersions(triples[pos].versions, t.versions);
          triples := triples[pos := TripleVersions(triples[pos].key, nv)];
          Placed(before, pos, 1, triples[pos], triples, rest, cmp);
        }
      } else {
        triples := triples + [t];
        Placed(before, pos, 0, t, triples, rest, cmp);
      }
    }

    /** Merges a sorted stream into the sorted list, in place. */
    method AddIterator(it: TripleVersionsStream)
      requires it.Valid()
      modifies this, it
      ensures triples == Combine(old(triples), old(it.Rest()), cmp)
    {
      hide MergeVersions, Combine, LowerTriple, Comparator.Less;
      ghost var goal := Combine(triples, it.Rest(), cmp);
      NothingCombined(triples, cmp);
      var status, t := it.Next();
      var pos: nat := 0;
      assert triples[0..] == triples;
      if status {
        pos := LowerTriple(triples, 0, t.key, cmp);
        CombineSkips(triples, [t] + it.Rest(), cmp, pos);
      }
      while status
        invariant it.Valid() && pos <= |triples|
        invariant status ==> triples[..pos] + Combine(triples[pos..], [t] + it.Rest(), cmp) == goal
        invariant !status ==> triples == goal
        decreases |it.items| - it.position, status, |triples| - pos
      {
        if pos < |triples| && cmp.Less(triples[pos].key, t.key) {
          ghost var start := pos;
          pos := LowerTriple(triples, pos, t.key, cmp);
          SkipMore(triples, start, pos, t, it.Rest(), cmp);
        } else {
          ghost var rest := it.Rest();
          Place(t, pos, rest);
          pos := pos + 1;
          status, t := it.Next();
        }
      }
    }
  }

  lemma NothingCombined(a: seq<TripleVersions>, cmp: Comparator)
    ensures Combine(a, [], cmp) == a
  {
  }

  lemma CombineStep(left: seq<TripleVersions>, t: TripleVersions, rest: seq<TripleVersions>, cmp: Comparator)
    requires left != [] ==> !cmp.Less(left[0].key, t.key)
    ensures Combine(left, [t] + rest, cmp) ==
      if left != [] && !cmp.Less(t.key, left[0].key)
      then [TripleVersions(left[0].key, MergeVersions(left[0].versions, t.versions))] + Combine(left[1..], rest, cmp)
      else [t] + Combine(left, rest, cmp)
  {
    hide Comparator.Less;
    assert ([t] + rest)[1..] == rest;
  }

  lemma SkipMore(triples: seq<TripleVersions>, start: nat, pos: nat, t: TripleVersions, rest: seq<TripleVersions>,
                 cmp: Comparator)
    requires start <= pos <= |triples| && forall i :: start <= i < pos ==> cmp.Less(triples[i].key, t.key)
    ensures triples[..start] + Combine(triples[start..], [t] + rest, cmp) ==
            triples[..pos] + Combine(triples[pos..], [t] + rest, cmp)
  {
    hide Combine, Comparator.Less;
    var left := triples[start..];
    CombineSkips(left, [t] + rest, cmp, pos - start);
    assert triples[..start] + left[..pos - start] == triples[..pos] && left[pos - start..] == triples[pos..];
  }

  /** After a triple has been placed, over `n` triples, what is left to do lies behind it. */
  lemma Placed(before: seq<TripleVersions>, pos: nat, n: nat, t: TripleVersions, after: seq<TripleVersions>,
               rest: seq<TripleVersions>, cmp: Comparator)
    requires pos + n <= |before| && after == before[..pos] + [t] + before[pos + n..]
    ensures after[..pos + 1] + Combine(after[pos + 1..], rest, cmp) ==
            before[..pos] + ([t] + Combine(before[pos..][n..], rest, cmp))
    ensures rest == [] ==> after == before[..pos] + ([t] + Combine(before[pos..][n..], rest, cmp))
  {
    hide Comparator.Less;
    assert after[..pos + 1] == before[..pos] + [t] && after[pos + 1..] == before[pos + n..] == before[pos..][n..];
    NothingCombined(before[pos..][n..], cmp);
  }
}
