/** Signed differences between versions as sorted streams, and the iterators that compute one from two others. */
module DeltaStreams {
  import opened OrderedKeys
  import opened Dictionaries
  import opened TreeIndexes

  datatype TripleDelta = TripleDelta(key: Key, isAddition: bool)

  /** Changes of known triples, in the order of a comparator. */
  ghost predicate DeltasSorted(s: seq<TripleDelta>, cmp: Comparator, universe: set<Key>) {
    && (forall i :: 0 <= i < |s| ==> s[i].key in universe)
    && (forall i, j :: 0 <= i < j < |s| ==> cmp.Less(s[i].key, s[j].key))
  }

  ghost predicate AllAbove(s: seq<TripleDelta>, cmp: Comparator, k: Key) {
    forall i :: 0 <= i < |s| ==> cmp.Less(k, s[i].key)
  }

  /** What a stream says of a triple. */
  ghost function SignIn(s: seq<TripleDelta>, k: Key): Option<bool> {
    if s == [] then None
    else if s[0].key == k then Some(s[0].isAddition)
    else SignIn(s[1..], k)
  }

  /** The stream is the signed difference of two sets: sorted, each differing triple once, with the sign of the
      second. */
  ghost predicate IsDelta(s: seq<TripleDelta>, x: set<Key>, y: set<Key>, cmp: Comparator, universe: set<Key>) {
    DeltasSorted(s, cmp, universe) &&
    forall k :: SignIn(s, k) == if (k in x) == (k in y) then None else Some(k in y)
  }

  lemma {:induction false} NoSign(s: seq<TripleDelta>, k: Key)
    requires forall i :: 0 <= i < |s| ==> s[i].key != k
    ensures SignIn(s, k) == None
  {
    if s != [] { NoSign(s[1..], k); }
  }

  /** What comes before the first change of a stream comes before all of them, and is not told of. */
  lemma BeforeFirst(s: seq<TripleDelta>, cmp: Comparator, universe: set<Key>, k: Key)
    requires Dictionary(universe, cmp.vocabulary) && DeltasSorted(s, cmp, universe) && k in universe
    requires s != [] ==> cmp.Less(k, s[0].key)
    ensures AllAbove(s, cmp, k) && SignIn(s, k) == None
  {
    hide Dictionary, Comparator.Less, SignIn;
    forall i | 0 <= i < |s| ensures cmp.Less(k, s[i].key) && s[i].key != k {
      if i > 0 { LessTransitive(cmp, universe, k, s[0].key, s[i].key); }
      LessTotal(cmp, universe, k, k);
    }
    NoSign(s, k);
  }

  lemma HeadApart(s: seq<TripleDelta>, cmp: Comparator, universe: set<Key>)
    requires Dictionary(universe, cmp.vocabulary) && DeltasSorted(s, cmp, universe) && s != []
    ensures DeltasSorted(s[1..], cmp, universe) && AllAbove(s[1..], cmp, s[0].key) && s[0].key in universe
    ensures SignIn(s[1..], s[0].key) == None
  {
    hide Dictionary, Comparator.Less, SignIn;
    BeforeFirst(s[1..], cmp, universe, s[0].key);
  }

  lemma HeadOn(d: TripleDelta, rest: seq<TripleDelta>, cmp: Comparator, universe: set<Key>)
    requires DeltasSorted(rest, cmp, universe) && AllAbove(rest, cmp, d.key) && d.key in universe
    ensures DeltasSorted([d] + rest, cmp, universe)
    ensures forall k :: SignIn([d] + rest, k) == if k == d.key then Some(d.isAddition) else SignIn(rest, k)
  {
    hide Comparator.Less;
    assert ([d] + rest)[1..] == rest;
  }

  /** There is only one signed difference of two sets in an order. */
  lemma {:induction false} DeltaUnique(a: seq<TripleDelta>, b: seq<TripleDelta>, cmp: Comparator, universe: set<Key>)
    requires Dictionary(universe, cmp.vocabulary) && DeltasSorted(a, cmp, universe) && DeltasSorted(b, cmp, universe)
    requires forall k :: SignIn(a, k) == SignIn(b, k)
    ensures a == b
  {
    hide Dictionary, Comparator.Less, DeltasSorted;
    if a != [] && b != [] {
      HeadApart(a, cmp, universe);
      HeadApart(b, cmp, universe);
      var j, k := a[0].key, b[0].key;
      assert SignIn(a, j).Some? && SignIn(b, k).Some?;
      LessTotal(cmp, universe, j, k);
      if cmp.Less(j, k) { BeforeFirst(b, cmp, universe, j); }
      if cmp.Less(k, j) { BeforeFirst(a, cmp, universe, k); }
      assert j == k;
      forall x ensures SignIn(a[1..], x) == SignIn(b[1..], x) {
        if x != k { assert SignIn(a, x) == SignIn(b, x); }
      }
      DeltaUnique(a[1..], b[1..], cmp, universe);
      assert a == [a[0]] + a[1..] && b == [b[0]] + b[1..];
    } else {
      assert a != [] ==> SignIn(a, a[0].key) == SignIn(b, a[0].key);
      assert b != [] ==> SignIn(a, b[0].key) == SignIn(b, b[0].key);
    }
  }

  // ----- specifications of the merges

  /** First one difference, then the other: changes that undo each other vanish. */
  ghost function Compose(a: seq<TripleDelta>, b: seq<TripleDelta>, cmp: Comparator): seq<TripleDelta>
    decreases |a| + |b|
  {
    if a == [] then b
    else if b == [] then a
    else if a[0].key == b[0].key then
      if a[0].isAddition != b[0].isAddition then Compose(a[1..], b[1..], cmp) else [b[0]] + Compose(a[1..], b[1..], cmp)
    else if cmp.Less(a[0].key, b[0].key) then [a[0]] + Compose(a[1..], b, cmp)
    else [b[0]] + Compose(a, b[1..], cmp)
  }

  ghost function Inverted(a: seq<TripleDelta>): seq<TripleDelta> {
    if a == [] then [] else [TripleDelta(a[0].key, !a[0].isAddition)] + Inverted(a[1..])
  }

  /** Back along one difference, and forth along the other from the same start. */
  ghost function Divert(a: seq<TripleDelta>, b: seq<TripleDelta>, cmp: Comparator): seq<TripleDelta>
    decreases |a| + |b|
  {
    if a == [] then b
    else if b == [] then Inverted(a)
    else if a[0].key == b[0].key then Divert(a[1..], b[1..], cmp)
    else if cmp.Less(a[0].key, b[0].key) then [TripleDelta(a[0].key, !a[0].isAddition)] + Divert(a[1..], b, cmp)
    else [b[0]] + Divert(a, b[1..], cmp)
  }

  /** A sorted list as the difference from nothing. */
  ghost function Additions(a: seq<Key>): seq<TripleDelta> {
    if a == [] then [] else [TripleDelta(a[0], true)] + Additions(a[1..])
  }

  lemma DivertAlone(a: seq<TripleDelta>, cmp: Comparator)
    ensures Divert(a, [], cmp) == Inverted(a) && Divert([], a, cmp) == a
  {
  }

  function ComposeSign(x: Option<bool>, y: Option<bool>): Option<bool> {
    if x.None? then y else if y.None? then x else if x != y then None else y
  }

  function DivertSign(x: Option<bool>, y: Option<bool>): Option<bool> {
    if x.None? then y else if y.None? then Some(!x.value) else None
  }

  lemma {:induction false} ComposeSigns(a: seq<TripleDelta>, b: seq<TripleDelta>, cmp: Comparator, universe: set<Key>)
    requires Dictionary(universe, cmp.vocabulary) && DeltasSorted(a, cmp, universe) && DeltasSorted(b, cmp, universe)
    ensures DeltasSorted(Compose(a, b, cmp), cmp, universe)
    ensures forall k :: SignIn(Compose(a, b, cmp), k) == ComposeSign(SignIn(a, k), SignIn(b, k))
    ensures forall k :: AllAbove(a, cmp, k) && AllAbove(b, cmp, k) ==> AllAbove(Compose(a, b, cmp), cmp, k)
    decreases |a| + |b|
  {
    hide Dictionary, Comparator.Less, DeltasSorted;
    if a != [] && b != [] {
      HeadApart(a, cmp, universe);
      HeadApart(b, cmp, universe);
      var j, k := a[0].key, b[0].key;
      LessTotal(cmp, universe, j, k);
      if j == k {
        ComposeSigns(a[1..], b[1..], cmp, universe);
        HeadOn(b[0], Compose(a[1..], b[1..], cmp), cmp, universe);
        forall x | AllAbove(a, cmp, x) && AllAbove(b, cmp, x) ensures AllAbove(Compose(a, b, cmp), cmp, x) {
          assert AllAbove(a[1..], cmp, x) && AllAbove(b[1..], cmp, x) && cmp.Less(x, b[0].key);
        }
      } else if cmp.Less(j, k) {
        ComposeSigns(a[1..], b, cmp, universe);
        BeforeFirst(b, cmp, universe, j);
        HeadOn(a[0], Compose(a[1..], b, cmp), cmp, universe);
      } else {
        ComposeSigns(a, b[1..], cmp, universe);
        BeforeFirst(a, cmp, universe, k);
        HeadOn(b[0], Compose(a, b[1..], cmp), cmp, universe);
      }
    }
  }

  lemma {:induction false} InvertedSigns(a: seq<TripleDelta>, cmp: Comparator, universe: set<Key>)
    requires Dictionary(universe, cmp.vocabulary) && DeltasSorted(a, cmp, universe)
    ensures DeltasSorted(Inverted(a), cmp, universe)
    ensures forall k :: SignIn(Inverted(a), k) == DivertSign(SignIn(a, k), None)
    ensures forall k :: AllAbove(a, cmp, k) ==> AllAbove(Inverted(a), cmp, k)
  {
    hide Dictionary, Comparator.Less, DeltasSorted;
    if a != [] {
      HeadApart(a, cmp, universe);
      InvertedSigns(a[1..], cmp, universe);
      HeadOn(TripleDelta(a[0].key, !a[0].isAddition), Inverted(a[1..]), cmp, universe);
      forall k | AllAbove(a, cmp, k) ensures AllAbove(Inverted(a), cmp, k) { assert AllAbove(a[1..], cmp, k); }
    } else {
      assert Inverted(a) == a;
    }
  }

  lemma {:induction false} DivertSigns(a: seq<TripleDelta>, b: seq<TripleDelta>, cmp: Comparator, universe: set<Key>)
    requires Dictionary(universe, cmp.vocabulary) && DeltasSorted(a, cmp, universe) && DeltasSorted(b, cmp, universe)
    ensures DeltasSorted(Divert(a, b, cmp), cmp, universe)
    ensures forall k :: SignIn(Divert(a, b, cmp), k) == DivertSign(SignIn(a, k), SignIn(b, k))
    ensures forall k :: AllAbove(a, cmp, k) && AllAbove(b, cmp, k) ==> AllAbove(Divert(a, b, cmp), cmp, k)
    decreases |a| + |b|
  {
    hide Dictionary, Comparator.Less, DeltasSorted;
    InvertedSigns(a, cmp, universe);
    if a != [] && b != [] {
      HeadApart(a, cmp, universe);
      HeadApart(b, cmp, universe);
      var j, k := a[0].key, b[0].key;
      LessTotal(cmp, universe, j, k);
      if j == k {
        DivertSigns(a[1..], b[1..], cmp, universe);
      } else if cmp.Less(j, k) {
        DivertSigns(a[1..], b, cmp, universe);
        BeforeFirst(b, cmp, universe, j);
        HeadOn(TripleDelta(j, !a[0].isAddition), Divert(a[1..], b, cmp), cmp, universe);
      } else {
        DivertSigns(a, b[1..], cmp, universe);
        BeforeFirst(a, cmp, universe, k);
        HeadOn(b[0], Divert(a, b[1..], cmp), cmp, universe);
      }
    }
  }

  lemma {:induction false} AdditionsSigns(a: seq<Key>, cmp: Comparator, universe: set<Key>)
    requires Dictionary(universe, cmp.vocabulary) && KeysSorted(a, cmp, universe)
    ensures DeltasSorted(Additions(a), cmp, universe)
    ensures forall k :: SignIn(Additions(a), k) == if k in a then Some(true) else None
    ensures forall k :: (forall x :: x in a ==> cmp.Less(k, x)) ==> AllAbove(Additions(a), cmp, k)
  {
    hide Dictionary, Comparator.Less, KeysSorted;
    if a != [] {
      var first, rest := a[0], a[1..];
      SortedHead(a, cmp, universe);
      InUniverse(a, cmp, universe, first);
      AdditionsSigns(rest, cmp, universe);
      HeadOn(TripleDelta(first, true), Additions(rest), cmp, universe);
      forall k | forall x :: x in a ==> cmp.Less(k, x) ensures AllAbove(Additions(a), cmp, k) {
        assert AllAbove(Additions(rest), cmp, k) && cmp.Less(k, first);
      }
    }
  }

  // ----- the algebra

  /** Differences compose. */
  lemma ComposeIsDelta(a: seq<TripleDelta>, b: seq<TripleDelta>, x: set<Key>, y: set<Key>, z: set<Key>, cmp: Comparator,
                       universe: set<Key>)
    requires Dictionary(universe, cmp.vocabulary) && IsDelta(a, x, y, cmp, universe) && IsDelta(b, y, z, cmp, universe)
    ensures IsDelta(Compose(a, b, cmp), x, z, cmp, universe)
  {
    hide Dictionary, Comparator.Less, DeltasSorted;
    ComposeSigns(a, b, cmp, universe);
  }

  /** Two differences from the same set give the one between their ends. */
  lemma DivertIsDelta(a: seq<TripleDelta>, b: seq<TripleDelta>, s: set<Key>, y: set<Key>, z: set<Key>, cmp: Comparator,
                      universe: set<Key>)
    requires Dictionary(universe, cmp.vocabulary) && IsDelta(a, s, y, cmp, universe) && IsDelta(b, s, z, cmp, universe)
    ensures IsDelta(Divert(a, b, cmp), y, z, cmp, universe)
  {
    hide Dictionary, Comparator.Less, DeltasSorted;
    DivertSigns(a, b, cmp, universe);
  }

  /** The difference of two sorted lists, both taken as differences from nothing. */
  lemma ListsDivert(a: seq<Key>, b: seq<Key>, x: set<Key>, y: set<Key>, cmp: Comparator, universe: set<Key>)
    requires Dictionary(universe, cmp.vocabulary) && KeysSorted(a, cmp, universe) && KeysSorted(b, cmp, universe)
    requires forall k :: k in a <==> k in x
    requires forall k :: k in b <==> k in y
    ensures IsDelta(Divert(Additions(a), Additions(b), cmp), x, y, cmp, universe)
  {
    hide Dictionary, Comparator.Less, DeltasSorted, KeysSorted;
    AdditionsSigns(a, cmp, universe);
    AdditionsSigns(b, cmp, universe);
    DivertIsDelta(Additions(a), Additions(b), {}, x, y, cmp, universe);
  }

  // ----- the iterators

  /** A stream of changes that is read one by one. */
  class DeltaStream {
    const deltas: seq<TripleDelta>
    var position: nat

    ghost predicate Valid()
      reads this
    {
      position <= |deltas|
    }

    ghost function Rest(): seq<TripleDelta>
      reads this
      requires Valid()
    {
      deltas[position..]
    }

    constructor (deltas: seq<TripleDelta>)
      ensures Valid() && Rest() == deltas
    {
      this.deltas := deltas;
      position := 0;
    }

    method Next() returns (found: bool, delta: TripleDelta)
      requires Valid()
      modifies this
      ensures Valid()
      ensures if old(Rest()) == [] then !found && Rest() == []
              else found && delta == old(Rest())[0] && Rest() == old(Rest())[1..]
    {
      if position < |deltas| {
        found, delta := true, deltas[position];
        position := position + 1;
      } else {
        found, delta := false, TripleDelta(0, false);
      }
    }
  }

  ghost function Pending(status: bool, triple: TripleDelta, rest: seq<TripleDelta>): seq<TripleDelta> {
    if status then [triple] + rest else []
  }

  class MergeDiffIterator {
    const it1: DeltaStream
    const it2: DeltaStream
    const cmp: Comparator
    var status1: bool
    var status2: bool
    var triple1: TripleDelta
    var triple2: TripleDelta

    ghost predicate Valid()
      reads this, it1, it2
    {
      it1 != it2 && it1.Valid() && it2.Valid()
    }

    ghost function Left(): seq<TripleDelta>
      reads this, it1, it2
      requires Valid()
    {
      Pending(status1, triple1, it1.Rest())
    }

    ghost function Right(): seq<TripleDelta>
      reads this, it1, it2
      requires Valid()
    {
      Pending(status2, triple2, it2.Rest())
    }

    constructor (iterator1: DeltaStream, iterator2: DeltaStream, cmp: Comparator)
      requires iterator1 != iterator2 && iterator1.Valid() && iterator2.Valid()
      modifies iterator1, iterator2
      ensures Valid() && it1 == iterator1 && it2 == iterator2 && this.cmp == cmp
      ensures Left() == old(iterator1.Rest()) && Right() == old(iterator2.Rest())
    {
      it1, it2, this.cmp := iterator1, iterator2, cmp;
      new;
      status1, triple1 := it1.Next();
      status2, triple2 := it2.Next();
    }

    method Step1()
      requires Valid() && status1
      modifies `status1, `triple1, it1
      ensures Valid() && Left() == old(Left())[1..] && Right() == old(Right())
    {
      status1, triple1 := it1.Next();
    }

    method Step2()
      requires Valid() && status2
      modifies `status2, `triple2, it2
      ensures Valid() && Right() == old(Right())[1..] && Left() == old(Left())
    {
      status2, triple2 := it2.Next();
    }

    /** Skips the triples that both streams have, with different flags. */
    method SkipUndone()
      requires Valid()
      modifies this, it1, it2
      ensures Valid() && Compose(Left(), Right(), cmp) == old(Compose(Left(), Right(), cmp))
      ensures status1 && status2 && triple1.key == triple2.key ==> triple1.isAddition == triple2.isAddition
    {
      while status1 && status2 && triple1.key == triple2.key && triple1.isAddition != triple2.isAddition
        invariant Valid() && Compose(Left(), Right(), cmp) == old(Compose(Left(), Right(), cmp))
        decreases |Left()|
      {
        Step1();
        Step2();
      }
    }

    /** Delivers the composition of the two differences, one change at a time. */
    method Next() returns (found: bool, triple: TripleDelta)
      requires Valid()
      modifies this, it1, it2
      ensures Valid()
      ensures var rest := old(Compose(Left(), Right(), cmp));
        if rest == [] then !found && Compose(Left(), Right(), cmp) == []
        else found && triple == rest[0] && Compose(Left(), Right(), cmp) == rest[1..]
    {
      SkipUndone();
      triple := TripleDelta(0, false);
      if status1 && status2 {
        if triple1.key == triple2.key {
          triple := triple2;
          Step1();
          Step2();
        } else if cmp.Less(triple1.key, triple2.key) {
          triple := triple1;
          Step1();
        } else {
          triple := triple2;
          Step2();
        }
        return true, triple;
      } else if status1 {
        triple := triple1;
        Step1();
        return true, triple;
      } else if status2 {
        triple := triple2;
        Step2();
        return true, triple;
      }
      return false, triple;
    }
  }

  class MergeDiffIteratorCase2 {
    const it1: DeltaStream
    const it2: DeltaStream
    const cmp: Comparator
    var status1: bool
    var status2: bool
    var triple1: TripleDelta
    var triple2: TripleDelta

    ghost predicate Valid()
      reads this, it1, it2
    {
      it1 != it2 && it1.Valid() && it2.Valid()
    }

    ghost function Left(): seq<TripleDelta>
      reads this, it1, it2
      requires Valid()
    {
      Pending(status1, triple1, it1.Rest())
    }

    ghost function Right(): seq<TripleDelta>
      reads this, it1, it2
      requires Valid()
    {
      Pending(status2, triple2, it2.Rest())
    }

    constructor (iterator1: DeltaStream, iterator2: DeltaStream, cmp: Comparator)
      requires iterator1 != iterator2 && iterator1.Valid() && iterator2.Valid()
      modifies iterator1, iterator2
      ensures Valid() && it1 == iterator1 && it2 == iterator2 && this.cmp == cmp
      ensures Left() == old(iterator1.Rest()) && Right() == old(iterator2.Rest())
    {
      it1, it2, this.cmp := iterator1, iterator2, cmp;
      new;
      status1, triple1 := it1.Next();
      status2, triple2 := it2.Next();
    }

    method Step1()
      requires Valid() && status1
      modifies `status1, `triple1, it1
      ensures Valid() && Left() == old(Left())[1..] && Right() == old(Right())
    {
      status1, triple1 := it1.Next();
    }

    method Step2()
      requires Valid() && status2
      modifies `status2, `triple2, it2
      ensures Valid() && Right() == old(Right())[1..] && Left() == old(Left())
    {
      status2, triple2 := it2.Next();
    }

    /** Skips the triples that both streams have, whatever their flags. */
    method SkipShared()
      requires Valid()
      modifies this, it1, it2
      ensures Valid() && Divert(Left(), Right(), cmp) == old(Divert(Left(), Right(), cmp))
      ensures status1 && status2 ==> triple1.key != triple2.key
    {
      while status1 && status2 && triple1.key == triple2.key
        invariant Valid() && Divert(Left(), Right(), cmp) == old(Divert(Left(), Right(), cmp))
        decreases |Left()|
      {
        Step1();
        Step2();
      }
    }

    /** Delivers the way back along the first difference and forth along the second, one change at a time. */
    method Next() returns (found: bool, triple: TripleDelta)
      requires Valid()
      modifies this, it1, it2
      ensures Valid()
      ensures var rest := old(Divert(Left(), Right(), cmp));
        if rest == [] then !found && Divert(Left(), Right(), cmp) == []
        else found && triple == rest[0] && Divert(Left(), Right(), cmp) == rest[1..]
    {
      SkipShared();
      triple := TripleDelta(0, false);
      if status1 && !status2 {
        DivertAlone(Left(), cmp);
        DivertAlone(Left()[1..], cmp);
      }
      if status1 && status2 {
        if cmp.Less(triple1.key, triple2.key) {
          triple := TripleDelta(triple1.key, !triple1.isAddition);
          Step1();
        } else {
          triple := triple2;
          Step2();
        }
        return true, triple;
      } else if status1 {
        triple := TripleDelta(triple1.key, !triple1.isAddition);
        Step1();
        return true, triple;
      } else if status2 {
        triple := triple2;
        Step2();
        return true, triple;
      }
      return false, triple;
    }
  }

  /** The matches of a snapshot, read one by one; None past the end. */
  class SnapshotStream {
    const triples: seq<Key>
    var position: nat

    ghost predicate Valid()
      reads this
    {
      position <= |triples|
    }

    ghost function Rest(): seq<Key>
      reads this
      requires Valid()
    {
      triples[position..]
    }

    constructor (triples: seq<Key>)
      ensures Valid() && Rest() == triples
    {
      this.triples := triples;
      position := 0;
    }

    method Next() returns (t: Option<Key>)
      requires Valid()
      modifies this
      ensures Valid()
      ensures if old(Rest()) == [] then t == None && Rest() == []
              else t == Some(old(Rest())[0]) && Rest() == old(Rest())[1..]
    {
      if position < |triples| {
        t := Some(triples[position]);
        position := position + 1;
      } else {
        t := None;
      }
    }
  }

  ghost function Held(t: Option<Key>, rest: seq<Key>): seq<Key> {
    if t.Some? then [t.value] + rest else []
  }

  class SnapshotDiffIterator {
    const snapshotIt1: SnapshotStream
    const snapshotIt2: SnapshotStream
    const cmp: Comparator
    var t1: Option<Key>
    var t2: Option<Key>

    ghost predicate Valid()
      reads this, snapshotIt1, snapshotIt2
    {
      snapshotIt1 != snapshotIt2 && snapshotIt1.Valid() && snapshotIt2.Valid()
    }

    /** What is still to be delivered. */
    ghost function Rest(): seq<TripleDelta>
      reads this, snapshotIt1, snapshotIt2
      requires Valid()
    {
      Divert(Additions(Held(t1, snapshotIt1.Rest())), Additions(Held(t2, snapshotIt2.Rest())), cmp)
    }

    constructor (triples1: seq<Key>, triples2: seq<Key>, cmp: Comparator)
      ensures Valid() && Rest() == Divert(Additions(triples1), Additions(triples2), cmp)
      ensures fresh(snapshotIt1) && fresh(snapshotIt2) && this.cmp == cmp
    {
      snapshotIt1 := new SnapshotStream(triples1);
      snapshotIt2 := new SnapshotStream(triples2);
      t1, t2 := None, None;
      this.cmp := cmp;
      new;
      t1 := snapshotIt1.Next();
      t2 := snapshotIt2.Next();
      assert Held(t1, snapshotIt1.Rest()) == triples1 && Held(t2, snapshotIt2.Rest()) == triples2;
    }

    method EmitDeletion() returns (triple: TripleDelta)
      requires Valid() && t1.Some? && (t2.Some? ==> t1 != t2 && cmp.Less(t1.value, t2.value))
      modifies `t1, snapshotIt1
      ensures Valid() && old(Rest()) == [triple] + Rest()
    {
      triple := TripleDelta(t1.value, false);
      ghost var held := Held(t1, snapshotIt1.Rest());
      t1 := snapshotIt1.Next();
      assert held[1..] == Held(t1, snapshotIt1.Rest());
      DivertAlone(Additions(held), cmp);
      DivertAlone(Additions(held[1..]), cmp);
    }

    method EmitAddition() returns (triple: TripleDelta)
      requires Valid() && t2.Some? && (t1.Some? ==> t1 != t2 && !cmp.Less(t1.value, t2.value))
      modifies `t2, snapshotIt2
      ensures Valid() && old(Rest()) == [triple] + Rest()
    {
      triple := TripleDelta(t2.value, true);
      ghost var held := Held(t2, snapshotIt2.Rest());
      t2 := snapshotIt2.Next();
      assert held[1..] == Held(t2, snapshotIt2.Rest());
    }

    /** Skips the triples that both snapshots have. */
    method SkipShared()
      requires Valid()
      modifies this, snapshotIt1, snapshotIt2
      ensures Valid() && Rest() == old(Rest())
      ensures t1.Some? && t2.Some? ==> t1 != t2
    {
      while t1.Some? && t2.Some? && t1 == t2
        invariant Valid() && Rest() == old(Rest())
        decreases |Held(t1, snapshotIt1.Rest())|
      {
        ghost var held1, held2 := Held(t1, snapshotIt1.Rest()), Held(t2, snapshotIt2.Rest());
        t1 := snapshotIt1.Next();
        t2 := snapshotIt2.Next();
        assert held1[1..] == Held(t1, snapshotIt1.Rest()) && held2[1..] == Held(t2, snapshotIt2.Rest());
      }
    }

    /** Delivers the difference of the two snapshots, one change at a time. */
    method Next() returns (found: bool, triple: TripleDelta)
      requires Valid()
      modifies this, snapshotIt1, snapshotIt2
      ensures Valid()
      ensures if found then old(Rest()) == [triple] + Rest() else old(Rest()) == [] == Rest()
    {
      triple := TripleDelta(0, false);
      SkipShared();
      if t1.Some? && (t2.None? || cmp.Less(t1.value, t2.value)) {
        triple := EmitDeletion();
        return true, triple;
      } else if t2.Some? {
        triple := EmitAddition();
        return true, triple;
      }
      return false, triple;
    }
  }
}
