/** The order in which a merge of two walks delivers, and when it is that of the walks. */
module MergeOrders {
  import opened OrderedKeys
  import opened Triples
  import opened Dictionaries
  import opened TreeIndexes
  import opened PatchTreeIterators

  /** The merge of two walks in the order of their index. */
  ghost function MergedBy(dels: seq<Key>, adds: seq<Key>, cmp: Comparator): seq<Found>
    decreases |dels| + |adds|
  {
    if dels == [] && adds == [] then []
    else if adds == [] || (dels != [] && cmp.Less(dels[0], adds[0])) then
      [Found(dels[0], true, false)] + MergedBy(dels[1..], adds, cmp)
    else if dels == [] || cmp.Less(adds[0], dels[0]) then [Found(adds[0], false, true)] + MergedBy(dels, adds[1..], cmp)
    else [Found(dels[0], true, true)] + MergedBy(dels[1..], adds[1..], cmp)
  }

  /** A lost triple and a gained one between which the order puts none of either: a merge in this order compares the
      two. */
  ghost predicate NextTo(dels: set<Key>, adds: set<Key>, x: Key, y: Key, cmp: Comparator) {
    && x in dels && y in adds && x != y
    && (forall z :: z in adds && cmp.Less(z, y) ==> cmp.Less(z, x))
    && (forall z :: z in dels && cmp.Less(z, x) ==> cmp.Less(z, y))
  }

  /** On such neighbours the order and the SPO order agree. */
  ghost predicate OrdersAgree(dels: set<Key>, adds: set<Key>, cmp: Comparator) {
    forall x, y :: NextTo(dels, adds, x, y, cmp) ==> (x < y <==> cmp.Less(x, y))
  }

  /** What is left of a walk behind the head of the merge. */
  ghost function RestOf(keys: seq<Key>, taken: bool): seq<Key> {
    if taken && keys != [] then keys[1..] else keys
  }

  /** Everything in the two lists comes behind a triple. */
  ghost predicate Below(k: Key, dels: seq<Key>, adds: seq<Key>, cmp: Comparator) {
    forall x :: x in dels || x in adds ==> cmp.Less(k, x)
  }

  /** The first triple of the merge, and what is left of it. */
  lemma MergedRest(dels: seq<Key>, adds: seq<Key>, cmp: Comparator, universe: set<Key>)
    requires Dictionary(universe, cmp.vocabulary) && KeysSorted(dels, cmp, universe) && KeysSorted(adds, cmp, universe)
    requires dels != [] || adds != []
    ensures MergedBy(dels, adds, cmp) != []
    ensures var m, f := MergedBy(dels, adds, cmp), MergedBy(dels, adds, cmp)[0];
      var restDels, restAdds := RestOf(dels, f.deleted), RestOf(adds, f.added);
      && f.key in universe && (f.deleted || f.added) && Below(f.key, restDels, restAdds, cmp)
      && m[1..] == MergedBy(restDels, restAdds, cmp)
      && KeysSorted(restDels, cmp, universe) && KeysSorted(restAdds, cmp, universe)
      && |restDels| + |restAdds| < |dels| + |adds|
      && (f.deleted <==> f.key in dels) && (f.added <==> f.key in adds)
      && (forall k :: k in dels <==> k in restDels || (k == f.key && f.deleted))
      && (forall k :: k in adds <==> k in restAdds || (k == f.key && f.added))
  {
    hide Dictionary, Comparator.Less, KeysSorted;
    if dels != [] { SortedHead(dels, cmp, universe); InUniverse(dels, cmp, universe, dels[0]); }
    if adds != [] { SortedHead(adds, cmp, universe); InUniverse(adds, cmp, universe, adds[0]); }
    if dels != [] && adds != [] {
      LessTotal(cmp, universe, dels[0], adds[0]);
      if cmp.Less(dels[0], adds[0]) { BeforeHead(dels[0], adds, cmp, universe); }
      if cmp.Less(adds[0], dels[0]) { BeforeHead(adds[0], dels, cmp, universe); }
    }
  }

  /** A merge by the SPO comparator delivers in the order of the walks if and only if this order and the SPO order
      agree on the neighbours. */
  lemma {:induction false} MergesAlike(dels: seq<Key>, adds: seq<Key>, cmp: Comparator, universe: set<Key>)
    requires Dictionary(universe, cmp.vocabulary) && KeysSorted(dels, cmp, universe) && KeysSorted(adds, cmp, universe)
    ensures Merged(dels, adds) == MergedBy(dels, adds, cmp) <==> OrdersAgree(Elements(dels), Elements(adds), cmp)
    decreases |dels| + |adds|
  {
    hide Dictionary, Comparator.Less, KeysSorted, NextTo, Elements, Merged, MergedBy;
    if dels == [] || adds == [] {
      MergedAlone(dels, adds, cmp);
    } else {
      SortedHead(dels, cmp, universe);
      SortedHead(adds, cmp, universe);
      var x, y := dels[0], adds[0];
      InUniverse(dels, cmp, universe, x);
      InUniverse(adds, cmp, universe, y);
      LessTotal(cmp, universe, x, y);
      MergedHead(dels, adds);
      MergedByHead(dels, adds, cmp);
      if x == y {
        MergesAlike(dels[1..], adds[1..], cmp, universe);
        SharedHead(dels, adds, cmp, universe);
      } else {
        HeadsNext(dels, adds, cmp, universe);
        if (x < y) == cmp.Less(x, y) {
          if x < y {
            MergesAlike(dels[1..], adds, cmp, universe);
            BehindFirst(dels, adds, cmp, universe);
          } else {
            MergesAlike(dels, adds[1..], cmp, universe);
            BehindSecond(dels, adds, cmp, universe);
          }
        }
      }
    }
  }

  lemma {:induction false} MergedAlone(dels: seq<Key>, adds: seq<Key>, cmp: Comparator)
    requires dels == [] || adds == []
    ensures Merged(dels, adds) == MergedBy(dels, adds, cmp)
    ensures OrdersAgree(Elements(dels), Elements(adds), cmp)
    decreases |dels| + |adds|
  {
    hide Comparator.Less;
    if dels != [] { MergedAlone(dels[1..], adds, cmp); }
    if adds != [] { MergedAlone(dels, adds[1..], cmp); }
  }

  lemma MergedByHead(dels: seq<Key>, adds: seq<Key>, cmp: Comparator)
    requires dels != [] && adds != []
    ensures var m := MergedBy(dels, adds, cmp);
      if cmp.Less(dels[0], adds[0]) then
        m != [] && m[0] == Found(dels[0], true, false) && m[1..] == MergedBy(dels[1..], adds, cmp)
      else if cmp.Less(adds[0], dels[0]) then
        m != [] && m[0] == Found(adds[0], false, true) && m[1..] == MergedBy(dels, adds[1..], cmp)
      else m != [] && m[0] == Found(dels[0], true, true) && m[1..] == MergedBy(dels[1..], adds[1..], cmp)
  {
    hide Comparator.Less;
  }

  /** The heads of the two walks are neighbours. */
  lemma HeadsNext(dels: seq<Key>, adds: seq<Key>, cmp: Comparator, universe: set<Key>)
    requires Dictionary(universe, cmp.vocabulary) && KeysSorted(dels, cmp, universe) && KeysSorted(adds, cmp, universe)
    requires dels != [] && adds != [] && dels[0] != adds[0]
    ensures NextTo(Elements(dels), Elements(adds), dels[0], adds[0], cmp)
  {
    hide Dictionary, Comparator.Less, KeysSorted;
    NoneBefore(dels, cmp, universe);
    NoneBefore(adds, cmp, universe);
  }

  /** Nothing in a sorted list comes before its head. */
  lemma NoneBefore(keys: seq<Key>, cmp: Comparator, universe: set<Key>)
    requires Dictionary(universe, cmp.vocabulary) && KeysSorted(keys, cmp, universe) && keys != []
    ensures keys[0] in keys && forall z :: z in keys ==> !cmp.Less(z, keys[0])
  {
    hide Dictionary, Comparator.Less, KeysSorted;
    SortedHead(keys, cmp, universe);
    InUniverse(keys, cmp, universe, keys[0]);
    forall z | z in keys ensures !cmp.Less(z, keys[0]) {
      InUniverse(keys, cmp, universe, z);
      LessTotal(cmp, universe, z, keys[0]);
    }
  }

  /** When the first walk has the head, the other neighbours are those of what is left. */
  lemma BehindFirst(dels: seq<Key>, adds: seq<Key>, cmp: Comparator, universe: set<Key>)
    requires Dictionary(universe, cmp.vocabulary) && KeysSorted(dels, cmp, universe) && KeysSorted(adds, cmp, universe)
    requires dels != [] && adds != [] && cmp.Less(dels[0], adds[0])
    ensures forall x, y :: NextTo(Elements(dels), Elements(adds), x, y, cmp) <==>
      (x == dels[0] && y == adds[0]) || NextTo(Elements(dels[1..]), Elements(adds), x, y, cmp)
  {
    hide Dictionary, Comparator.Less, KeysSorted;
    SortedHead(dels, cmp, universe);
    SortedHead(adds, cmp, universe);
    NoneBefore(dels, cmp, universe);
    NoneBefore(adds, cmp, universe);
    InUniverse(dels, cmp, universe, dels[0]);
    InUniverse(adds, cmp, universe, adds[0]);
    LessTotal(cmp, universe, dels[0], adds[0]);
    BeforeHead(dels[0], adds, cmp, universe);
    HeadsNext(dels, adds, cmp, universe);
  }

  lemma BehindSecond(dels: seq<Key>, adds: seq<Key>, cmp: Comparator, universe: set<Key>)
    requires Dictionary(universe, cmp.vocabulary) && KeysSorted(dels, cmp, universe) && KeysSorted(adds, cmp, universe)
    requires dels != [] && adds != [] && cmp.Less(adds[0], dels[0])
    ensures forall x, y :: NextTo(Elements(dels), Elements(adds), x, y, cmp) <==>
      (x == dels[0] && y == adds[0]) || NextTo(Elements(dels), Elements(adds[1..]), x, y, cmp)
  {
    hide Dictionary, Comparator.Less, KeysSorted;
    BehindFirst(adds, dels, cmp, universe);
    forall x, y
      ensures NextTo(Elements(dels), Elements(adds), x, y, cmp) <==> NextTo(Elements(adds), Elements(dels), y, x, cmp)
      ensures NextTo(Elements(dels), Elements(adds[1..]), x, y, cmp) <==>
              NextTo(Elements(adds[1..]), Elements(dels), y, x, cmp) {}
  }

  /** A head that the walks share is next to none. */
  lemma SharedHead(dels: seq<Key>, adds: seq<Key>, cmp: Comparator, universe: set<Key>)
    requires Dictionary(universe, cmp.vocabulary) && KeysSorted(dels, cmp, universe) && KeysSorted(adds, cmp, universe)
    requires dels != [] && adds != [] && dels[0] == adds[0]
    ensures forall x, y :: NextTo(Elements(dels), Elements(adds), x, y, cmp) <==>
                           NextTo(Elements(dels[1..]), Elements(adds[1..]), x, y, cmp)
  {
    hide Dictionary, Comparator.Less, KeysSorted;
    SortedHead(dels, cmp, universe);
    SortedHead(adds, cmp, universe);
    NoneBefore(dels, cmp, universe);
    NoneBefore(adds, cmp, universe);
  }

  ghost predicate FoundInOrder(m: seq<Found>, cmp: Comparator) {
    forall i, j :: 0 <= i < j < |m| ==> cmp.Less(m[i].key, m[j].key)
  }

  /** Walks that share no triple are delivered in order by no other merge. */
  lemma {:induction false} OnlyInOrder(dels: seq<Key>, adds: seq<Key>, cmp: Comparator, universe: set<Key>)
    requires Dictionary(universe, cmp.vocabulary) && KeysSorted(dels, cmp, universe) && KeysSorted(adds, cmp, universe)
    requires FoundInOrder(Merged(dels, adds), cmp) && forall k :: k in dels ==> k !in adds
    ensures Merged(dels, adds) == MergedBy(dels, adds, cmp)
    decreases |dels| + |adds|
  {
    hide Dictionary, Comparator.Less, KeysSorted, Merged, MergedBy;
    if dels == [] || adds == [] {
      MergedAlone(dels, adds, cmp);
    } else {
      SortedHead(dels, cmp, universe);
      SortedHead(adds, cmp, universe);
      var x, y, m := dels[0], adds[0], Merged(dels, adds);
      InUniverse(dels, cmp, universe, x);
      InUniverse(adds, cmp, universe, y);
      LessTotal(cmp, universe, x, y);
      MergedHead(dels, adds);
      MergedByHead(dels, adds, cmp);
      var later := if x < y then AddedAt(dels[1..], adds, y) else DeletedAt(dels, adds[1..], x);
      assert m[1..][later] == m[later + 1];
      assert cmp.Less(m[0].key, m[later + 1].key);
      OnlyInOrder(if x < y then dels[1..] else dels, if x < y then adds else adds[1..], cmp, universe);
      assert m == [m[0]] + m[1..];
    }
  }

  /** From walks that share no triple each triple comes alone. */
  lemma {:induction false} DeliveredAlone(dels: seq<Key>, adds: seq<Key>, i: nat)
    requires (forall k :: k in dels ==> k !in adds) && i < |Merged(dels, adds)|
    ensures var f := Merged(dels, adds)[i];
      (f.key in dels || f.key in adds) && (f.deleted <==> f.key in dels) && (f.added <==> f.key in adds)
    decreases |dels| + |adds|
  {
    hide Merged;
    MergedHead(dels, adds);
    var m := Merged(dels, adds);
    if dels != [] { assert dels[0] in dels; }
    if adds != [] { assert adds[0] in adds; }
    if i > 0 {
      var restDels, restAdds := RestOf(dels, m[0].deleted), RestOf(adds, m[0].added);
      DeliveredAlone(restDels, restAdds, i - 1);
      assert m[1..][i - 1] == m[i];
    }
  }

  /** Where the merge delivers a triple of the second walk. */
  ghost function AddedAt(dels: seq<Key>, adds: seq<Key>, k: Key): (i: nat)
    requires k in adds
    ensures i < |Merged(dels, adds)| && Merged(dels, adds)[i].key == k
    decreases |dels| + |adds|
  {
    if adds[0] == k && (dels == [] || k <= dels[0]) then 0
    else if dels != [] && dels[0] < adds[0] then 1 + AddedAt(dels[1..], adds, k)
    else if dels == [] || adds[0] < dels[0] then 1 + AddedAt(dels, adds[1..], k)
    else 1 + AddedAt(dels[1..], adds[1..], k)
  }

  ghost function DeletedAt(dels: seq<Key>, adds: seq<Key>, k: Key): (i: nat)
    requires k in dels
    ensures i < |Merged(dels, adds)| && Merged(dels, adds)[i].key == k
    decreases |dels| + |adds|
  {
    if dels[0] == k && (adds == [] || k <= adds[0]) then 0
    else if adds == [] || dels[0] < adds[0] then 1 + DeletedAt(dels[1..], adds, k)
    else if adds[0] < dels[0] then 1 + DeletedAt(dels, adds[1..], k)
    else 1 + DeletedAt(dels[1..], adds[1..], k)
  }

  /** For all patterns but a lone predicate the orders agree on all matches. */
  lemma MatchesAgree(dels: set<Key>, adds: set<Key>, universe: set<Key>, vocabulary: Key -> Triple, pattern: Triple)
    requires Dictionary(universe, vocabulary) && dels + adds <= universe && AgreesWithSpo(pattern)
    requires forall k :: k in dels + adds ==> Matches(vocabulary(k), pattern)
    ensures OrdersAgree(dels, adds, OrderOf(pattern, vocabulary))
  {
    hide Above, QueryOrder, Matches, IsReal;
    var cmp := OrderOf(pattern, vocabulary);
    forall x, y | NextTo(dels, adds, x, y, cmp) ensures x < y <==> cmp.Less(x, y) {
      assert x in dels + adds && y in dels + adds;
      SpoKeys(universe, vocabulary, x, y);
    }
  }
}
