/** Which patch trees stay in memory. */
module PatchTreeCaches {
  import opened OrderedKeys

  ghost predicate NoRepeats(s: seq<int>) {
    forall i, j :: 0 <= i < j < |s| ==> s[i] != s[j]
  }

  /** `std::list::erase` of the one place that holds `x`. */
  function Without(s: seq<int>, x: int): (r: seq<int>) {
    if s == [] then [] else if s[0] == x then Without(s[1..], x) else [s[0]] + Without(s[1..], x)
  }

  lemma {:induction false} WithoutIs(s: seq<int>, x: int)
    ensures forall y :: y in Without(s, x) <==> y in s && y != x
    ensures x !in s ==> Without(s, x) == s
    ensures NoRepeats(s) ==> NoRepeats(Without(s, x)) && |Without(s, x)| == |s| - if x in s then 1 else 0
  {
    if s != [] {
      var rest := s[1..];
      WithoutIs(rest, x);
      assert s == [s[0]] + rest;
      assert NoRepeats(s) ==> s[0] !in rest;
    }
  }

  /** Erasing keeps the order of the others. */
  lemma {:induction false} WithoutAt(a: seq<int>, x: int, k: seq<int>)
    requires x !in a && x !in k
    ensures Without(a + [x] + k, x) == a + k
  {
    WithoutIs(k, x);
    if a == [] {
      assert a + [x] + k == [x] + k && ([x] + k)[1..] == k && a + k == k;
    } else {
      WithoutAt(a[1..], x, k);
      assert (a + [x] + k)[1..] == a[1..] + [x] + k && a + k == [a[0]] + (a[1..] + k);
    }
  }

  lemma WithoutTwice(s: seq<int>, x: int)
    ensures Without([x] + Without(s, x), x) == Without(s, x)
  {
    WithoutIs(s, x);
    WithoutIs(Without(s, x), x);
    assert ([x] + Without(s, x))[1..] == Without(s, x);
  }

  /** The list after looking at its back `n` times: what is kept goes to the front, the first free id goes. */
  function Swept(list: seq<int>, free: set<int>, n: nat): seq<int>
    decreases n
  {
    if n == 0 || list == [] then list
    else
      var last, others := list[|list| - 1], list[..|list| - 1];
      if last in free then others else Swept([last] + others, free, n - 1)
  }

  /** The id that goes, if there is one. */
  function Victim(list: seq<int>, free: set<int>, n: nat): set<int>
    decreases n
  {
    if n == 0 || list == [] then {}
    else
      var last, others := list[|list| - 1], list[..|list| - 1];
      if last in free then {last} else Victim([last] + others, free, n - 1)
  }

  ghost predicate NoneFree(s: seq<int>, free: set<int>) {
    forall x :: x in s ==> x !in free
  }

  /** Behind the last free id there are only ids that are kept: they move to the front, and the free id goes. */
  lemma {:induction false} SweepsLastFree(a: seq<int>, v: int, k: seq<int>, free: set<int>, n: nat)
    requires v in free && NoneFree(k, free) && |k| < n
    ensures Swept(a + [v] + k, free, n) == k + a && Victim(a + [v] + k, free, n) == {v}
    decreases |k|
  {
    var list := a + [v] + k;
    if k == [] {
      assert list[|list| - 1] == v && list[..|list| - 1] == a && k + a == a;
    } else {
      var last, rest := k[|k| - 1], k[..|k| - 1];
      assert last in k;
      assert list[|list| - 1] == last && list[..|list| - 1] == a + [v] + rest;
      assert [last] + (a + [v] + rest) == ([last] + a) + [v] + rest;
      SweepsLastFree([last] + a, v, rest, free, n - 1);
      assert k == rest + [last] && rest + ([last] + a) == k + a;
    }
  }

  /** If all are kept, a full turn brings back the list as it was. */
  lemma {:induction false} SweepsNone(a: seq<int>, k: seq<int>, free: set<int>)
    requires NoneFree(k, free)
    ensures Swept(a + k, free, |k|) == k + a && Victim(a + k, free, |k|) == {}
    decreases |k|
  {
    var list := a + k;
    if k == [] {
      assert a + k == a && k + a == a;
    } else {
      var last, rest := k[|k| - 1], k[..|k| - 1];
      assert last in k;
      assert list[|list| - 1] == last && list[..|list| - 1] == a + rest;
      assert [last] + (a + rest) == ([last] + a) + rest;
      SweepsNone([last] + a, rest, free);
      assert k == rest + [last] && rest + ([last] + a) == k + a;
    }
  }

  lemma SweptOnce(list: seq<int>, free: set<int>, n: nat)
    ensures n == 0 ==> Swept(list, free, n) == list && Victim(list, free, n) == {}
    ensures NoRepeats(list) && list != [] && n > 0 ==> var last, others := list[|list| - 1], list[..|list| - 1];
      && NoRepeats(others) && NoRepeats([last] + others) && last !in others
      && (last in free ==> Swept(list, free, n) == others && Victim(list, free, n) == {last})
      && (last !in free ==> Swept(list, free, n) == Swept([last] + others, free, n - 1) &&
                            Victim(list, free, n) == Victim([last] + others, free, n - 1))
  {
  }

  lemma {:induction false} SweptKeeps(list: seq<int>, free: set<int>, n: nat)
    requires NoRepeats(list)
    ensures NoRepeats(Swept(list, free, n)) && Victim(list, free, n) <= free
    ensures forall x :: x in Swept(list, free, n) <==> x in list && x !in Victim(list, free, n)
    ensures |Swept(list, free, n)| <= |list|
    decreases n
  {
    if n > 0 && list != [] {
      var last, others := list[|list| - 1], list[..|list| - 1];
      assert list == others + [last];
      if last !in free {
        SweptKeeps([last] + others, free, n - 1);
      }
    }
  }

  /** The place of the last free id, or -1. */
  function LastFree(list: seq<int>, free: set<int>): (r: int)
    ensures -1 <= r < |list|
    ensures r >= 0 ==> list[r] in free
    ensures forall j :: r < j < |list| ==> list[j] !in free
  {
    if list == [] then -1
    else if list[|list| - 1] in free then |list| - 1
    else LastFree(list[..|list| - 1], free)
  }

  lemma LastFreeFound(list: seq<int>, free: set<int>)
    requires free != {}
    requires forall x :: x in free ==> x in list
    ensures LastFree(list, free) >= 0
  {
    LeastExists(free);
    var x :| x in free && forall y :: y in free ==> x <= y;
    assert x in list;
  }

  function Dropped(loaded: map<int, bool>, gone: set<int>): map<int, bool> {
    loaded + map id | id in gone :: false
  }

  lemma DroppedIs(loaded: map<int, bool>, v: int)
    ensures Dropped(loaded, {}) == loaded && Dropped(loaded, {v}) == loaded[v := false]
  {
  }

  /** The last free id has gone, from the list and from memory; the accessed one comes first, then the kept ones from
      behind the victim, then those before it. */
  ghost predicate RoomMade(list: seq<int>, free: set<int>, accessed: int, loaded: map<int, bool>,
                           newList: seq<int>, newLoaded: map<int, bool>) {
    var p := LastFree(list, free);
    && p >= 0 && newList == [accessed] + Without(list[p + 1..] + list[..p], accessed)
    && newLoaded == loaded[list[p] := false]
  }

  lemma NothingGoes(list: seq<int>, free: set<int>, loaded: map<int, bool>)
    requires free == {}
    ensures Swept(list, free, |list|) == list && Dropped(loaded, Victim(list, free, |list|)) == loaded
  {
    SweepsNone([], list, free);
    DroppedIs(loaded, 0);
    assert [] + list == list && list + [] == list;
  }

  lemma LastGoes(list: seq<int>, free: set<int>, accessed: int, loaded: map<int, bool>)
    requires free != {} && forall x :: x in free ==> x in list
    ensures RoomMade(list, free, accessed, loaded, [accessed] + Without(Swept(list, free, |list|), accessed),
                     Dropped(loaded, Victim(list, free, |list|)))
  {
    hide Without, Swept, Victim, LastFree, Dropped;
    LastFreeFound(list, free);
    var p := LastFree(list, free);
    var v, k := list[p], list[p + 1..];
    assert list == list[..p] + [v] + k;
    SweepsLastFree(list[..p], v, k, free, |list|);
    DroppedIs(loaded, v);
  }

  /** Making room: nothing that is used or accessed is dropped, one id leaves, and the list does not grow. */
  lemma RoomSafe(list: seq<int>, free: set<int>, accessed: int, loaded: map<int, bool>,
                 newList: seq<int>, newLoaded: map<int, bool>)
    requires NoRepeats(list) && accessed !in free && RoomMade(list, free, accessed, loaded, newList, newLoaded)
    ensures NoRepeats(newList) && newList != [] && newList[0] == accessed && |newList| <= |list|
    ensures var v := list[LastFree(list, free)];
      v !in newList && forall id :: id in list && id != v ==> id in newList
    ensures forall id :: id in loaded && id !in free ==> id in newLoaded && newLoaded[id] == loaded[id]
  {
    hide Without, LastFree, NoRepeats;
    var p := LastFree(list, free);
    var v, moved := list[p], list[p + 1..] + list[..p];
    assert list == list[..p] + [v] + list[p + 1..];
    Parted(list[..p], v, list[p + 1..]);
    WithoutIs(moved, accessed);
    InFront(accessed, Without(moved, accessed));
  }

  lemma InFront(x: int, s: seq<int>)
    requires NoRepeats(s) && x !in s
    ensures NoRepeats([x] + s)
  {
  }

  lemma Parted(a: seq<int>, v: int, k: seq<int>)
    requires NoRepeats(a + [v] + k)
    ensures NoRepeats(k + a) && v !in k + a
  {
    var list, moved := a + [v] + k, k + a;
    forall i, j | 0 <= i < j < |moved| ensures moved[i] != moved[j] {
      var p, q := if i < |k| then |a| + 1 + i else i - |k|, if j < |k| then |a| + 1 + j else j - |k|;
      assert moved[i] == list[p] && moved[j] == list[q];
    }
    forall i | 0 <= i < |moved| ensures moved[i] != v {
      var p := if i < |k| then |a| + 1 + i else i - |k|;
      assert moved[i] == list[p] && list[|a|] == v;
    }
  }

  class PatchTreeManager {
    var maxLoadedPatches: nat
    var lruList: seq<int>  // most recently used first
    var lruMap: set<int>  // the ids of the list
    var loadedPatchtrees: map<int, bool>  // which trees there are, and whether they are in memory

    /** The list and the map hold the same ids, each once. */
    ghost predicate Valid()
      reads this
    {
      2 <= maxLoadedPatches && NoRepeats(lruList) && forall id :: id in lruMap <==> id in lruList
    }

    /** Nobody but the manager holds the tree. */
    predicate Unique(id: int, inUse: set<int>)
      reads `loadedPatchtrees
    {
      id in loadedPatchtrees && loadedPatchtrees[id] && id !in inUse
    }

    /** The trees that may be dropped when `accessed` is. */
    ghost function Free(inUse: set<int>, accessed: int): set<int>
      reads `lruList, `loadedPatchtrees
    {
      set id | id in lruList && Unique(id, inUse) && id != accessed
    }

    constructor (detected: set<int>, cacheSize: nat)
      ensures Valid() && lruList == [] && loadedPatchtrees == map id | id in detected :: false
      ensures maxLoadedPatches == if cacheSize < 2 then 2 else cacheSize
    {
      maxLoadedPatches := if cacheSize < 2 then 2 else cacheSize;
      lruList, lruMap := [], {};
      loadedPatchtrees := map id | id in detected :: false;
    }

    lemma SizeOfMap()
      requires Valid()
      ensures |lruMap| == |lruList|
    {
      SizeOf(lruList, lruMap);
    }

    /** Puts the accessed id in front. */
    method ToFront(accessed: int)
      requires Valid()
      modifies `lruList, `lruMap
      ensures Valid() && lruList == [accessed] + Without(old(lruList), accessed)
    {
      WithoutIs(lruList, accessed);
      if accessed in lruMap {
        lruList := Without(lruList, accessed);
      }
      lruList := [accessed] + lruList;
      lruMap := lruMap + {accessed};
    }

    method UpdateCacheInternal(accessed: int, iterations: nat, inUse: set<int>)
      requires Valid() && iterations <= |lruList|
      modifies `lruList, `lruMap, `loadedPatchtrees
      ensures Valid()
      ensures var full, free := |old(lruList)| >= maxLoadedPatches, old(Free(inUse, accessed));
        && lruList == [accessed] +
           Without(if full then Swept(old(lruList), free, iterations) else old(lruList), accessed)
        && loadedPatchtrees == Dropped(old(loadedPatchtrees),
                                       if full then Victim(old(lruList), free, iterations) else {})
      decreases iterations
    {
      hide Swept, Victim, Without, NoRepeats, Dropped;
      SizeOfMap();
      ghost var list, free, loaded := lruList, Free(inUse, accessed), loadedPatchtrees;
      SweptOnce(list, free, iterations);
      DroppedIs(loaded, if list == [] then 0 else list[|list| - 1]);
      if |lruMap| >= maxLoadedPatches {
        if iterations > 0 {
          var lruPatchtree := lruList[|lruList| - 1];
          lruList := lruList[..|lruList| - 1];
          lruMap := lruMap - {lruPatchtree};
          assert list == lruList + [lruPatchtree];
          if !Unique(lruPatchtree, inUse) || lruPatchtree == accessed {
            lruList := [lruPatchtree] + lruList;
            lruMap := lruMap + {lruPatchtree};
            assert Free(inUse, accessed) == free;
            WithoutTwice(Swept(lruList, free, iterations - 1), accessed);
            UpdateCacheInternal(accessed, iterations - 1, inUse);
          } else {
            loadedPatchtrees := loadedPatchtrees[lruPatchtree := false];
          }
        }
      }
      ToFront(accessed);
    }

    /** Makes room, if the cache is full, and puts the accessed tree in front. The last tree of the list that nobody
        uses goes; if there is none, none goes. */
    method UpdateCache(accessed: int, inUse: set<int>)
      requires Valid()
      modifies `lruList, `lruMap, `loadedPatchtrees
      ensures Valid() && maxLoadedPatches == old(maxLoadedPatches)
      ensures var full, free := |old(lruList)| >= maxLoadedPatches, old(Free(inUse, accessed));
        if full && free != {}
        then RoomMade(old(lruList), free, accessed, old(loadedPatchtrees), lruList, loadedPatchtrees)
        else lruList == [accessed] + Without(old(lruList), accessed) && loadedPatchtrees == old(loadedPatchtrees)
    {
      hide Swept, Victim, Without, NoRepeats, RoomMade;
      SizeOfMap();
      ghost var list, free, full, loaded := lruList, Free(inUse, accessed), |lruMap| >= maxLoadedPatches,
                                            loadedPatchtrees;
      UpdateCacheInternal(accessed, |lruMap|, inUse);
      if free == {} {
        NothingGoes(list, free, loaded);
      } else {
        LastGoes(list, free, accessed, loaded);
      }
      DroppedIs(loaded, 0);
    }

    /** `load_patch_tree`: the tree is in memory afterwards, and in front. If the list is full and some other tree is
        unused, the unused one nearest the back goes; no other tree enters or leaves memory, and those behind the one
        that goes come before the rest of the list. */
    method LoadPatchTree(id: int, inUse: set<int>)
      requires Valid()
      modifies `lruList, `lruMap, `loadedPatchtrees
      ensures Valid() && lruList != [] && lruList[0] == id && id in loadedPatchtrees && loadedPatchtrees[id]
      ensures forall other :: other in old(loadedPatchtrees) && other in inUse ==>
        other in loadedPatchtrees && (old(loadedPatchtrees[other]) ==> loadedPatchtrees[other])
      ensures var room := |old(lruList)| < maxLoadedPatches || old(Free(inUse, id)) == {};
        |lruList| <= if room then |old(lruList)| + 1 else |old(lruList)|
      ensures var list, free, loaded := old(lruList), old(Free(inUse, id)), old(loadedPatchtrees);
        if |list| >= maxLoadedPatches && free != {} then
          var p := LastFree(list, free);
          && p >= 0 && list[p] != id && list[p] !in inUse && lruList == [id] + Without(list[p + 1..] + list[..p], id)
          && loadedPatchtrees == loaded[list[p] := false][id := true]
        else lruList == [id] + Without(list, id) && loadedPatchtrees == loaded[id := true]
    {
      hide Without, NoRepeats, LastFree;
      ghost var list, free, loaded := lruList, Free(inUse, id), loadedPatchtrees;
      UpdateCache(id, inUse);
      WithoutIs(list, id);
      if |list| >= maxLoadedPatches && free != {} {
        RoomSafe(list, free, id, loaded, lruList, loadedPatchtrees);
      }
      if id in loadedPatchtrees && loadedPatchtrees[id] {
        return;
      }
      loadedPatchtrees := loadedPatchtrees[id := true];
    }
  }

  lemma {:induction false} SizeOf(s: seq<int>, ids: set<int>)
    requires NoRepeats(s) && forall id :: id in ids <==> id in s
    ensures |ids| == |s|
  {
    if s == [] {
      assert forall id :: id !in ids;
      assert ids == {};
    } else {
      assert s == [s[0]] + s[1..];
      SizeOf(s[1..], ids - {s[0]});
    }
  }
}
