/** Keys, ordered sets of keys, and strictly increasing sequences of keys.

    A key stands for the place of a triple in the SPO order of the dictionary, so that comparing two keys is
    what the SPO comparator does. An ordered container of the system (a Kyoto Cabinet tree, a std::map) is a
    map over keys; its cursor is the key it stands on, or None once it has run off the end. */
module OrderedKeys {

  datatype Option<+T> = None | Some(value: T)

  type Key = int

  /** What a table of counts says of a key: nothing counted is 0. */
  function Lookup<K>(m: map<K, nat>, k: K): nat {
    if k in m then m[k] else 0
  }

  ghost predicate Increasing(s: seq<Key>) {
    forall i, j :: 0 <= i < j < |s| ==> s[i] < s[j]
  }

  ghost function Elements<T>(s: seq<T>): set<T> {
    set x | x in s
  }

  /** A non-empty finite set of keys has a least element. */
  lemma {:induction false} LeastExists(s: set<Key>)
    requires s != {}
    ensures exists x :: x in s && forall y :: y in s ==> x <= y
  {
    assert (forall x :: x !in s) ==> s == {};
    var x :| x in s;
    var below := set y | y in s && y < x;
    assert forall y :: y in s && y < x ==> y in below;
    if below != {} {
      assert x !in below;
      LeastExists(below);
      var m :| m in below && forall y :: y in below ==> m <= y;
      assert m in s;
    }
  }

  lemma {:induction false} GreatestExists(s: set<Key>)
    requires s != {}
    ensures exists x :: x in s && forall y :: y in s ==> y <= x
  {
    assert (forall x :: x !in s) ==> s == {};
    var x :| x in s;
    var above := set y | y in s && x < y;
    assert forall y :: y in s && x < y ==> y in above;
    if above != {} {
      assert x !in above;
      GreatestExists(above);
      var m :| m in above && forall y :: y in above ==> y <= m;
      assert m in s;
    }
  }

  /** `lower_bound`, and a tree cursor's `jump(key)`: the first key at or above `k`. */
  function Ceiling(s: set<Key>, k: Key): (r: Option<Key>)
    ensures r.None? ==> forall y :: y in s ==> y < k
    ensures r.Some? ==> r.value in s && k <= r.value && forall y :: y in s && k <= y ==> r.value <= y
  {
    var above := set y | y in s && k <= y;
    assert forall y :: y in s && k <= y ==> y in above;
    if above == {} then
      None
    else
      LeastExists(above);
      var x :| x in above && forall y :: y in above ==> x <= y;
      Some(x)
  }

  /** A tree cursor's `jump_back(key)`: the last key at or below `k`. */
  function Floor(s: set<Key>, k: Key): (r: Option<Key>)
    ensures r.None? ==> forall y :: y in s ==> k < y
    ensures r.Some? ==> r.value in s && r.value <= k && forall y :: y in s && y <= k ==> y <= r.value
  {
    var below := set y | y in s && y <= k;
    assert forall y :: y in s && y <= k ==> y in below;
    if below == {} then
      None
    else
      GreatestExists(below);
      var x :| x in below && forall y :: y in below ==> y <= x;
      Some(x)
  }

  /** The smallest key of the container, `jump()`. */
  function First(s: set<Key>): (r: Option<Key>)
    ensures r.None? <==> s == {}
    ensures r.Some? ==> r.value in s && forall y :: y in s ==> r.value <= y
  {
    if s == {} then
      None
    else
      LeastExists(s);
      var x :| x in s && forall y :: y in s ==> x <= y;
      Some(x)
  }

  /** The keys of a set in increasing order. */
  function Sorted(s: set<Key>): (r: seq<Key>)
    ensures Increasing(r) && |r| == |s|
    ensures forall x :: x in r <==> x in s
  {
    if s == {} then
      []
    else
      LeastExists(s);
      var x :| x in s && forall y :: y in s ==> x <= y;
      var rest := Sorted(s - {x});
      PutFirst(s, x, rest);
      [x] + rest
  }

  lemma PutFirst(s: set<Key>, x: Key, rest: seq<Key>)
    requires x in s && forall y :: y in s ==> x <= y
    requires Increasing(rest) && |rest| == |s - {x}| && forall y :: y in rest <==> y in s - {x}
    ensures Increasing([x] + rest) && |[x] + rest| == |s|
    ensures forall y :: y in [x] + rest <==> y in s
  {
    IncreasingConcat([x], rest);
    hide Increasing;
  }

  /** `std::lower_bound` in a sorted vector: the first place of an increasing list whose element is at least `x`. */
  function LowerPlace(s: seq<int>, x: int): (r: nat)
    ensures r <= |s|
    ensures forall i :: 0 <= i < r ==> s[i] < x
    ensures r < |s| ==> x <= s[r]
  {
    if s == [] || x <= s[0] then 0 else 1 + LowerPlace(s[1..], x)
  }

  lemma HasElement(s: seq<Key>)
    ensures s != [] ==> exists x :: x in s
  {
    if s != [] {
      var x := s[0];
      assert x in s;
    }
  }

  /** Two increasing sequences with the same elements are the same sequence. */
  lemma {:induction false} IncreasingUnique(a: seq<Key>, b: seq<Key>)
    requires Increasing(a) && Increasing(b)
    requires forall x :: x in a <==> x in b
    ensures a == b
  {
    HasElement(a);
    HasElement(b);
    if a == [] || b == [] {
      assert a == b;
    } else {
      assert a[0] in a && b[0] in b;
      assert a[0] == b[0];
      forall x ensures x in a[1..] <==> x in b[1..] {
        if x in a[1..] { assert x in a && x != a[0]; }
        if x in b[1..] { assert x in b && x != b[0]; }
      }
      IncreasingUnique(a[1..], b[1..]);
      assert a == [a[0]] + a[1..] && b == [b[0]] + b[1..];
    }
  }

  /** The head of an increasing list is below the rest of it. */
  lemma ListHead(a: seq<Key>)
    requires Increasing(a) && a != []
    ensures Increasing(a[1..])
    ensures var first := a[0]; forall x :: (x in a <==> x == first || x in a[1..]) && (x in a[1..] ==> first < x)
  {
    var first, rest := a[0], a[1..];
    assert a == [first] + rest;
    forall x | x in rest ensures first < x {
      var i :| 0 <= i < |rest| && rest[i] == x;
      assert a[0] < a[i + 1];
    }
  }

  lemma IncreasingConcat(a: seq<Key>, b: seq<Key>)
    requires Increasing(a) && Increasing(b)
    requires forall x, y :: x in a && y in b ==> x < y
    ensures Increasing(a + b)
  {
    var s := a + b;
    forall i, j | 0 <= i < j < |s| ensures s[i] < s[j] {
      if i < |a| <= j {
        var x, y := a[i], b[j - |a|];
        assert x in a && y in b;
      }
    }
  }

}

/** Selecting the keys that match a triple pattern. */
module Selection {
  import opened OrderedKeys

  /** The elements of a sequence that a pattern selects, in order. */
  function Select(s: seq<Key>, m: Key -> bool): (r: seq<Key>)
    ensures forall x :: x in r <==> x in s && m(x)
  {
    if s == [] then [] else (if m(s[0]) then [s[0]] else []) + Select(s[1..], m)
  }

  lemma {:induction false} SelectIncreasing(s: seq<Key>, m: Key -> bool)
    requires Increasing(s)
    ensures Increasing(Select(s, m))
  {
    if s != [] {
      SelectIncreasing(s[1..], m);
      if m(s[0]) { IncreasingConcat([s[0]], Select(s[1..], m)); }
    }
  }

  lemma {:induction false} SelectConcat(a: seq<Key>, b: seq<Key>, m: Key -> bool)
    ensures Select(a + b, m) == Select(a, m) + Select(b, m)
  {
    if a == [] {
      assert a + b == b;
    } else {
      var ab := a + b;
      assert ab[0] == a[0] && ab[1..] == a[1..] + b;
      SelectConcat(a[1..], b, m);
      assert Select(ab, m) == (if m(a[0]) then [a[0]] else []) + Select(a[1..] + b, m);
    }
  }
}
