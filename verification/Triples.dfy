/** Triples of dictionary ids, triple patterns, and the three index orders. */
module Triples {
  import opened Words

  /** A 64-bit dictionary id. */
  type Id = x: int | 0 <= x < U64

  const BLANK: Id := 0
  const MAX_ID: Id := U64 - 1

  /** In a pattern, a blank component matches anything. */
  datatype Triple = Triple(s: Id, p: Id, o: Id)

  /** Ids that the dictionary hands out lie strictly between the two sentinels. */
  predicate IsReal(t: Triple) {
    && BLANK < t.s < MAX_ID && BLANK < t.p < MAX_ID && BLANK < t.o < MAX_ID
  }

  predicate Matches(t: Triple, pattern: Triple) {
    && (pattern.s == BLANK || pattern.s == t.s)
    && (pattern.p == BLANK || pattern.p == t.p)
    && (pattern.o == BLANK || pattern.o == t.o)
  }

  datatype Order = SPO | POS | OSP

  /** One component: the blank sentinel sorts first and the maximal one last, also against themselves. */
  function CompareId(a: Id, b: Id): int {
    if a == MAX_ID || b == BLANK then 1
    else if b == MAX_ID || a == BLANK then -1
    else if a < b then -1 else if a == b then 0 else 1
  }

  function Lexicographic(c1: int, c2: int, c3: int): int {
    if c1 != 0 then c1 else if c2 != 0 then c2 else c3
  }

  function Compare(order: Order, a: Triple, b: Triple): int {
    var s := CompareId(a.s, b.s);
    var p := CompareId(a.p, b.p);
    var o := CompareId(a.o, b.o);
    match order
    case SPO => Lexicographic(s, p, o)
    case POS => Lexicographic(p, o, s)
    case OSP => Lexicographic(o, s, p)
  }

  /** The order of the index that serves a pattern. */
  function QueryOrder(pattern: Triple): Order {
    var s, p, o := pattern.s > 0, pattern.p > 0, pattern.o > 0;
    if s && p && o then SPO
    else if s && p && !o then SPO
    else if s && !p && o then OSP
    else if s && !p && !o then SPO
    else if !s && p && o then POS
    else if !s && p && !o then POS
    else if !s && !p && o then OSP
    else SPO
  }

  predicate IsDefaultTree(pattern: Triple) {
    var s, p, o := pattern.s > 0, pattern.p > 0, pattern.o > 0;
    (s && p) || (!p && !o)
  }

  /** The key that `jump_back` is given: blanks become the maximal id. */
  function JumpBackKey(pattern: Triple): Triple {
    Triple(if pattern.s == BLANK then MAX_ID else pattern.s,
           if pattern.p == BLANK then MAX_ID else pattern.p,
           if pattern.o == BLANK then MAX_ID else pattern.o)
  }

  /** A pattern has blanks and real ids only. */
  predicate IsPattern(pattern: Triple) {
    pattern.s < MAX_ID && pattern.p < MAX_ID && pattern.o < MAX_ID
  }

  predicate Above(order: Order, a: Triple, b: Triple) {
    Compare(order, a, b) > 0
  }

  /** Jumping to the pattern in its own index lands below every match, and the first key from there on that does not
      match lies above every match: going on until the first mismatch enumerates the matches and nothing else. */
  lemma JumpThenEarlyBreak(pattern: Triple, t: Triple, m: Triple)
    requires IsPattern(pattern) && IsReal(t) && IsReal(m) && Matches(m, pattern)
    ensures var order := QueryOrder(pattern);
      && Compare(order, m, pattern) >= 0
      && (Compare(order, t, pattern) >= 0 && !Matches(t, pattern) ==> Above(order, t, m))
  {
  }

  /** The mirror image, for jumping back to the last match and stepping down. */
  lemma JumpBackThenEarlyBreak(pattern: Triple, t: Triple, m: Triple)
    requires IsPattern(pattern) && IsReal(t) && IsReal(m) && Matches(m, pattern)
    ensures var order := QueryOrder(pattern);
      && Compare(order, m, JumpBackKey(pattern)) <= 0
      && (Compare(order, t, JumpBackKey(pattern)) <= 0 && !Matches(t, pattern) ==> Above(order, m, t))
  {
  }

  /** The matches of a pattern are one contiguous run of the given order. */
  ghost predicate Contiguous(order: Order, pattern: Triple) {
    forall a, b, c ::
      IsReal(a) && IsReal(b) && IsReal(c) && Above(order, b, a) && Above(order, c, b) &&
      Matches(a, pattern) && Matches(c, pattern) ==>
        Matches(b, pattern)
  }

  /** Between the jump target and the early break, every pattern finds a contiguous run in the index chosen for it. */
  lemma QueryOrderContiguous(pattern: Triple)
    requires IsPattern(pattern)
    ensures Contiguous(QueryOrder(pattern), pattern)
  {
  }

  /** In the SPO index, exactly the patterns of the default tree do. */
  lemma DefaultTreeIffContiguous(pattern: Triple)
    requires IsPattern(pattern)
    ensures IsDefaultTree(pattern) <==> Contiguous(SPO, pattern)
  {
    if !IsDefaultTree(pattern) {
      var s := if pattern.s == BLANK then 5 else pattern.s;
      var p := if pattern.p == BLANK then 5 else pattern.p;
      var o := if pattern.o == BLANK then 5 else pattern.o;
      var other := if p == 5 then 6 else 5;
      if pattern.s == BLANK && pattern.p != BLANK {
        var a, b, c := Triple(3, p, o), Triple(4, other, o), Triple(5, p, o);
        assert Above(SPO, b, a) && Above(SPO, c, b) && Matches(a, pattern) && Matches(c, pattern) &&
               !Matches(b, pattern);
      } else {
        // the object is bound and the predicate is not
        var off := if o == 5 then 6 else 5;
        var a, b, c := Triple(s, 3, o), Triple(s, 4, off), Triple(s, 5, o);
        assert Above(SPO, b, a) && Above(SPO, c, b) && Matches(a, pattern) && Matches(c, pattern) &&
               !Matches(b, pattern);
      }
    }
  }

  /** Over the matches of a pattern its own index sorts as the SPO comparator does. */
  ghost predicate AgreesWithSpo(pattern: Triple) {
    forall a, b ::
      IsReal(a) && IsReal(b) && Matches(a, pattern) && Matches(b, pattern) ==>
        (Above(QueryOrder(pattern), a, b) <==> Above(SPO, a, b))
  }

  /** The patch tree iterator merges with the SPO comparator whatever the index; for exactly one pattern shape, the
      predicate alone, this is not the order in which the index delivers the keys. */
  lemma MergeOrderAgrees(pattern: Triple)
    requires IsPattern(pattern)
    ensures AgreesWithSpo(pattern) <==>
            !(pattern.s == BLANK && pattern.p != BLANK && pattern.o == BLANK)
  {
    if pattern.s == BLANK && pattern.p != BLANK && pattern.o == BLANK {
      var a, b := Triple(5, pattern.p, 4), Triple(4, pattern.p, 5);
      assert Above(SPO, a, b) && !Above(POS, a, b);
    }
  }

  // ----- rank counters

  const FIELDS := 7

  /** Packs two ids into the key of a rank counter: `low | (high << 16)` in 64 bits. */
  function Pack(low: Id, high: Id): nat {
    BitOr(low, high * 0x1_0000 % U64)
  }

  /** The counter that a triple belongs to, for each of the seven patterns sp_, s_o, s__, _po, _p_, __o, ___ . */
  function Hash(field: int, t: Triple): nat {
    if field == 0 then Pack(t.s, t.p)
    else if field == 1 then Pack(t.s, t.o)
    else if field == 2 then t.s
    else if field == 3 then Pack(t.p, t.o)
    else if field == 4 then t.p
    else if field == 5 then t.o
    else 0
  }

  /** The pattern of a field that a triple matches. */
  function FieldPattern(field: int, t: Triple): Triple {
    if field == 0 then Triple(t.s, t.p, BLANK)
    else if field == 1 then Triple(t.s, BLANK, t.o)
    else if field == 2 then Triple(t.s, BLANK, BLANK)
    else if field == 3 then Triple(BLANK, t.p, t.o)
    else if field == 4 then Triple(BLANK, t.p, BLANK)
    else if field == 5 then Triple(BLANK, BLANK, t.o)
    else Triple(BLANK, BLANK, BLANK)
  }

  /** The field in which the rank for a pattern is kept. */
  function FieldOf(pattern: Triple): int {
    var s, p, o := pattern.s > 0, pattern.p > 0, pattern.o > 0;
    if s && p && o then -1
    else if s && p && !o then 0
    else if s && !p && o then 1
    else if s && !p && !o then 2
    else if !s && p && o then 3
    else if !s && p && !o then 4
    else if !s && !p && o then 5
    else 6
  }

  /** The ids for which packing loses nothing: 16 bits below, 48 above. */
  predicate Packable(t: Triple) {
    t.s < 0x1_0000 && t.p < 0x1_0000 && t.o < 0x1_0000_0000_0000
  }

  /** `x` times two to the `k`. */
  function Shift(x: nat, k: nat): nat {
    if k == 0 then x else 2 * Shift(x, k - 1)
  }

  /** The low `k` bits pass through an or with a number that has none of them. */
  lemma {:induction false} BitOrSplit(k: nat, low: nat, x: nat, y: nat)
    requires low < Shift(1, k)
    ensures BitOr(low + Shift(x, k), Shift(y, k)) == low + Shift(BitOr(x, y), k)
  {
    if k > 0 {
      var a := low + Shift(x, k);
      assert a / 2 == low / 2 + Shift(x, k - 1) && a % 2 == low % 2;
      BitOrSplit(k - 1, low / 2, x, y);
      if a == 0 { assert low / 2 + Shift(x, k - 1) == 0; }
    }
  }

  lemma ShiftFour(x: nat, k: nat)
    ensures Shift(x, k + 4) == 16 * Shift(x, k)
  {
    assert Shift(x, k + 4) == 2 * Shift(x, k + 3);
    assert Shift(x, k + 3) == 2 * Shift(x, k + 2);
    assert Shift(x, k + 2) == 2 * Shift(x, k + 1);
  }

  lemma Shift16(x: nat)
    ensures Shift(x, 16) == x * 0x1_0000
  {
    ShiftFour(x, 0);
    ShiftFour(x, 4);
    ShiftFour(x, 8);
    ShiftFour(x, 12);
  }

  lemma PackSplit(low: nat, x: nat, high: Id)
    requires low < 0x1_0000 && low + x * 0x1_0000 < U64 && high < 0x1_0000_0000_0000
    ensures Pack(low + x * 0x1_0000, high) == low + BitOr(x, high) * 0x1_0000
  {
    Shift16(1);
    Shift16(x);
    Shift16(high);
    Shift16(BitOr(x, high));
    assert high * 0x1_0000 % U64 == high * 0x1_0000;
    BitOrSplit(16, low, x, high);
  }

  lemma PackInjective(l1: Id, h1: Id, l2: Id, h2: Id)
    requires l1 < 0x1_0000 && l2 < 0x1_0000 && h1 < 0x1_0000_0000_0000 && h2 < 0x1_0000_0000_0000
    ensures Pack(l1, h1) == Pack(l2, h2) <==> l1 == l2 && h1 == h2
  {
    PackSplit(l1, 0, h1);
    PackSplit(l2, 0, h2);
  }

  /** Within range, two triples share a rank counter exactly when they match the same pattern of that field. */
  lemma SameCounterIffSamePattern(field: int, a: Triple, b: Triple)
    requires 0 <= field < FIELDS && Packable(a) && Packable(b) && IsReal(b)
    ensures Hash(field, a) == Hash(field, b) <==> Matches(a, FieldPattern(field, b))
  {
    PackInjective(a.s, a.p, b.s, b.p);
    PackInjective(a.s, a.o, b.s, b.o);
    PackInjective(a.p, a.o, b.p, b.o);
  }

  /** Out of range they may share one without matching the same pattern. */
  lemma CounterCollision()
    ensures var a, b := Triple(0x1_0001, 2, 1), Triple(1, 3, 1);
            Hash(0, a) == Hash(0, b) && !Matches(a, FieldPattern(0, b))
  {
    PackSplit(1, 1, 2);
    PackSplit(1, 0, 3);
    assert BitOr(1, 2) == 3;
  }
}

/** The dictionary: which triple stands behind a key. */
module Dictionaries {
  import opened OrderedKeys
  import opened Triples

  /** Known keys stand for real triples, in SPO order. */
  ghost predicate Dictionary(universe: set<Key>, vocabulary: Key -> Triple) {
    && (forall k :: k in universe ==> IsReal(vocabulary(k)))
    && (forall j, k :: j in universe && k in universe && j < k ==> Above(SPO, vocabulary(k), vocabulary(j)))
  }
}
