/** The ranks stored with a deletion, one list per triple, kept only where they change. */
module Positions {
  import opened OrderedKeys

  /** Ranks per pattern, in the order sp_, s_o, s__, _po, _p_, __o, ___ . */
  type PatchPositions = s: seq<int> | |s| == 7 witness [-1, -1, -1, -1, -1, -1, -1]

  const UNSET: PatchPositions := [-1, -1, -1, -1, -1, -1, -1]

  datatype VersionPositions = VersionPositions(patchId: int, positions: PatchPositions)

  ghost predicate InOrder(vec: seq<VersionPositions>) {
    forall i, j :: 0 <= i < j < |vec| ==> vec[i].patchId < vec[j].patchId
  }

  /** The dense view: the ranks in force at version `v` are those of the last entry at or before it. */
  function RanksAt(vec: seq<VersionPositions>, v: int): PatchPositions {
    if vec == [] then UNSET
    else if vec[|vec| - 1].patchId <= v then vec[|vec| - 1].positions
    else RanksAt(vec[..|vec| - 1], v)
  }

  lemma {:induction false} AtEntry(vec: seq<VersionPositions>, i: nat, v: int)
    requires InOrder(vec) && i < |vec| && vec[i].patchId <= v
    requires i + 1 < |vec| ==> v < vec[i + 1].patchId
    ensures RanksAt(vec, v) == vec[i].positions
  {
    if i + 1 < |vec| {
      var shorter := vec[..|vec| - 1];
      if i + 1 < |shorter| { assert vec[i + 1].patchId < vec[|vec| - 1].patchId; }
      AtEntry(shorter, i, v);
    }
  }

  /** `std::lower_bound` on the version. */
  function LowerEntry(vec: seq<VersionPositions>, v: int): (r: nat)
    ensures r <= |vec|
    ensures forall i :: 0 <= i < r ==> vec[i].patchId < v
    ensures r < |vec| ==> v <= vec[r].patchId
  {
    if vec == [] || v <= vec[0].patchId then 0 else 1 + LowerEntry(vec[1..], v)
  }

  /** The first version after `v` that has an entry of its own; None when `v` is past them all. */
  function NextEntry(vec: seq<VersionPositions>, v: int): Option<int> {
    var r := LowerEntry(vec, v + 1);
    if r < |vec| then Some(vec[r].patchId) else None
  }

  /** Storing `p` at `v` changes the dense view from `v` up to the next entry, and nowhere else. */
  ghost predicate Stored(before: seq<VersionPositions>, v: int, p: PatchPositions, after: seq<VersionPositions>) {
    forall u :: RanksAt(after, u) ==
                if v <= u && (NextEntry(before, v).None? || u < NextEntry(before, v).value) then p
                else RanksAt(before, u)
  }

  class PositionsContainer {
    var positionVec: seq<VersionPositions>

    ghost predicate Valid()
      reads this
    {
      InOrder(positionVec)
    }

    constructor ()
      ensures Valid() && positionVec == []
    {
      positionVec := [];
    }

    /** The lookups step back from the entry found; nothing may be asked below the first entry. */
    predicate Reaches(patchId: int)
      reads this
    {
      positionVec == [] || positionVec[0].patchId <= patchId
    }

    method InsertPositions(patchId: int, positions: PatchPositions) returns (hasChanged: bool)
      requires Valid() && Reaches(patchId)
      modifies this
      ensures Valid()
      ensures Stored(old(positionVec), patchId, positions, positionVec)
      ensures !hasChanged ==> positionVec == old(positionVec)
      ensures positionVec != []
      ensures positionVec[0].patchId == if old(positionVec) == [] then patchId else old(positionVec[0].patchId)
      ensures positionVec[|positionVec| - 1].patchId <= patchId ||
              (old(positionVec) != [] &&
               positionVec[|positionVec| - 1].patchId <= old(positionVec[|positionVec| - 1].patchId))
    {
      hide Stored, RanksAt;
      hasChanged := false;
      ghost var before := positionVec;
      var verpos := VersionPositions(patchId, positions);
      if positionVec == [] {
        positionVec := [verpos];
        assert positionVec == before[..0] + [verpos] + before[0..];
        hasChanged := true;
        InsertedAt(before, 0, verpos);
      } else {
        var it := LowerEntry(positionVec, patchId);
        if it == |positionVec| || positionVec[it].patchId > patchId {
          it := it - 1;
        }
        if positionVec[it].patchId == patchId {
          positionVec := positionVec[it := verpos];
          hasChanged := true;
          Overwritten(before, it, verpos);
        } else if positionVec[it].positions != positions {
          positionVec := positionVec[..it + 1] + [verpos] + positionVec[it + 1..];
          hasChanged := true;
          InsertedAt(before, it + 1, verpos);
        } else {
          AlreadyInForce(before, it, verpos);
        }
      }
    }

    method GetPositions(patchId: int, orElse: PatchPositions) returns (positions: PatchPositions)
      requires Valid() && Reaches(patchId)
      ensures positions == if positionVec == [] then orElse else RanksAt(positionVec, patchId)
    {
      if positionVec == [] {
        return orElse;
      }
      var pos := LowerEntry(positionVec, patchId);
      if pos == |positionVec| || positionVec[pos].patchId > patchId {
        pos := pos - 1;
      }
      AtEntry(positionVec, pos, patchId);
      if positionVec[pos].patchId <= patchId {
        return positionVec[pos].positions;
      }
      return orElse;
    }
  }

  lemma OrderConcat(a: seq<VersionPositions>, b: seq<VersionPositions>)
    requires InOrder(a) && InOrder(b)
    requires a != [] && b != [] ==> a[|a| - 1].patchId < b[0].patchId
    ensures InOrder(a + b)
  {
    var s := a + b;
    forall i, j | 0 <= i < j < |s| ensures s[i].patchId < s[j].patchId {
      if i < |a| <= j {
        assert a[i].patchId <= a[|a| - 1].patchId && b[0].patchId <= b[j - |a|].patchId;
      }
    }
  }

  /** The dense view of two stretches: the later one answers from its first entry on. */
  lemma {:induction false} AtConcat(a: seq<VersionPositions>, b: seq<VersionPositions>, u: int)
    requires InOrder(b)
    ensures RanksAt(a + b, u) == if b != [] && b[0].patchId <= u then RanksAt(b, u) else RanksAt(a, u)
  {
    var s := a + b;
    if b == [] {
      assert s == a;
    } else {
      assert s[|s| - 1] == b[|b| - 1] && s[..|s| - 1] == a + b[..|b| - 1];
      if u < b[|b| - 1].patchId { AtConcat(a, b[..|b| - 1], u); }
    }
  }

  /** Entry `e` between the stretches `a` and `c`, in place of `b`, which held nothing or an entry for the same
      version. */
  lemma Placed(a: seq<VersionPositions>, b: seq<VersionPositions>, c: seq<VersionPositions>, e: VersionPositions)
    requires InOrder(a + b + c) && |b| <= 1 && (b != [] ==> b[0].patchId == e.patchId)
    requires a != [] ==> a[|a| - 1].patchId < e.patchId
    requires c != [] ==> e.patchId < c[0].patchId
    ensures InOrder(a + [e] + c)
    ensures Stored(a + b + c, e.patchId, e.positions, a + [e] + c)
  {
    var before := a + b + c;
    Parts(a, b, c);
    OrderConcat(a, [e]);
    OrderConcat(a + [e], c);
    NextAfter(before, |a| + |b| - 1, e.patchId);
    forall u { PlacedView(a, b, c, e, u); }
  }

  lemma Overwritten(before: seq<VersionPositions>, it: nat, e: VersionPositions)
    requires InOrder(before) && it < |before| && before[it].patchId == e.patchId
    ensures InOrder(before[it := e]) && Stored(before, e.patchId, e.positions, before[it := e])
  {
    assert before == before[..it] + [before[it]] + before[it + 1..];
    assert before[it := e] == before[..it] + [e] + before[it + 1..];
    Placed(before[..it], [before[it]], before[it + 1..], e);
  }

  lemma InsertedAt(before: seq<VersionPositions>, k: nat, e: VersionPositions)
    requires InOrder(before) && k <= |before|
    requires k > 0 ==> before[k - 1].patchId < e.patchId
    requires k < |before| ==> e.patchId < before[k].patchId
    ensures InOrder(before[..k] + [e] + before[k..])
    ensures Stored(before, e.patchId, e.positions, before[..k] + [e] + before[k..])
  {
    var a, c := before[..k], before[k..];
    var none: seq<VersionPositions> := [];
    assert a + none == a && a + c == before;
    Placed(a, none, c, e);
  }

  lemma Parts(a: seq<VersionPositions>, b: seq<VersionPositions>, c: seq<VersionPositions>)
    requires InOrder(a + b + c)
    ensures InOrder(a) && InOrder(b) && InOrder(c)
  {
    var s := a + b + c;
    assert a == s[..|a|] && b == s[|a|..|a| + |b|] && c == s[|a| + |b|..];
  }

  lemma PlacedView(a: seq<VersionPositions>, b: seq<VersionPositions>, c: seq<VersionPositions>, e: VersionPositions,
                   u: int)
    requires InOrder(b) && InOrder(c) && |b| <= 1 && (b != [] ==> b[0].patchId == e.patchId)
    requires c != [] ==> e.patchId < c[0].patchId
    ensures RanksAt(a + [e] + c, u) ==
            if e.patchId <= u && (c == [] || u < c[0].patchId) then e.positions else RanksAt(a + b + c, u)
  {
    AtConcat(a + b, c, u);
    AtConcat(a + [e], c, u);
    AtSnoc(a, e, u);
    if b == [] { assert a + b == a; } else { assert b == [b[0]]; AtSnoc(a, b[0], u); }
  }

  lemma AtSnoc(a: seq<VersionPositions>, e: VersionPositions, u: int)
    ensures RanksAt(a + [e], u) == if e.patchId <= u then e.positions else RanksAt(a, u)
  {
    assert (a + [e])[..|a|] == a;
  }

  lemma NextAfter(vec: seq<VersionPositions>, it: int, v: int)
    requires InOrder(vec) && -1 <= it < |vec|
    requires it >= 0 ==> vec[it].patchId <= v
    requires it + 1 < |vec| ==> v < vec[it + 1].patchId
    ensures NextEntry(vec, v) == if it + 1 < |vec| then Some(vec[it + 1].patchId) else None
  {
    var r := LowerEntry(vec, v + 1);
    forall i | 0 <= i <= it ensures vec[i].patchId <= v {}
    forall i | it + 1 <= i < |vec| ensures v < vec[i].patchId {}
    assert r == it + 1;
  }

  /** Storing at or past the last entry: the earlier versions keep their ranks. */
  lemma StoredLast(before: seq<VersionPositions>, v: int, p: PatchPositions, after: seq<VersionPositions>)
    requires InOrder(before) && (before != [] ==> before[|before| - 1].patchId <= v)
    requires Stored(before, v, p, after)
    ensures RanksAt(after, v) == p
    ensures forall w :: w < v ==> RanksAt(after, w) == RanksAt(before, w)
  {
    var r := LowerEntry(before, v + 1);
    assert forall i :: 0 <= i < |before| ==> before[i].patchId <= before[|before| - 1].patchId;
  }

  /** Ranks in force at or past the last entry need not be stored again. */
  lemma StoredAlready(vec: seq<VersionPositions>, v: int)
    requires InOrder(vec) && vec != [] && vec[|vec| - 1].patchId <= v
    ensures Stored(vec, v, RanksAt(vec, v), vec)
  {
  }

  lemma AlreadyInForce(vec: seq<VersionPositions>, it: nat, e: VersionPositions)
    requires InOrder(vec) && it < |vec| && vec[it].patchId <= e.patchId && vec[it].positions == e.positions
    requires it + 1 < |vec| ==> e.patchId < vec[it + 1].patchId
    ensures Stored(vec, e.patchId, e.positions, vec)
  {
    NextAfter(vec, it, e.patchId);
    forall u | e.patchId <= u && (NextEntry(vec, e.patchId).None? || u < NextEntry(vec, e.patchId).value)
      ensures RanksAt(vec, u) == e.positions {
      AtEntry(vec, it, u);
    }
  }
}
