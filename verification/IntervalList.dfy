/** The compressed list of version ids: only the ends of runs are stored. */
module Intervals {
  import opened OrderedKeys

  datatype Interval = Interval(start: int, end: int)

  /** The runs are non-empty, in order, at least one id apart, and end at `max` at the latest. */
  ghost predicate WellFormed(iv: seq<Interval>, max: int) {
    && (forall i :: 0 <= i < |iv| ==> iv[i].start < iv[i].end <= max)
    && (forall i, j :: 0 <= i < j < |iv| ==> iv[i].end < iv[j].start)
  }

  /** The ids the list stands for. */
  ghost predicate In(iv: seq<Interval>, x: int) {
    exists i :: 0 <= i < |iv| && iv[i].start <= x < iv[i].end
  }

  /** `std::map::lower_bound`: the first run that starts at or after `e`. */
  function LowerBound(iv: seq<Interval>, e: int): (r: nat)
    ensures r <= |iv|
    ensures forall i :: 0 <= i < r ==> iv[i].start < e
    ensures r < |iv| ==> e <= iv[r].start
  {
    if iv == [] || e <= iv[0].start then 0 else 1 + LowerBound(iv[1..], e)
  }

  /** The start of the first run after `e`, or the end of time. */
  function NextStart(iv: seq<Interval>, e: int, max: int): int {
    var i := LowerBound(iv, e + 1);
    if i < |iv| then iv[i].start else max
  }

  function Remove(iv: seq<Interval>, i: nat): seq<Interval>
    requires i < |iv|
  {
    iv[..i] + iv[i + 1..]
  }

  /** What adding `e` does to the stored ids: an absent element starts a run that lasts until the next stored run,
      or for ever. */
  ghost predicate Added(before: seq<Interval>, max: int, e: int, after: seq<Interval>) {
    forall x :: In(after, x) <==> In(before, x) || (!In(before, e) && e <= x < NextStart(before, e, max))
  }

  /** What deleting `e` does: a present element, and the rest of its run after it, leave the list. */
  ghost predicate Deleted(before: seq<Interval>, max: int, e: int, after: seq<Interval>) {
    forall x :: In(after, x) <==> In(before, x) && !(In(before, e) && e <= x < NextStart(before, e, max))
  }

  lemma InAt(iv: seq<Interval>, i: nat, x: int)
    requires i < |iv| && iv[i].start <= x < iv[i].end
    ensures In(iv, x)
  {
  }

  /** With `i` the last run that starts at or before `x`, membership of `x` is decided by run `i`. */
  lemma InDecided(iv: seq<Interval>, max: int, i: nat, x: int)
    requires WellFormed(iv, max) && i < |iv| && iv[i].start <= x
    requires i + 1 < |iv| ==> x < iv[i + 1].start
    ensures In(iv, x) <==> x < iv[i].end
  {
    Outside(iv, max, i);
    if i + 1 < |iv| { Outside(iv, max, i + 1); }
    if In(iv, x) {
      var j :| 0 <= j < |iv| && iv[j].start <= x < iv[j].end;
      assert j <= i;
    }
  }

  /** Everything stored before run `i` is below it, everything after it above. */
  lemma Outside(iv: seq<Interval>, max: int, i: nat)
    requires WellFormed(iv, max) && i < |iv|
    ensures forall j :: 0 <= j < i ==> iv[j].end < iv[i].start
    ensures forall j :: i < j < |iv| ==> iv[i].end < iv[j].start
    ensures forall x :: In(iv[..i], x) ==> x < iv[i].start
    ensures var above := iv[i + 1..]; forall x :: In(above, x) ==> iv[i].end < x
  {
    var above := iv[i + 1..];
    forall x | In(above, x) ensures iv[i].end < x {
      var j :| 0 <= j < |above| && above[j].start <= x < above[j].end;
      assert iv[i].end < iv[i + 1 + j].start;
    }
  }

  /** Where a run ends for a reader who knows of no id at or past `outer`: only a run without an end is cut. */
  function Cut(r: Interval, max: int, outer: int): int {
    if r.end == max then outer else r.end
  }

  function Run(a: int, b: int): (s: seq<int>)
    ensures |s| == if a <= b then b - a else 0
    ensures forall i :: 0 <= i < |s| ==> s[i] == a + i
  {
    if b <= a then [] else seq(b - a, i => a + i)
  }

  /** The plain list of ids that the runs stand for. */
  function Ids(iv: seq<Interval>, max: int, outer: int): (ids: seq<int>)
  {
    if iv == [] then [] else Run(iv[0].start, Cut(iv[0], max, outer)) + Ids(iv[1..], max, outer)
  }

  /** What is read at a place: an id of the plain list, before it an id counted back from the first start, or `max`. */
  ghost function IdAt(iv: seq<Interval>, max: int, outer: int, i: int): int {
    var ids := Ids(iv, max, outer);
    if 0 <= i < |ids| then ids[i]
    else if i < 0 && iv != [] && i < Cut(iv[0], max, outer) - iv[0].start then iv[0].start + i
    else max
  }

  /** How far past `outer` the run without an end starts. */
  function Overrun(iv: seq<Interval>, max: int, outer: int): nat {
    if iv != [] && iv[|iv| - 1].end == max && outer < iv[|iv| - 1].start then iv[|iv| - 1].start - outer else 0
  }

  lemma TailWellFormed(iv: seq<Interval>, max: int)
    requires WellFormed(iv, max) && iv != []
    ensures WellFormed(iv[1..], max)
    ensures forall x :: In(iv, x) <==> iv[0].start <= x < iv[0].end || In(iv[1..], x)
    ensures iv[1..] != [] ==> iv[0].end < iv[1].start && iv[0].end < max
    ensures forall x :: In(iv[1..], x) ==> iv[0].end < x
  {
    Split(iv, 0);
    Outside(iv, max, 0);
    assert iv[..0] == [] && iv[0 + 1..] == iv[1..];
    if |iv| > 1 { assert iv[0].end < iv[1].start; assert iv[1].start < iv[1].end; }
  }

  lemma RunMembers(a: int, b: int, x: int)
    ensures x in Run(a, b) <==> a <= x < b
  {
    if a <= x < b { assert Run(a, b)[x - a] == x; }
  }

  /** The id lies in a run that has an end. */
  ghost predicate InEnded(iv: seq<Interval>, max: int, x: int) {
    exists i :: 0 <= i < |iv| && iv[i].start <= x < iv[i].end < max
  }

  /** The plain list is increasing, holds only stored ids, and below `outer` holds all of them. */
  lemma {:induction false} IdsCorrect(iv: seq<Interval>, max: int, outer: int)
    requires WellFormed(iv, max) && outer <= max
    ensures Increasing(Ids(iv, max, outer))
    ensures forall x :: x in Ids(iv, max, outer) ==> In(iv, x)
    ensures forall x :: x < outer && In(iv, x) ==> x in Ids(iv, max, outer)
    ensures forall x :: x in Ids(iv, max, outer) && outer <= x ==> InEnded(iv, max, x)
  {
    if iv != [] {
      TailWellFormed(iv, max);
      IdsCorrect(iv[1..], max, outer);
      var cut := Cut(iv[0], max, outer);
      var head, rest := Run(iv[0].start, cut), Ids(iv[1..], max, outer);
      var ids := head + rest;
      forall x, y | x in head && y in rest ensures x < y {
        RunMembers(iv[0].start, cut, x);
        assert In(iv[1..], y) && iv[0].end < y && iv[1..] != [];
      }
      IncreasingConcat(head, rest);
      forall x ensures x in ids <==> iv[0].start <= x < cut || x in rest {
        RunMembers(iv[0].start, cut, x);
      }
      forall x | x in ids && outer <= x ensures InEnded(iv, max, x) {
        if x in rest {
          var i :| 0 <= i < |iv[1..]| && iv[1..][i].start <= x < iv[1..][i].end < max;
          assert iv[i + 1].start <= x < iv[i + 1].end < max;
        } else {
          assert iv[0].start <= x < iv[0].end < max;
        }
      }
    }
  }

  /** Lookup in the plain list: the place of `x`, or -1. */
  function PlaceOf(ids: seq<int>, x: int): (r: int)
    ensures if x in ids then 0 <= r < |ids| && ids[r] == x else r == -1
  {
    if ids == [] then -1
    else if ids[0] == x then 0
    else
      var r := PlaceOf(ids[1..], x);
      if r == -1 then -1 else r + 1
  }

  lemma {:induction false} IncreasingPlace(ids: seq<int>, x: int, k: nat)
    requires k < |ids| && ids[k] == x
    requires Increasing(ids)
    ensures PlaceOf(ids, x) == k
  {
    if ids[0] != x { IncreasingPlace(ids[1..], x, k - 1); }
  }

  lemma IdsFirst(r: Interval, rest: seq<Interval>, max: int, outer: int)
    ensures Ids([r] + rest, max, outer) == Run(r.start, Cut(r, max, outer)) + Ids(rest, max, outer)
  {
    assert ([r] + rest)[1..] == rest;
  }

  lemma {:induction false} IdsConcat(a: seq<Interval>, b: seq<Interval>, max: int, outer: int)
    ensures Ids(a + b, max, outer) == Ids(a, max, outer) + Ids(b, max, outer)
  {
    if a == [] {
      assert a + b == b;
    } else {
      var r, rest := a[0], a[1..];
      assert a == [r] + rest && a + b == [r] + (rest + b);
      IdsFirst(r, rest, max, outer);
      IdsFirst(r, rest + b, max, outer);
      hide Ids, Run, Cut;
      IdsConcat(rest, b, max, outer);
    }
  }

  /** The plain list around run `k`. */
  lemma IdsAround(iv: seq<Interval>, k: nat, max: int, outer: int)
    requires k < |iv|
    ensures var head, run := Ids(iv[..k], max, outer), Run(iv[k].start, Cut(iv[k], max, outer));
            Ids(iv[..k + 1], max, outer) == head + run &&
            Ids(iv, max, outer) == head + run + Ids(iv[k + 1..], max, outer)
  {
    assert iv == iv[..k + 1] + iv[k + 1..] && iv[..k + 1] == iv[..k] + [iv[k]];
    IdsConcat(iv[..k + 1], iv[k + 1..], max, outer);
    IdsConcat(iv[..k], [iv[k]], max, outer);
    assert Ids([iv[k]], max, outer) == Run(iv[k].start, Cut(iv[k], max, outer)) + Ids([], max, outer);
  }

  /** The capped lengths add up to the length of the plain list, less what an unended run starts past `outer`. */
  function TotalLength(iv: seq<Interval>, max: int, outer: int): int {
    if iv == [] then 0 else Cut(iv[0], max, outer) - iv[0].start + TotalLength(iv[1..], max, outer)
  }

  lemma {:induction false} TotalLengthCorrect(iv: seq<Interval>, max: int, outer: int)
    requires WellFormed(iv, max)
    ensures TotalLength(iv, max, outer) == |Ids(iv, max, outer)| - Overrun(iv, max, outer)
  {
    if iv != [] {
      TailWellFormed(iv, max);
      TotalLengthCorrect(iv[1..], max, outer);
    }
  }

  class IntervalList {
    const max: int
    var intervals: seq<Interval>

    ghost predicate Valid()
      reads this
    {
      WellFormed(intervals, max)
    }

    constructor (max: int)
      ensures Valid() && this.max == max && intervals == []
    {
      this.max := max;
      intervals := [];
    }

    /** Nothing is stored, or nothing is stored below `element`: stepping back from the first entry of the map is
        undefined, so the caller may not ask. */
    predicate Reaches(element: int)
      reads this
    {
      intervals == [] || intervals[0].start <= element
    }

    method Addition(element: int) returns (hasChanged: bool)
      requires Valid() && Reaches(element) && element < max
      modifies this
      ensures Valid()
      ensures Added(old(intervals), max, element, intervals)
      ensures hasChanged <==> !old(In(intervals, element))
      ensures !hasChanged ==> intervals == old(intervals)
      ensures intervals != [] && intervals[0].start == if old(intervals) == [] then element else old(intervals[0].start)
    {
      hasChanged := false;
      ghost var before := intervals;
      var pos := LowerBound(intervals, element);
      if pos == |intervals| {
        if pos != 0 {
          pos := pos - 1;
          if intervals[pos].start < element && intervals[pos].end == element {
            intervals := intervals[pos := Interval(intervals[pos].start, max)];
            hasChanged := true;
            Widen(before, max, pos, pos, element, intervals);
          } else if intervals[pos].end < element {
            intervals := intervals + [Interval(element, max)];
            hasChanged := true;
            AppendRun(before, max, element, intervals);
          } else {
            InDecided(before, max, pos, element);
          }
        } else {
          intervals := [Interval(element, max)];
          hasChanged := true;
          AppendRun(before, max, element, intervals);
        }
      } else {
        if element < intervals[pos].start {
          pos := pos - 1;
          if intervals[pos].end < element {
            pos := pos + 1;
            var oldEnd := intervals[pos].end;
            intervals := intervals[pos := Interval(element, oldEnd)];  // erase pos, insert (element, oldEnd)
            hasChanged := true;
            Widen(before, max, pos - 1, pos, element, intervals);
          } else if intervals[pos].end == element {
            if pos + 1 != |intervals| {
              var oldEnd := intervals[pos + 1].end;
              intervals := Remove(intervals, pos + 1)[pos := Interval(intervals[pos].start, oldEnd)];
              hasChanged := true;
              JoinRuns(before, max, pos, intervals);
            }
          } else {
            InDecided(before, max, pos, element);
          }
        } else {
          InAt(before, pos, element);
        }
      }
    }

    method Deletion(element: int) returns (hasChanged: bool)
      requires Valid() && Reaches(element)
      modifies this
      ensures Valid()
      ensures Deleted(old(intervals), max, element, intervals)
      ensures hasChanged <==> old(In(intervals, element))
      ensures !hasChanged ==> intervals == old(intervals)
      ensures intervals != [] ==> old(intervals) != [] && old(intervals[0].start) <= intervals[0].start
      ensures old(intervals) != [] && old(intervals[0].start) < element ==>
                intervals != [] && intervals[0].start == old(intervals[0].start)
    {
      if intervals == [] {
        return false;
      }
      ghost var before := intervals;
      var pos := LowerBound(intervals, element);
      if pos == |intervals| || element < intervals[pos].start {
        pos := pos - 1;
      }
      if element < intervals[pos].end {
        if intervals[pos].start == element {
          intervals := Remove(intervals, pos);
          DropRun(before, max, pos, intervals);
        } else {
          intervals := intervals[pos := Interval(intervals[pos].start, element)];
          CutRun(before, max, pos, element, intervals);
        }
        return true;
      }
      InDecided(before, max, pos, element);
      return false;
    }

    method IsIn(element: int) returns (r: bool)
      requires Valid() && Reaches(element)
      ensures r <==> In(intervals, element)
    {
      var pos := LowerBound(intervals, element);
      if pos == |intervals| {
        if pos == 0 {
          return false;
        }
        pos := pos - 1;
      } else if element < intervals[pos].start {
        pos := pos - 1;
      }
      InDecided(intervals, max, pos, element);
      return intervals[pos].start <= element && element < intervals[pos].end;
    }

    /** The place of `value` in the plain list, or -1. */
    method GetIndex(value: int, outerLimit: int) returns (r: int)
      requires Valid() && outerLimit <= max
      ensures r == PlaceOf(Ids(intervals, max, outerLimit), value)
    {
      IdsCorrect(intervals, max, outerLimit);
      ghost var ids := Ids(intervals, max, outerLimit);
      var count, i := 0, 0;
      while i < |intervals|
        invariant 0 <= i <= |intervals|
        invariant i < |intervals| ==> count == |Ids(intervals[..i], max, outerLimit)|
        invariant value !in Ids(intervals[..i], max, outerLimit)
      {
        var inter := intervals[i];
        var maxValue := if inter.end == max then outerLimit else inter.end;
        var range := maxValue - inter.start;
        IdsAround(intervals, i, max, outerLimit);
        RunMembers(inter.start, maxValue, value);
        if inter.start <= value && value < maxValue {
          IncreasingPlace(ids, value, count + (value - inter.start));
          return count + (value - inter.start);
        }
        count := count + range;
        i := i + 1;
        if i < |intervals| { assert inter.end < intervals[i].start; assert intervals[i].start < intervals[i].end; }
      }
      assert intervals[..|intervals|] == intervals;
      return -1;
    }

    /** The id at place `i` of the plain list, or `max`; before the list, an id counted back from the first start. */
    method GetElementAt(i: int, outerLimit: int) returns (r: int)
      requires Valid()
      ensures r == IdAt(intervals, max, outerLimit, i)
    {
      var index, k := 0, 0;
      while k < |intervals|
        invariant 0 <= k <= |intervals|
        invariant k < |intervals| ==> index == |Ids(intervals[..k], max, outerLimit)|
        invariant i >= 0 ==> |Ids(intervals[..k], max, outerLimit)| <= i
        invariant k == 0 ==> index == 0
        invariant i < 0 && k > 0 ==>
                  k == |intervals| == 1 && Cut(intervals[0], max, outerLimit) - intervals[0].start <= i
      {
        var inter := intervals[k];
        var maxValue := if inter.end == max then outerLimit else inter.end;
        var range := maxValue - inter.start;
        IdsAround(intervals, k, max, outerLimit);
        if i < index + range {
          return inter.start + (i - index);
        }
        index := index + range;
        k := k + 1;
        if k < |intervals| { assert inter.end < intervals[k].start; assert intervals[k].start < intervals[k].end; }
      }
      assert intervals[..|intervals|] == intervals;
      return max;
    }

    method GetSize(outerLimit: int) returns (size: int)
      requires Valid()
      ensures size == |Ids(intervals, max, outerLimit)| - Overrun(intervals, max, outerLimit)
    {
      TotalLengthCorrect(intervals, max, outerLimit);
      size := 0;
      var i := 0;
      while i < |intervals|
        invariant 0 <= i <= |intervals|
        invariant size + TotalLength(intervals[i..], max, outerLimit) == TotalLength(intervals, max, outerLimit)
      {
        var inter := intervals[i];
        assert intervals[i..][1..] == intervals[i + 1..];
        var maxValue := if inter.end == max then outerLimit else inter.end;
        size := size + (maxValue - inter.start);
        i := i + 1;
      }
    }
  }

  /** Membership, run `i` apart from the others. */
  lemma Split(iv: seq<Interval>, i: nat)
    requires i < |iv|
    ensures forall x :: In(iv, x) <==> InOther(iv, i, x) || iv[i].start <= x < iv[i].end
  {
    assert iv == iv[..i] + [iv[i]] + iv[i + 1..];
    forall x ensures In(iv, x) <==> InOther(iv, i, x) || iv[i].start <= x < iv[i].end {
      InConcat(iv[..i] + [iv[i]], iv[i + 1..], x);
      InConcat(iv[..i], [iv[i]], x);
      InSmall(iv[i], iv[i], iv[i], x);
    }
  }

  ghost predicate InOther(iv: seq<Interval>, i: nat, x: int)
    requires i < |iv|
  {
    In(iv[..i], x) || In(iv[i + 1..], x)
  }

  lemma UpdateRun(iv: seq<Interval>, i: nat, r: Interval)
    requires i < |iv|
    ensures forall x :: In(iv[i := r], x) <==> InOther(iv, i, x) || r.start <= x < r.end
  {
    var after := iv[i := r];
    assert after[..i] == iv[..i] && after[i + 1..] == iv[i + 1..];
    Split(after, i);
    forall x ensures InOther(after, i, x) <==> InOther(iv, i, x) {}
  }

  /** The gap after run `g`, from `e` on, is covered by moving the end of run `i == g` or the start of run `i == g +
      1`. */
  lemma Widen(before: seq<Interval>, max: int, g: nat, i: nat, e: int, after: seq<Interval>)
    requires WellFormed(before, max) && g <= i <= g + 1 && i < |before|
    requires before[g].end <= e < (if g + 1 < |before| then before[g + 1].start else max)
    requires i == g ==> before[g].end == e && g + 1 == |before|
    requires after == before[i := if i == g then Interval(before[i].start, max) else Interval(e, before[i].end)]
    requires i == g + 1 ==> before[g].end < e
    ensures WellFormed(after, max) && !In(before, e) && Added(before, max, e, after)
  {
    InDecided(before, max, g, e);
    GapAfter(before, max, g, e);
    Split(before, i);
    UpdateRun(before, i, after[i]);
    WidenedWellFormed(before, max, g, i, e, after);
  }

  lemma WidenedWellFormed(before: seq<Interval>, max: int, g: nat, i: nat, e: int, after: seq<Interval>)
    requires WellFormed(before, max) && g <= i <= g + 1 && i < |before|
    requires before[g].end <= e < (if g + 1 < |before| then before[g + 1].start else max)
    requires i == g ==> before[g].end == e && g + 1 == |before|
    requires after == before[i := if i == g then Interval(before[i].start, max) else Interval(e, before[i].end)]
    requires i == g + 1 ==> before[g].end < e
    ensures WellFormed(after, max)
  {
    Outside(before, max, g);
  }

  lemma AppendRun(before: seq<Interval>, max: int, e: int, after: seq<Interval>)
    requires WellFormed(before, max) && e < max
    requires before != [] ==> before[|before| - 1].end < e
    requires after == before + [Interval(e, max)]
    ensures WellFormed(after, max) && !In(before, e) && Added(before, max, e, after)
  {
    if before != [] {
      Outside(before, max, |before| - 1);
      InDecided(before, max, |before| - 1, e);
      GapAfter(before, max, |before| - 1, e);
    }
    forall x ensures In(after, x) <==> In(before, x) || e <= x < max {
      InConcat(before, [Interval(e, max)], x);
      InSmall(Interval(e, max), Interval(e, max), Interval(e, max), x);
    }
  }

  /** Runs `i` and `i + 1` joined over the gap between them. */
  lemma JoinRuns(before: seq<Interval>, max: int, i: nat, after: seq<Interval>)
    requires WellFormed(before, max) && i + 1 < |before|
    requires after == Remove(before, i + 1)[i := Interval(before[i].start, before[i + 1].end)]
    ensures WellFormed(after, max) && !In(before, before[i].end) && Added(before, max, before[i].end, after)
  {
    InDecided(before, max, i, before[i].end);
    GapAfter(before, max, i, before[i].end);
    var joined := Interval(before[i].start, before[i + 1].end);
    assert before == before[..i] + [before[i], before[i + 1]] + before[i + 2..];
    assert after == before[..i] + [joined] + before[i + 2..];
    JoinedWellFormed(before, max, i, after);
    forall x ensures In(after, x) <==> In(before, x) || before[i].end <= x < before[i + 1].start {
      InConcat(before[..i] + [before[i], before[i + 1]], before[i + 2..], x);
      InConcat(before[..i], [before[i], before[i + 1]], x);
      InConcat(before[..i] + [joined], before[i + 2..], x);
      InConcat(before[..i], [joined], x);
      InSmall(joined, before[i], before[i + 1], x);
    }
  }

  lemma JoinedWellFormed(before: seq<Interval>, max: int, i: nat, after: seq<Interval>)
    requires WellFormed(before, max) && i + 1 < |before|
    requires after == before[..i] + [Interval(before[i].start, before[i + 1].end)] + before[i + 2..]
    ensures WellFormed(after, max)
  {
    forall j | 0 <= j < |after|
      ensures after[j] == if j < i then before[j]
                          else if j == i then Interval(before[i].start, before[i + 1].end) else before[j + 1] {}
  }

  lemma InConcat(a: seq<Interval>, b: seq<Interval>, x: int)
    ensures In(a + b, x) <==> In(a, x) || In(b, x)
  {
    if In(a, x) {
      var j :| 0 <= j < |a| && a[j].start <= x < a[j].end;
      InAt(a + b, j, x);
    }
    if In(b, x) {
      var j :| 0 <= j < |b| && b[j].start <= x < b[j].end;
      InAt(a + b, |a| + j, x);
    }
    if In(a + b, x) {
      var j :| 0 <= j < |a + b| && (a + b)[j].start <= x < (a + b)[j].end;
      if j < |a| { InAt(a, j, x); } else { InAt(b, j - |a|, x); }
    }
  }

  lemma InSmall(joined: Interval, r: Interval, t: Interval, x: int)
    ensures In([joined], x) <==> joined.start <= x < joined.end
    ensures In([r, t], x) <==> r.start <= x < r.end || t.start <= x < t.end
  {
    if joined.start <= x < joined.end { InAt([joined], 0, x); }
    if r.start <= x < r.end { InAt([r, t], 0, x); }
    if t.start <= x < t.end { InAt([r, t], 1, x); }
  }

  lemma DropRun(before: seq<Interval>, max: int, i: nat, after: seq<Interval>)
    requires WellFormed(before, max) && i < |before|
    requires after == Remove(before, i)
    ensures WellFormed(after, max) && In(before, before[i].start) && Deleted(before, max, before[i].start, after)
  {
    InAt(before, i, before[i].start);
    Outside(before, max, i);
    GapAfter(before, max, i, before[i].start);
    Split(before, i);
    DroppedWellFormed(before, max, i);
    DroppedMembers(before, i);
    assert forall x :: In(after, x) <==> InOther(before, i, x);
  }

  lemma DroppedMembers(iv: seq<Interval>, i: nat)
    requires i < |iv|
    ensures forall x :: In(Remove(iv, i), x) <==> InOther(iv, i, x)
  {
    forall x ensures In(Remove(iv, i), x) <==> InOther(iv, i, x) {
      InConcat(iv[..i], iv[i + 1..], x);
    }
  }

  lemma DroppedWellFormed(iv: seq<Interval>, max: int, i: nat)
    requires WellFormed(iv, max) && i < |iv|
    ensures WellFormed(Remove(iv, i), max)
  {
    var after := Remove(iv, i);
    forall j | 0 <= j < |after| ensures after[j] == if j < i then iv[j] else iv[j + 1] {}
  }

  lemma CutRun(before: seq<Interval>, max: int, i: nat, e: int, after: seq<Interval>)
    requires WellFormed(before, max) && i < |before| && before[i].start < e < before[i].end
    requires after == before[i := Interval(before[i].start, e)]
    ensures WellFormed(after, max) && In(before, e) && Deleted(before, max, e, after)
  {
    InAt(before, i, e);
    Outside(before, max, i);
    GapAfter(before, max, i, e);
    Split(before, i);
    UpdateRun(before, i, after[i]);
  }

  /** With run `i` the last to start at or before `e`, nothing is stored from its end up to the next start. */
  lemma GapAfter(iv: seq<Interval>, max: int, i: nat, e: int)
    requires WellFormed(iv, max) && i < |iv| && iv[i].start <= e && (i + 1 < |iv| ==> e < iv[i + 1].start)
    ensures NextStart(iv, e, max) == if i + 1 < |iv| then iv[i + 1].start else max
    ensures forall x :: iv[i].end <= x < NextStart(iv, e, max) ==> !In(iv, x)
  {
    var n := LowerBound(iv, e + 1);
    forall x | iv[i].end <= x < NextStart(iv, e, max) ensures !In(iv, x) {
      InDecided(iv, max, i, x);
    }
  }
}
