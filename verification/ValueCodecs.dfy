/** How the values of the trees are written as bytes and read back. */
module ValueCodecs {
  import opened OrderedKeys
  import opened Intervals
  import opened Positions
  import opened Values
  import opened Words
  import opened Leb128

  const I32 := 0x8000_0000

  predicate FitsInt(value: int) {
    -I32 <= value < I32
  }

  /** A 64-bit number stored in a 32-bit one. */
  function Narrowed(value: int): (r: int)
    ensures FitsInt(r) && (FitsInt(value) ==> r == value)
  {
    (value + I32) % (2 * I32) - I32
  }

  // ----- runs of versions

  ghost predicate NarrowIntervals(iv: seq<Interval>) {
    forall i :: 0 <= i < |iv| ==> FitsInt(iv[i].start) && FitsInt(iv[i].end)
  }

  /** The ends of the runs, one after the other. */
  function IntervalsBytes(iv: seq<Interval>): seq<Byte> {
    if iv == [] then [] else Sleb(iv[0].start) + Sleb(iv[0].end) + IntervalsBytes(iv[1..])
  }

  lemma {:induction false} IntervalsConcat(a: seq<Interval>, r: Interval)
    ensures IntervalsBytes(a + [r]) == IntervalsBytes(a) + (Sleb(r.start) + Sleb(r.end))
  {
    hide Sleb;
    if a == [] {
      assert a + [r] == [r];
      assert IntervalsBytes([r][1..]) == [];
    } else {
      assert (a + [r])[1..] == a[1..] + [r];
      IntervalsConcat(a[1..], r);
    }
  }

  method SerializeIntervals(iv: seq<Interval>) returns (data: seq<Byte>)
    requires NarrowIntervals(iv)
    ensures data == IntervalsBytes(iv)
  {
    hide Sleb;
    data := [];
    var i := 0;
    while i < |iv|
      invariant 0 <= i <= |iv| && data == IntervalsBytes(iv[..i])
    {
      assert iv[..i + 1] == iv[..i] + [iv[i]];
      IntervalsConcat(iv[..i], iv[i]);
      ghost var before := data;
      data := EncodeSleb128(iv[i].start, data);
      data := EncodeSleb128(iv[i].end, data);
      assert data == before + (Sleb(iv[i].start) + Sleb(iv[i].end));
      i := i + 1;
    }
    assert iv[..i] == iv;
  }

  /** The runs that the first `size` bytes stand for. */
  ghost predicate StandsFor(iv: seq<Interval>, data: seq<Byte>, size: nat) {
    WellFormed(iv, MAX) && NarrowIntervals(iv) && size <= |data| && data[..size] == IntervalsBytes(iv)
  }

  /** The runs read so far, and the bytes of the others. */
  ghost predicate ReadSoFar(iv: seq<Interval>, read: seq<Interval>, data: seq<Byte>, i: nat, size: nat) {
    && i <= size <= |data| && |read| <= |iv| && read == iv[..|read|]
    && data[i..size] == IntervalsBytes(iv[|read|..])
  }

  /** `std::map::insert`: a run with a new start goes to its place. */
  function InsertRun(iv: seq<Interval>, r: Interval): seq<Interval> {
    var pos := LowerBound(iv, r.start);
    if pos < |iv| && iv[pos].start == r.start then iv else iv[..pos] + [r] + iv[pos..]
  }

  lemma InsertLast(iv: seq<Interval>, r: Interval)
    requires forall j :: 0 <= j < |iv| ==> iv[j].start < r.start
    ensures InsertRun(iv, r) == iv + [r]
  {
    var pos := LowerBound(iv, r.start);
    assert pos == |iv|;
  }

  lemma RunsTakeBytes(iv: seq<Interval>)
    ensures iv != [] <==> |IntervalsBytes(iv)| > 0
  {
  }

  /** The next two numbers are the ends of the next run. */
  lemma NextRun(iv: seq<Interval>, read: seq<Interval>, data: seq<Byte>, i: nat, size: nat)
    requires StandsFor(iv, data, size) && ReadSoFar(iv, read, data, i, size) && i < size
    ensures |read| < |iv| && var r := iv[|read|]; var j := i + |Sleb(r.start)|;
      && j + |Sleb(r.end)| <= size && FitsInt(r.start) && FitsInt(r.end)
      && data[i..] == Sleb(r.start) + data[j..] && data[j..] == Sleb(r.end) + data[j + |Sleb(r.end)|..]
      && InsertRun(read, r) == read + [r] && ReadSoFar(iv, read + [r], data, j + |Sleb(r.end)|, size)
  {
    hide Sleb;
    var left := iv[|read|..];
    assert |data[i..size]| > 0;
    RunsTakeBytes(left);
    var r := left[0];
    var s, e := Sleb(r.start), Sleb(r.end);
    assert data[i..size] == s + e + IntervalsBytes(left[1..]);
    assert left[1..] == iv[|read| + 1..];
    assert read + [r] == iv[..|read| + 1];
    Three(data, i, size, s, e, IntervalsBytes(left[1..]));
    InsertLast(read, r);
  }

  lemma Pieces(a: seq<Byte>, b: seq<Byte>, c: seq<Byte>)
    ensures var whole := a + b + c;
      whole[..|a|] == a && whole[|a|..|a| + |b|] == b && whole[|a| + |b|..] == c
  {
    var whole := a + b + c;
    assert whole == a + (b + c);
    assert forall i :: 0 <= i < |b| ==> whole[|a|..|a| + |b|][i] == (b + c)[i] == b[i];
  }

  lemma SliceOfSlice(s: seq<Byte>, i: nat, n: nat, x: nat, y: nat)
    requires i <= n <= |s| && x <= y <= n - i
    ensures s[i..n][x..y] == s[i + x..i + y]
  {
    assert forall k :: 0 <= k < y - x ==> s[i..n][x..y][k] == s[i..n][x + k] == s[i + x..i + y][k];
  }

  lemma Three(data: seq<Byte>, i: nat, size: nat, a: seq<Byte>, b: seq<Byte>, c: seq<Byte>)
    requires i <= size <= |data| && data[i..size] == a + b + c
    ensures var j := i + |a|; var k := j + |b|;
      && k <= size && data[i..] == a + data[j..] && data[j..] == b + data[k..] && data[k..size] == c
  {
    var j, k := i + |a|, i + |a| + |b|;
    Pieces(a, b, c);
    SliceOfSlice(data, i, size, 0, |a|);
    SliceOfSlice(data, i, size, |a|, |a| + |b|);
    SliceOfSlice(data, i, size, |a| + |b|, size - i);
    assert data[i..] == data[i..j] + data[j..] && data[j..] == data[j..k] + data[k..];
  }

  lemma ReadFirst(iv: seq<Interval>, data: seq<Byte>, size: nat)
    requires StandsFor(iv, data, size)
    ensures ReadSoFar(iv, [], data, 0, size)
  {
    assert iv[0..] == iv && data[0..size] == data[..size];
  }

  lemma ReadAll(iv: seq<Interval>, read: seq<Interval>, data: seq<Byte>, i: nat, size: nat)
    requires ReadSoFar(iv, read, data, i, size) && i >= size
    ensures read == iv
  {
    RunsTakeBytes(iv[|read|..]);
  }

  /** Reads the bytes of some runs; undoes `SerializeIntervals`. */
  method DeserializeIntervals(data: seq<Byte>, size: nat) returns (r: Option<seq<Interval>>)
    requires size <= |data|
    ensures forall iv :: StandsFor(iv, data, size) ==> r == Some(iv)
  {
    hide StandsFor, ReadSoFar, Sleb, DecodesSleb, InsertRun;
    var intervals: seq<Interval> := [];
    var i: nat := 0;
    forall iv: seq<Interval> | StandsFor(iv, data, size) ensures ReadSoFar(iv, intervals, data, i, size) {
      ReadFirst(iv, data, size);
    }
    while i < size
      invariant i <= |data|
      invariant forall iv :: StandsFor(iv, data, size) ==> ReadSoFar(iv, intervals, data, i, size)
    {
      ghost var at := i;
      var s := DecodeSleb128(data[i..]);
      forall iv: seq<Interval> | StandsFor(iv, data, size)
        ensures |intervals| < |iv| && ReadsAs(s, iv[|intervals|].start) {
        NextRun(iv, intervals, data, at, size);
        SlebRoundTrip(iv[|intervals|].start, data[at + |Sleb(iv[|intervals|].start)|..], s);
      }
      if !s.Decoded? {
        return None;
      }
      i := i + s.size;
      var e := DecodeSleb128(data[i..]);
      forall iv: seq<Interval> | StandsFor(iv, data, size)
        ensures |intervals| < |iv| && ReadsAs(e, iv[|intervals|].end) {
        NextRun(iv, intervals, data, at, size);
        SlebRoundTrip(iv[|intervals|].end, data[i + |Sleb(iv[|intervals|].end)|..], e);
      }
      if !e.Decoded? {
        return None;
      }
      i := i + e.size;
      var run := Interval(Narrowed(s.value), Narrowed(e.value));
      forall iv: seq<Interval> | StandsFor(iv, data, size)
        ensures ReadSoFar(iv, InsertRun(intervals, run), data, i, size) {
        NextRun(iv, intervals, data, at, size);
      }
      intervals := InsertRun(intervals, run);
    }
    forall iv: seq<Interval> | StandsFor(iv, data, size) ensures intervals == iv {
      ReadAll(iv, intervals, data, i, size);
    }
    return Some(intervals);
  }

  ghost predicate ReadsAs(o: Outcome, value: int) {
    o == Decoded(value, |Sleb(value)|)
  }

  // ----- ranks

  function NumbersBytes(numbers: seq<int>): seq<Byte> {
    if numbers == [] then [] else Sleb(numbers[0]) + NumbersBytes(numbers[1..])
  }

  lemma {:induction false} NumbersConcat(a: seq<int>, x: int)
    ensures NumbersBytes(a + [x]) == NumbersBytes(a) + Sleb(x)
  {
    hide Sleb;
    if a == [] {
      assert a + [x] == [x];
      assert NumbersBytes([x][1..]) == [];
    } else {
      assert (a + [x])[1..] == a[1..] + [x];
      NumbersConcat(a[1..], x);
    }
  }

  ghost predicate AllFit(numbers: seq<int>) {
    forall i :: 0 <= i < |numbers| ==> FitsSigned(numbers[i])
  }

  /** The numbers' bytes are at a place of the data. */
  ghost predicate NumbersAt(numbers: seq<int>, data: seq<Byte>, at: nat) {
    at + |NumbersBytes(numbers)| <= |data| && data[at..at + |NumbersBytes(numbers)|] == NumbersBytes(numbers)
  }

  /** Of numbers at a place, the first can be read there, and the others are behind it. */
  lemma FirstNumber(numbers: seq<int>, data: seq<Byte>, at: nat)
    requires numbers != [] && NumbersAt(numbers, data, at)
    ensures var k := at + |Sleb(numbers[0])|;
      && k <= |data| && data[at..] == Sleb(numbers[0]) + data[k..] && NumbersAt(numbers[1..], data, k)
      && |NumbersBytes(numbers)| == |Sleb(numbers[0])| + |NumbersBytes(numbers[1..])|
  {
    hide Sleb;
    var none: seq<Byte> := [];
    var a, b := Sleb(numbers[0]), NumbersBytes(numbers[1..]);
    assert data[at..at + |a + b|] == a + b + none;
    Three(data, at, at + |a + b|, a, b, none);
    var k := at + |a|;
    assert data[k..k + |b|] == data[at..at + |a + b|][|a|..];
  }

  /** Writes numbers one after the other. */
  method SerializeNumbers(numbers: seq<int>, prefix: seq<Byte>) returns (data: seq<Byte>)
    requires AllFit(numbers)
    ensures data == prefix + NumbersBytes(numbers)
  {
    hide Sleb;
    data := prefix;
    var i := 0;
    while i < |numbers|
      invariant 0 <= i <= |numbers| && data == prefix + NumbersBytes(numbers[..i])
    {
      assert numbers[..i + 1] == numbers[..i] + [numbers[i]];
      NumbersConcat(numbers[..i], numbers[i]);
      data := EncodeSleb128(numbers[i], data);
      i := i + 1;
    }
    assert numbers[..i] == numbers;
  }

  /** Reads the number at a place; says how many bytes it took. */
  method ReadNumber(data: seq<Byte>, at: nat) returns (o: Outcome)
    requires at <= |data|
    ensures forall numbers :: numbers != [] && FitsSigned(numbers[0]) && NumbersAt(numbers, data, at) ==>
              ReadsAs(o, numbers[0])
    ensures o.Decoded? ==> at + o.size <= |data| && FitsSigned(o.value)
  {
    hide Sleb, DecodesSleb, NumbersAt, NumbersBytes;
    o := DecodeSleb128(data[at..]);
    forall numbers | numbers != [] && FitsSigned(numbers[0]) && NumbersAt(numbers, data, at)
      ensures ReadsAs(o, numbers[0]) {
      FirstNumber(numbers, data, at);
      SlebRoundTrip(numbers[0], data[at + |Sleb(numbers[0])|..], o);
    }
  }

  /** Reads seven ranks; undoes writing them. */
  method DeserializePositions(data: seq<Byte>, at: nat) returns (r: Option<PatchPositions>, next: nat)
    requires at <= |data|
    ensures forall p: PatchPositions :: AllFit(p) && NumbersAt(p, data, at) ==>
              r == Some(p) && next == at + |NumbersBytes(p)| <= |data|
    ensures next <= |data|
  {
    hide Sleb, NumbersAt, NumbersBytes;
    var read: seq<int> := [];
    next := at;
    forall p: PatchPositions | AllFit(p) && NumbersAt(p, data, at) ensures RestAt(p, read, data, at, next) {
      assert p[0..] == p;
    }
    while |read| < 7
      invariant |read| <= 7 && next <= |data|
      invariant forall p: PatchPositions :: AllFit(p) && NumbersAt(p, data, at) ==> RestAt(p, read, data, at, next)
    {
      var o := ReadNumber(data, next);
      forall p: PatchPositions | AllFit(p) && NumbersAt(p, data, at)
        ensures ReadsAs(o, p[|read|]) && RestAt(p, read + [p[|read|]], data, at, next + |Sleb(p[|read|])|) {
        NextRank(p, read, data, at, next);
      }
      if !o.Decoded? {
        return None, next;
      }
      read := read + [o.value];
      next := next + o.size;
    }
    forall p: PatchPositions | AllFit(p) && NumbersAt(p, data, at) ensures read == p && next == at + |NumbersBytes(p)| {
      NoRankLeft(p, read, data, at, next);
    }
    return Some(read), next;
  }

  /** The ranks read so far, and where the bytes of the others are. */
  ghost predicate RestAt(p: PatchPositions, read: seq<int>, data: seq<Byte>, at: nat, next: nat) {
    && |read| <= 7 && read == p[..|read|] && NumbersAt(p[|read|..], data, next)
    && next + |NumbersBytes(p[|read|..])| == at + |NumbersBytes(p)|
  }

  lemma NextRank(p: PatchPositions, read: seq<int>, data: seq<Byte>, at: nat, next: nat)
    requires AllFit(p) && RestAt(p, read, data, at, next) && |read| < 7
    ensures p[|read|..] != [] && FitsSigned(p[|read|..][0]) && p[|read|..][0] == p[|read|]
    ensures NumbersAt(p[|read|..], data, next)
    ensures RestAt(p, read + [p[|read|]], data, at, next + |Sleb(p[|read|])|)
  {
    hide Sleb, NumbersAt, NumbersBytes;
    var left := p[|read|..];
    FirstNumber(left, data, next);
    assert left[1..] == p[|read| + 1..] && read + [p[|read|]] == p[..|read| + 1];
  }

  lemma NoRankLeft(p: PatchPositions, read: seq<int>, data: seq<Byte>, at: nat, next: nat)
    requires RestAt(p, read, data, at, next) && |read| == 7
    ensures read == p && next == at + |NumbersBytes(p)| <= |data|
  {
    assert p[7..] == [] && p[..7] == p;
  }

  // ----- differences of ranks

  /** The differences from field `k` on, without those that are zero. */
  function Changes(prev: PatchPositions, next: PatchPositions, k: nat): seq<int>
    requires k <= 7
    decreases 7 - k
  {
    if k == 7 then [] else (if next[k] != prev[k] then [next[k] - prev[k]] else []) + Changes(prev, next, k + 1)
  }

  /** One bit for each field from `k` on: does it change? */
  function HeadBits(prev: PatchPositions, next: PatchPositions, k: nat): (r: nat)
    requires k <= 7
    ensures r < Pow2(7 - k)
    decreases 7 - k
  {
    if k == 7 then 0 else (if next[k] != prev[k] then 1 else 0) + 2 * HeadBits(prev, next, k + 1)
  }

  lemma HeadIsByte(prev: PatchPositions, next: PatchPositions)
    ensures HeadBits(prev, next, 0) < 128
  {
    Pow2Step(0);
  }

  function EntryBytes(prev: PatchPositions, e: VersionPositions): seq<Byte> {
    HeadIsByte(prev, e.positions);
    [HeadBits(prev, e.positions, 0)] + NumbersBytes([e.patchId] + Changes(prev, e.positions, 0))
  }

  /** The version fits in 32 bits, and all differences in 64. */
  ghost predicate EntryFits(prev: PatchPositions, e: VersionPositions) {
    FitsInt(e.patchId) && AllFit(e.positions) && forall k :: 0 <= k < 7 ==> FitsSigned(e.positions[k] - prev[k])
  }

  lemma {:induction false} ChangesFit(prev: PatchPositions, e: VersionPositions, k: nat)
    requires k <= 7 && EntryFits(prev, e)
    ensures AllFit(Changes(prev, e.positions, k))
    decreases 7 - k
  {
    if k < 7 { ChangesFit(prev, e, k + 1); }
  }

  /** The bits of the fields before `k`, below those of the others. */
  ghost predicate HeadSoFar(prev: PatchPositions, next: PatchPositions, k: nat, head: nat)
    requires k <= 7
  {
    head < Pow2(k) && head + Pow2(k) * HeadBits(prev, next, k) == HeadBits(prev, next, 0)
  }

  lemma HeadEnds(prev: PatchPositions, next: PatchPositions, head: nat)
    ensures HeadSoFar(prev, next, 0, 0)
    ensures HeadSoFar(prev, next, 7, head) ==> head == HeadBits(prev, next, 0) < 128
  {
    hide Pow2;
    HeadIsByte(prev, next);
    PowZero();
  }

  lemma BitAbove(prev: PatchPositions, next: PatchPositions, k: nat, head: nat)
    requires k < 7 && HeadSoFar(prev, next, k, head)
    ensures HeadSoFar(prev, next, k + 1, BitOr(head, ShiftLeft(if next[k] != prev[k] then 1 else 0, k)))
  {
    hide BitOr, ShiftLeft;
    var bit, h := if next[k] != prev[k] then 1 else 0, HeadBits(prev, next, k + 1);
    Pow2Grows(k, 7);
    Pow2Step(0);
    ShiftedWithin(bit, k);
    BitOrAbove(head, bit, k);
    Spread(Pow2(k), bit, h);
  }

  lemma NextChange(prev: PatchPositions, next: PatchPositions, k: nat, diffValues: seq<int>)
    requires k < 7
    ensures diffValues + Changes(prev, next, k) ==
      (if next[k] != prev[k] then diffValues + [next[k] - prev[k]] else diffValues) + Changes(prev, next, k + 1)
  {
    var first := if next[k] != prev[k] then [next[k] - prev[k]] else [];
    assert diffValues + (first + Changes(prev, next, k + 1)) == (diffValues + first) + Changes(prev, next, k + 1);
    assert diffValues + [] == diffValues;
  }

  lemma Spread(m: int, bit: int, h: int)
    ensures m * (bit + 2 * h) == bit * m + (2 * m) * h
  {
  }

  /** `position_diff`: which fields change, the version, and the differences. */
  method PositionDiff(prev: PatchPositions, e: VersionPositions, prefix: seq<Byte>) returns (data: seq<Byte>)
    requires EntryFits(prev, e)
    ensures data == prefix + EntryBytes(prev, e)
  {
    hide NumbersBytes, BitOr, ShiftLeft, HeadSoFar, HeadBits, Changes, AllFit;
    var head: nat := 0;
    var diffValues: seq<int> := [];
    var k := 0;
    HeadEnds(prev, e.positions, 0);
    while k < 7
      invariant 0 <= k <= 7 && HeadSoFar(prev, e.positions, k, head)
      invariant Changes(prev, e.positions, 0) == diffValues + Changes(prev, e.positions, k)
    {
      var diff := e.positions[k] - prev[k];
      BitAbove(prev, e.positions, k, head);
      NextChange(prev, e.positions, k, diffValues);
      head := BitOr(head, ShiftLeft(if diff != 0 then 1 else 0, k));
      if diff != 0 {
        diffValues := diffValues + [diff];
      }
      k := k + 1;
    }
    HeadEnds(prev, e.positions, head);
    NoChangeLeft(prev, e.positions);
    assert diffValues + [] == diffValues;
    ChangesFit(prev, e, 0);
    IdAndChangesFit(e.patchId, diffValues);
    data := SerializeNumbers([e.patchId] + diffValues, prefix + [head]);
  }

  lemma NoChangeLeft(prev: PatchPositions, next: PatchPositions)
    ensures Changes(prev, next, 7) == []
  {
  }

  lemma IdAndChangesFit(id: int, changes: seq<int>)
    requires FitsInt(id) && AllFit(changes)
    ensures AllFit([id] + changes)
  {
  }

  lemma PowZero()
    ensures Pow2(0) == 1
  {
  }

  /** An entry's bytes are at a place of the data. */
  ghost predicate EntryAt(prev: PatchPositions, e: VersionPositions, data: seq<Byte>, at: nat) {
    && EntryFits(prev, e) && at < |data| && data[at] == HeadBits(prev, e.positions, 0)
    && NumbersAt([e.patchId] + Changes(prev, e.positions, 0), data, at + 1)
  }

  ghost function EntryEnd(prev: PatchPositions, e: VersionPositions, at: nat): nat {
    at + |EntryBytes(prev, e)|
  }

  /** The fields read so far; the other bits of the head; the differences still to be read. */
  ghost predicate FieldsSoFar(prev: PatchPositions, e: VersionPositions, fields: seq<int>, head: nat, data: seq<Byte>,
                              at: nat, next: nat) {
    && |fields| <= 7 && fields == e.positions[..|fields|] && head == HeadBits(prev, e.positions, |fields|)
    && EntryFits(prev, e) && NumbersAt(Changes(prev, e.positions, |fields|), data, next)
    && next + |NumbersBytes(Changes(prev, e.positions, |fields|))| == EntryEnd(prev, e, at)
  }

  lemma EntryBegins(prev: PatchPositions, e: VersionPositions, data: seq<Byte>, at: nat)
    requires EntryAt(prev, e, data, at)
    ensures FieldsSoFar(prev, e, [], data[at], data, at, at + 1 + |Sleb(e.patchId)|)
    ensures var numbers := [e.patchId] + Changes(prev, e.positions, 0);
      numbers[0] == e.patchId && FitsSigned(numbers[0]) && NumbersAt(numbers, data, at + 1)
  {
    hide NumbersBytes, NumbersAt, Sleb, Changes, HeadBits;
    var numbers := [e.patchId] + Changes(prev, e.positions, 0);
    assert numbers[1..] == Changes(prev, e.positions, 0);
    FirstNumber(numbers, data, at + 1);
  }

  /** What is known of the next field: it is changed by the next difference, or as before. */
  ghost predicate FieldFollows(prev: PatchPositions, e: VersionPositions, fields: seq<int>, head: nat, data: seq<Byte>,
                               at: nat, next: nat)
    requires |fields| < 7
  {
    var k := |fields|; var diff, changes := e.positions[k] - prev[k], Changes(prev, e.positions, k);
    && FitsSigned(e.positions[k]) && FitsSigned(diff)
    && (head % 2 == 1 ==>
          && changes != [] && changes[0] == diff && NumbersAt(changes, data, next)
          && FieldsSoFar(prev, e, fields + [e.positions[k]], head / 2, data, at, next + |Sleb(diff)|))
    && (head % 2 == 0 ==> diff == 0 && FieldsSoFar(prev, e, fields + [e.positions[k]], head / 2, data, at, next))
  }

  /** One field of the head and of the differences. */
  lemma FieldStep(prev: PatchPositions, next: PatchPositions, k: nat)
    requires k < 7
    ensures var bits, changes := HeadBits(prev, next, k), Changes(prev, next, k);
      && bits / 2 == HeadBits(prev, next, k + 1)
      && if next[k] != prev[k] then
           bits % 2 == 1 && changes != [] && changes[0] == next[k] - prev[k] &&
             changes[1..] == Changes(prev, next, k + 1)
         else bits % 2 == 0 && changes == Changes(prev, next, k + 1)
  {
    var none: seq<int> := [];
    assert none + Changes(prev, next, k + 1) == Changes(prev, next, k + 1);
  }

  lemma NextField(prev: PatchPositions, e: VersionPositions, fields: seq<int>, head: nat, data: seq<Byte>, at: nat,
                  next: nat)
    requires FieldsSoFar(prev, e, fields, head, data, at, next) && |fields| < 7
    ensures FieldFollows(prev, e, fields, head, data, at, next)
  {
    hide NumbersBytes, NumbersAt, Sleb, EntryEnd, Pow2, HeadBits, Changes;
    var k := |fields|;
    var changes := Changes(prev, e.positions, k);
    assert fields + [e.positions[k]] == e.positions[..k + 1];
    FieldStep(prev, e.positions, k);
    if e.positions[k] != prev[k] { FirstNumber(changes, data, next); }
  }

  lemma EntryDone(prev: PatchPositions, e: VersionPositions, fields: seq<int>, head: nat, data: seq<Byte>, at: nat,
                  next: nat)
    requires FieldsSoFar(prev, e, fields, head, data, at, next) && |fields| == 7
    ensures fields == e.positions && next == EntryEnd(prev, e, at) <= |data|
  {
    hide EntryEnd;
    assert e.positions[..7] == e.positions;
  }

  /** `position_undiff`; undoes `PositionDiff`. */
  method PositionUndiff(data: seq<Byte>, at: nat, prev: PatchPositions) returns (r: Option<VersionPositions>, next: nat)
    requires at < |data|
    ensures forall e :: EntryAt(prev, e, data, at) ==> r == Some(e) && next == EntryEnd(prev, e, at)
    ensures r.Some? ==> at < next <= |data|
  {
    hide EntryAt, FieldsSoFar, NumbersAt, NumbersBytes, Sleb, EntryEnd, Changes, HeadBits, AllFit;
    next := at + 1;
    var head := data[at];
    var id := ReadNumber(data, next);
    forall e | EntryAt(prev, e, data, at)
      ensures ReadsAs(id, e.patchId) && FitsInt(e.patchId) &&
              FieldsSoFar(prev, e, [], head, data, at, next + |Sleb(e.patchId)|) {
      EntryBegins(prev, e, data, at);
      EntryIdFits(prev, e, data, at);
    }
    if !id.Decoded? {
      return None, next;
    }
    next := next + id.size;
    var patchId := Narrowed(id.value);
    var fields: seq<int> := [];
    while |fields| < 7
      invariant |fields| <= 7 && 0 <= head && at < next <= |data|
      invariant forall e :: EntryAt(prev, e, data, at) ==>
        e.patchId == patchId && FieldsSoFar(prev, e, fields, head, data, at, next)
    {
      var diff := 0;
      ghost var before := next;
      forall e | EntryAt(prev, e, data, at) ensures FieldFollows(prev, e, fields, head, data, at, before) {
        NextField(prev, e, fields, head, data, at, before);
      }
      if head % 2 == 1 {
        var o := ReadNumber(data, next);
        forall e | EntryAt(prev, e, data, at) ensures ReadsAs(o, e.positions[|fields|] - prev[|fields|]) {
          assert FieldFollows(prev, e, fields, head, data, at, before);
        }
        if !o.Decoded? {
          return None, next;
        }
        diff := o.value;
        next := next + o.size;
      }
      var field := prev[|fields|] + diff;
      forall e | EntryAt(prev, e, data, at)
        ensures field == e.positions[|fields|] && FitsSigned(field)
        ensures FieldsSoFar(prev, e, fields + [field], head / 2, data, at, next) {
        assert FieldFollows(prev, e, fields, head, data, at, before);
      }
      if !FitsSigned(field) {
        return None, next;
      }
      fields := fields + [field];
      head := head / 2;
    }
    forall e | EntryAt(prev, e, data, at) ensures fields == e.positions && next == EntryEnd(prev, e, at) {
      EntryDone(prev, e, fields, head, data, at, next);
    }
    return Some(VersionPositions(patchId, fields)), next;
  }

  lemma EntryIdFits(prev: PatchPositions, e: VersionPositions, data: seq<Byte>, at: nat)
    requires EntryAt(prev, e, data, at)
    ensures FitsInt(e.patchId)
  {
  }

  // ----- all rank changes of a value

  /** The entries from `i` on, each as the difference from the one before it. */
  function LaterBytes(vec: seq<VersionPositions>, i: nat): seq<Byte>
    requires 0 < i
    decreases |vec| - i
  {
    if i >= |vec| then [] else EntryBytes(vec[i - 1].positions, vec[i]) + LaterBytes(vec, i + 1)
  }

  function PositionsBytes(vec: seq<VersionPositions>): seq<Byte> {
    if vec == [] then [] else NumbersBytes([vec[0].patchId] + vec[0].positions) + LaterBytes(vec, 1)
  }

  /** Versions in 32 bits; ranks, and the differences of neighbouring entries, in 64. */
  ghost predicate PositionsFit(vec: seq<VersionPositions>) {
    && (vec != [] ==> FitsInt(vec[0].patchId) && AllFit(vec[0].positions))
    && forall i :: 0 < i < |vec| ==> EntryFits(vec[i - 1].positions, vec[i])
  }

  method SerializePositions(vec: seq<VersionPositions>) returns (data: seq<Byte>)
    requires PositionsFit(vec)
    ensures data == PositionsBytes(vec)
  {
    hide NumbersBytes, EntryBytes, EntryFits;
    data := [];
    if vec != [] {
      data := SerializeNumbers([vec[0].patchId] + vec[0].positions, data);
      var i := 1;
      while i < |vec|
        invariant 1 <= i <= |vec| && PositionsBytes(vec) == data + LaterBytes(vec, i)
      {
        ghost var before := data;
        var entry := EntryBytes(vec[i - 1].positions, vec[i]);
        data := PositionDiff(vec[i - 1].positions, vec[i], data);
        assert before + (entry + LaterBytes(vec, i + 1)) == data + LaterBytes(vec, i + 1);
        i := i + 1;
      }
    }
  }

  ghost predicate PositionsStand(vec: seq<VersionPositions>, data: seq<Byte>) {
    vec != [] && PositionsFit(vec) && data == PositionsBytes(vec)
  }

  ghost predicate EntriesSoFar(vec: seq<VersionPositions>, read: seq<VersionPositions>, data: seq<Byte>, at: nat) {
    && 0 < |read| <= |vec| && read == vec[..|read|] && PositionsFit(vec)
    && at <= |data| && data[at..] == LaterBytes(vec, |read|)
  }

  lemma FirstEntry(vec: seq<VersionPositions>, data: seq<Byte>)
    requires PositionsStand(vec, data)
    ensures vec != []
    ensures var numbers := [vec[0].patchId] + vec[0].positions; var at := |Sleb(vec[0].patchId)|;
      && FitsInt(vec[0].patchId) && AllFit(vec[0].positions)
      && numbers != [] && numbers[0] == vec[0].patchId && FitsSigned(numbers[0]) && NumbersAt(numbers, data, 0)
      && NumbersAt(vec[0].positions, data, at)
      && EntriesSoFar(vec, [vec[0]], data, at + |NumbersBytes(vec[0].positions)|)
  {
    hide Sleb, NumbersBytes, EntryFits, EntryBytes, LaterBytes;
    var numbers := [vec[0].patchId] + vec[0].positions;
    var bytes := NumbersBytes(numbers);
    assert data[0..|bytes|] == bytes && data[|bytes|..] == LaterBytes(vec, 1);
    FirstNumber(numbers, data, 0);
    assert numbers[1..] == vec[0].positions;
  }

  lemma NextEntryAt(vec: seq<VersionPositions>, read: seq<VersionPositions>, data: seq<Byte>, at: nat)
    requires EntriesSoFar(vec, read, data, at) && at < |data|
    ensures |read| < |vec| && read[|read| - 1].positions == vec[|read| - 1].positions
    ensures EntryAt(vec[|read| - 1].positions, vec[|read|], data, at)
    ensures EntriesSoFar(vec, read + [vec[|read|]], data, EntryEnd(vec[|read| - 1].positions, vec[|read|], at))
  {
    hide Sleb, NumbersBytes, EntryFits, HeadBits, Changes;
    var k := |read|;
    var prev, e := vec[k - 1].positions, vec[k];
    var numbers := [e.patchId] + Changes(prev, e.positions, 0);
    var head, bytes := EntryBytes(prev, e)[0], NumbersBytes(numbers);
    var left := data[at..];
    assert left == ([head] + bytes) + LaterBytes(vec, k + 1);
    assert data[at] == left[0];
    assert data[at + 1..at + 1 + |bytes|] == left[1..1 + |bytes|] == bytes;
    assert data[at + 1 + |bytes|..] == left[1 + |bytes|..] == LaterBytes(vec, k + 1);
    assert read + [e] == vec[..k + 1];
  }

  lemma SomethingLater(vec: seq<VersionPositions>, i: nat)
    requires 0 < i
    ensures i < |vec| ==> LaterBytes(vec, i) != []
  {
  }

  lemma NoEntryLeft(vec: seq<VersionPositions>, read: seq<VersionPositions>, data: seq<Byte>, at: nat)
    requires EntriesSoFar(vec, read, data, at) && at >= |data|
    ensures read == vec
  {
    SomethingLater(vec, |read|);
    assert vec[..|vec|] == vec;
  }

  /** `delta_deserialize_position_vec`; undoes `SerializePositions`. */
  method DeserializePositionVec(data: seq<Byte>) returns (r: Option<seq<VersionPositions>>)
    ensures forall vec :: PositionsStand(vec, data) ==> r == Some(vec)
  {
    hide PositionsStand, EntriesSoFar, EntryAt, EntryEnd, NumbersAt, NumbersBytes, Sleb, AllFit;
    var id := ReadNumber(data, 0);
    forall vec: seq<VersionPositions> | PositionsStand(vec, data)
      ensures vec != [] && ReadsAs(id, vec[0].patchId) && FitsInt(vec[0].patchId) {
      FirstEntry(vec, data);
    }
    if !id.Decoded? {
      return None;
    }
    var first, at := DeserializePositions(data, id.size);
    forall vec: seq<VersionPositions> | PositionsStand(vec, data)
      ensures vec != [] && first == Some(vec[0].positions) && EntriesSoFar(vec, [vec[0]], data, at) {
      FirstEntry(vec, data);
    }
    if first.None? {
      return None;
    }
    var read := [VersionPositions(Narrowed(id.value), first.value)];
    while at < |data|
      invariant read != [] && at <= |data|
      invariant forall vec :: PositionsStand(vec, data) ==> EntriesSoFar(vec, read, data, at)
    {
      ghost var before := at;
      var e, next := PositionUndiff(data, at, read[|read| - 1].positions);
      forall vec: seq<VersionPositions> | PositionsStand(vec, data)
        ensures |read| < |vec| && e == Some(vec[|read|]) && EntriesSoFar(vec, read + [vec[|read|]], data, next) {
        NextEntryAt(vec, read, data, before);
      }
      if e.None? {
        return None;
      }
      read := read + [e.value];
      at := next;
    }
    forall vec: seq<VersionPositions> | PositionsStand(vec, data) ensures read == vec {
      NoEntryLeft(vec, read, data, at);
    }
    return Some(read);
  }

  // ----- whole values

  ghost predicate IntervalsFit(iv: seq<Interval>) {
    WellFormed(iv, MAX) && NarrowIntervals(iv) && |IntervalsBytes(iv)| < U64
  }

  ghost predicate AdditionFits(d: AdditionData) {
    IntervalsFit(d.patches) && IntervalsFit(d.localChanges)
  }

  function AdditionBytes(d: AdditionData): seq<Byte> {
    Uleb(|IntervalsBytes(d.patches)|) + IntervalsBytes(d.patches) + IntervalsBytes(d.localChanges)
  }

  /** `PatchTreeAdditionValue::serialize`. */
  method SerializeAddition(d: AdditionData) returns (data: seq<Byte>)
    requires AdditionFits(d)
    ensures data == AdditionBytes(d)
  {
    hide IntervalsBytes, Uleb;
    var patches := SerializeIntervals(d.patches);
    var local := SerializeIntervals(d.localChanges);
    data := EncodeUleb128(|patches|, []);
    data := data + patches;
    if |local| > 0 {
      data := data + local;
    }
  }

  /** Where the parts of an addition value are. */
  lemma AdditionParts(d: AdditionData, data: seq<Byte>, o: Outcome)
    requires AdditionFits(d) && data == AdditionBytes(d) && DecodesUleb(data, o)
    ensures var p, l := IntervalsBytes(d.patches), IntervalsBytes(d.localChanges);
      && o == Decoded(|p|, |Uleb(|p|)|) && o.size + o.value <= |data|
      && StandsFor(d.patches, data[o.size..], |p|) &&
         StandsFor(d.localChanges, data[o.size + |p|..], |data| - o.size - |p|)
  {
    hide IntervalsBytes, NarrowIntervals, Uleb, DecodesUleb, WellFormed;
    var p, l := IntervalsBytes(d.patches), IntervalsBytes(d.localChanges);
    var u := Uleb(|p|);
    assert data == u + (p + l);
    UlebRoundTrip(|p|, p + l, o);
    assert data[|u|..] == p + l && data[|u|..][..|p|] == p;
    assert data[|u| + |p|..] == l && l[..|l|] == l;
  }

  lemma NoRuns(data: seq<Byte>)
    ensures forall iv :: StandsFor(iv, data, 0) ==> iv == []
  {
    forall iv: seq<Interval> | StandsFor(iv, data, 0) ensures iv == [] { RunsTakeBytes(iv); }
  }

  /** `PatchTreeAdditionValue::deserialize`; undoes `SerializeAddition`. */
  method DeserializeAddition(data: seq<Byte>) returns (r: Option<AdditionData>)
    ensures forall d :: AdditionFits(d) && data == AdditionBytes(d) ==> r == Some(d)
  {
    hide AdditionFits, AdditionBytes, StandsFor, DecodesUleb, IntervalsBytes, Uleb;
    var patchesSize := DecodeUleb128(data);
    forall d | AdditionFits(d) && data == AdditionBytes(d)
      ensures patchesSize.Decoded? && patchesSize.size + patchesSize.value <= |data|
      ensures var offset := patchesSize.size + patchesSize.value;
        && StandsFor(d.patches, data[patchesSize.size..], patchesSize.value)
        && StandsFor(d.localChanges, data[offset..], |data| - offset) {
      AdditionParts(d, data, patchesSize);
    }
    if !patchesSize.Decoded? || patchesSize.size + patchesSize.value > |data| {
      return None;
    }
    var offset := patchesSize.size;
    var patches := DeserializeIntervals(data[offset..], patchesSize.value);
    offset := offset + patchesSize.value;
    var local := Some([]);
    if |data| - offset > 0 {
      local := DeserializeIntervals(data[offset..], |data| - offset);
    } else {
      NoRuns(data[offset..]);
    }
    if patches.None? || local.None? {
      return None;
    }
    return Some(AdditionData(patches.value, local.value));
  }

  /** The lowest `k` bytes of a number, lowest first: how a `size_t` lies in memory. */
  function WordBytes(n: nat, k: nat): (r: seq<Byte>)
    ensures |r| == k
  {
    if k == 0 then [] else [n % 256] + WordBytes(n / 256, k - 1)
  }

  function WordOf(data: seq<Byte>): nat {
    if data == [] then 0 else data[0] + 256 * WordOf(data[1..])
  }

  /** Byte `i` is the digit of 256 to the power of `i`. */
  lemma {:induction false} WordByte(n: nat, k: nat, i: nat)
    requires i < k
    ensures WordBytes(n, k)[i] == n / Pow2(8 * i) % 256
  {
    if i == 0 {
      assert Pow2(0) == 1;
    } else {
      Pow2Sum(8, 8 * (i - 1));
      assert Pow2(8) == 256 by { Pow2Step(0); }
      WordByte(n / 256, k - 1, i - 1);
      DividedTwice(n, 256, Pow2(8 * (i - 1)));
    }
  }

  lemma DividedTwice(n: nat, a: nat, b: nat)
    requires 0 < a && 0 < b
    ensures 0 < a * b && n / a / b == n / (a * b)
  {
    var q := n / a;
    Division(n, a);
    Division(q, b);
    AtMost(a, 1, b);
    Remainder(n, a, b, n % a, q % b, q / b);
    QuotientIs(n, a * b, q / b, a * (q % b) + n % a);
  }

  lemma Division(n: nat, d: nat)
    requires 0 < d
    ensures n == d * (n / d) + n % d && 0 <= n % d < d
  {
  }

  lemma Remainder(n: nat, a: nat, b: nat, r: nat, t: nat, s: nat)
    requires r < a && t < b && n == a * (b * s + t) + r
    ensures n == (a * b) * s + (a * t + r) && 0 <= a * t + r < a * b
  {
    Product(a, b, s, t);
    AtMost(a, t, b - 1);
    AtMost(a, 0, t);
  }

  lemma Product(a: nat, b: nat, s: nat, t: nat)
    ensures a * (b * s + t) == (a * b) * s + a * t && a * (b - 1) == a * b - a
  {
    assert a * (b * s) == (a * b) * s;
  }

  lemma AtMost(d: nat, x: int, y: int)
    ensures x <= y ==> d * x <= d * y
  {
  }

  lemma QuotientIs(n: nat, d: nat, q: nat, r: nat)
    requires r < d && n == d * q + r
    ensures n / d == q
  {
    var p := n / d;
    AtMost(d, p + 1, q);
    AtMost(d, q + 1, p);
    assert d * (p + 1) == d * p + d && d * (q + 1) == d * q + d;
    assert n == d * p + n % d;
  }

  lemma {:induction false} WordRoundTrip(n: nat, k: nat)
    requires n < Pow2(8 * k)
    ensures WordOf(WordBytes(n, k)) == n
  {
    if k > 0 {
      Pow2Sum(8, 8 * (k - 1));
      assert Pow2(8) == 256 by { Pow2Step(0); }
      WordRoundTrip(n / 256, k - 1);
      assert WordBytes(n, k)[1..] == WordBytes(n / 256, k - 1);
    }
  }

  lemma SizeRoundTrip(n: nat)
    requires n < U64
    ensures WordOf(WordBytes(n, 8)) == n
  {
    Powers();
    WordRoundTrip(n, 8);
  }

  ghost predicate DeletionFits(d: DeletionData) {
    IntervalsFit(d.patches) && IntervalsFit(d.localChanges) && PositionsFit(d.positions)
  }

  function DeletionBytes(d: DeletionData): seq<Byte> {
    WordBytes(|IntervalsBytes(d.patches)|, 8) + WordBytes(|IntervalsBytes(d.localChanges)|, 8) +
    IntervalsBytes(d.patches) + IntervalsBytes(d.localChanges) + PositionsBytes(d.positions)
  }

  /** `DVIntervalList::serialize`. */
  method SerializeDeletion(d: DeletionData) returns (data: seq<Byte>)
    requires DeletionFits(d)
    ensures data == DeletionBytes(d)
  {
    hide IntervalsBytes, PositionsBytes, PositionsFit, WordBytes;
    var patches := SerializeIntervals(d.patches);
    var local := SerializeIntervals(d.localChanges);
    var positions := SerializePositions(d.positions);
    data := WordBytes(|patches|, 8) + WordBytes(|local|, 8) + patches + local + positions;
  }

  /** Where the parts of a deletion value are. */
  ghost predicate DeletionReads(d: DeletionData, data: seq<Byte>) {
    |data| >= 16 && var np, nl := WordOf(data[..8]), WordOf(data[8..16]);
      && 16 + np + nl <= |data|
      && StandsFor(d.patches, data[16..], np) && StandsFor(d.localChanges, data[16 + np..], nl)
      && data[16 + np + nl..] == PositionsBytes(d.positions) && PositionsFit(d.positions)
  }

  lemma DeletionParts(d: DeletionData, data: seq<Byte>)
    requires DeletionFits(d) && data == DeletionBytes(d)
    ensures DeletionReads(d, data)
  {
    hide IntervalsBytes, NarrowIntervals, PositionsBytes, PositionsFit, WordBytes, WordOf, WellFormed;
    var p, l, v := IntervalsBytes(d.patches), IntervalsBytes(d.localChanges), PositionsBytes(d.positions);
    var wp, wl := WordBytes(|p|, 8), WordBytes(|l|, 8);
    SizeRoundTrip(|p|);
    SizeRoundTrip(|l|);
    assert data == wp + (wl + (p + (l + v)));
    assert data[..8] == wp && data[8..16] == wl;
    assert data[16..] == p + (l + v) && data[16..][..|p|] == p;
    assert data[16 + |p|..] == l + v && data[16 + |p|..][..|l|] == l;
    assert data[16 + |p| + |l|..] == v;
  }

  lemma NoPositions(vec: seq<VersionPositions>)
    ensures PositionsBytes(vec) == [] ==> vec == []
  {
    assert vec != [] ==> |NumbersBytes([vec[0].patchId] + vec[0].positions)| > 0;
  }

  /** `DVIntervalList::deserialize`; undoes `SerializeDeletion`. */
  method DeserializeDeletion(data: seq<Byte>) returns (r: Option<DeletionData>)
    ensures forall d :: DeletionFits(d) && data == DeletionBytes(d) ==> r == Some(d)
  {
    hide DeletionFits, DeletionBytes, StandsFor, IntervalsBytes, PositionsBytes, PositionsFit, WordOf,
         PositionsStand;
    forall d | DeletionFits(d) && data == DeletionBytes(d) ensures DeletionReads(d, data) { DeletionParts(d, data); }
    if |data| < 16 {
      return None;
    }
    var patchesSize, localSize := WordOf(data[..8]), WordOf(data[8..16]);
    if 16 + patchesSize + localSize > |data| {
      return None;
    }
    var offset := 16;
    var patches := DeserializeIntervals(data[offset..], patchesSize);
    offset := offset + patchesSize;
    var local := DeserializeIntervals(data[offset..], localSize);
    offset := offset + localSize;
    var positions := Some([]);
    if |data| - offset > 0 {
      positions := DeserializePositionVec(data[offset..]);
    }
    forall d | DeletionFits(d) && data == DeletionBytes(d) ensures positions == Some(d.positions) {
      NoPositions(d.positions);
      StandUnlessNone(d.positions, data[offset..]);
    }
    if patches.None? || local.None? || positions.None? {
      return None;
    }
    return Some(DeletionData(patches.value, local.value, positions.value));
  }

  lemma StandUnlessNone(vec: seq<VersionPositions>, data: seq<Byte>)
    requires PositionsFit(vec) && data == PositionsBytes(vec)
    ensures vec != [] ==> PositionsStand(vec, data)
    ensures vec == [] ==> data == []
  {
    hide PositionsFit, LaterBytes, NumbersBytes;
  }
}
