/** What a reader of an older version, who knows of no later one, sees of the deletions stored for it. */
module LaterDeletions {
  import opened OrderedKeys
  import opened Intervals
  import opened Values
  import opened DeletionValues
  import opened ChainHistory
  import opened Ingestion
  import opened Ranks
  import opened Positions
  import opened Triples
  import opened Dictionaries
  import opened PatchTreeIterators
  import opened ChainReading
  import opened VersionQueries

  // ----- one list of runs

  lemma {:induction false} Spread(ids: seq<int>, k: nat, j: nat)
    requires Increasing(ids) && k <= j < |ids|
    ensures ids[j] - ids[k] >= j - k
  {
    if k < j { Spread(ids, k, j - 1); }
  }

  /** What is listed before the last run ends at least one version before it. */
  lemma EarlierListed(iv: seq<Interval>, limit: int)
    requires WellFormed(iv, MAX) && iv != [] && limit <= iv[|iv| - 1].start && iv[|iv| - 1].end == MAX && limit <= MAX
    ensures Ids(iv, MAX, limit) == Ids(iv[..|iv| - 1], MAX, limit)
    ensures forall x :: x in Ids(iv, MAX, limit) ==> x + 1 < iv[|iv| - 1].start
  {
    var n := |iv| - 1;
    var front := iv[..n];
    IdsAround(iv, n, MAX, limit);
    assert iv[n + 1..] == [];
    IdsCorrect(front, MAX, limit);
    Outside(iv, MAX, n);
    forall x | x in Ids(front, MAX, limit) ensures x + 1 < iv[n].start {
      assert In(front, x);
      var i :| 0 <= i < |front| && front[i].start <= x < front[i].end;
      assert iv[i].end < iv[n].start;
    }
  }

  /** Before a late unended run, no more is listed from `v` on than the run is late. */
  lemma LateRunCovers(iv: seq<Interval>, v: int)
    requires WellFormed(iv, MAX) && iv != [] && In(iv, v) && v + 1 <= MAX
    requires iv[|iv| - 1].end == MAX && v + 1 < iv[|iv| - 1].start
    ensures PlaceOf(Ids(iv, MAX, v + 1), v) >= |Ids(iv, MAX, v + 1)| - Overrun(iv, MAX, v + 1)
  {
    hide In, WellFormed, Ids, PlaceOf;
    var ids := Ids(iv, MAX, v + 1);
    ListedIffIn(iv, v, v + 1);
    IdsCorrect(iv, MAX, v + 1);
    PlaceInList(ids, v);
    EarlierListed(iv, v + 1);
    var k, j := PlaceOf(ids, v), |ids| - 1;
    Spread(ids, k, j);
    var x := ids[j];
    assert x in ids;
  }

  /** A version's place lies among those that seem to exist exactly if no unended run begins after it. */
  lemma PlacedUnlessLater(iv: seq<Interval>, v: int)
    requires WellFormed(iv, MAX) && iv != [] && In(iv, v) && v + 1 <= MAX
    ensures var last := iv[|iv| - 1];
      PlaceOf(Ids(iv, MAX, v + 1), v) < |Ids(iv, MAX, v + 1)| - Overrun(iv, MAX, v + 1) <==>
        last.end < MAX || last.start <= v
  {
    var last, ids := iv[|iv| - 1], Ids(iv, MAX, v + 1);
    Edges(iv, |iv| - 1);
    assert last.start != v + 1 && last.end <= MAX;
    PlaceInList(ids, v);
    hide In, WellFormed, Ids, PlaceOf;
    if last.end == MAX && v + 1 < last.start {
      LateRunCovers(iv, v);
    }
  }

  /** An unended run begins after `v` exactly if the list holds its last version, and misses one after `v`. */
  lemma LaterRun(iv: seq<Interval>, v: int)
    requires WellFormed(iv, MAX) && iv != [] && In(iv, v)
    ensures var last := iv[|iv| - 1];
      last.end == MAX && v < last.start <==> In(iv, MAX - 1) && exists w :: v < w < MAX && !In(iv, w)
  {
    var last := iv[|iv| - 1];
    Edges(iv, |iv| - 1);
    if last.end == MAX && v < last.start {
      assert v < last.start - 1 < MAX && !In(iv, last.start - 1);
    }
    if In(iv, MAX - 1) {
      var i :| 0 <= i < |iv| && iv[i].start <= MAX - 1 < iv[i].end;
      forall w | last.start <= w < MAX ensures In(iv, w) { InAt(iv, |iv| - 1, w); }
    }
  }

  // ----- a chain

  /** The triple, lost at `v`, comes back later, and is lost again in the last version. */
  ghost predicate LostAgain(c: Chain, k: Key, v: int) {
    k !in Content(c, c.min + |c.history| - 1) && exists w :: v < w < c.min + |c.history| && k in Content(c, w)
  }

  /** In a chain, the stored versions of a deletion of the snapshot are those that lack the triple; the last one
      lasts. */
  lemma LostVersions(s: Store, c: Chain, v: int, k: Key)
    requires Queryable(s, c, v) && k in Lost(c, v)
    ensures k in s.deletions && var d := s.deletions[k];
      && WellFormed(d.patches, MAX) && d.localChanges == [] && d.patches != []
      && Steady(d.patches, c.min + |c.history| - 1)
      && forall w :: v <= w < c.min + |c.history| ==> (In(d.patches, w) <==> k !in Content(c, w))
  {
    hide RanksTrue, CountsTrue, Represents, Dictionary, WellFormed, Steady, LocalFlags;
    var e := s.Nodes().EntryOf(k);
    EntryReadable(s.Nodes(), s.countAdditions, c.snapshot, c.history, c.min, s.vocabulary, c.misranked, k);
    NothingIn();
    assert Represents(e, k, c.snapshot, c.history, c.min);
    forall w | v <= w < c.min + |c.history| ensures In(e.del, w) <==> k !in Content(c, w) {
      EntriesOfVersion(e, k, c.snapshot, c.history, c.min, w);
      SinceLost(e, k, c, v, w);
    }
    FlagsOf(e, k, c, v);
  }

  lemma FlagsOf(e: Entry, k: Key, c: Chain, v: int)
    requires EntryOk(e, true, c.min + |c.history|) && In(e.del, v)
    ensures e.delLocal == [] && e.del != []
  {
    NothingIn();
  }

  lemma SinceLost(e: Entry, k: Key, c: Chain, v: int, w: int)
    requires Represents(e, k, c.snapshot, c.history, c.min) && k in c.snapshot
    requires c.min <= v <= w < c.min + |c.history| < MAX && k !in Content(c, v)
    ensures In(e.del, w) <==> k !in Content(c, w)
  {
    assert Member(k, v, c.snapshot, c.history, c.min) == (k in Content(c, v));
    assert Member(k, w, c.snapshot, c.history, c.min) == (k in Content(c, w));
  }

  /** In a list that goes on as it stands at `end - 1`, a last version after a gap is one within the chain. */
  lemma GapInside(iv: seq<Interval>, c: Chain, k: Key, v: int)
    requires c.min <= v < c.min + |c.history| < MAX && Steady(iv, c.min + |c.history| - 1)
    requires forall w :: v <= w < c.min + |c.history| ==> (In(iv, w) <==> k !in Content(c, w))
    ensures In(iv, MAX - 1) && (exists w :: v < w < MAX && !In(iv, w)) <==> LostAgain(c, k, v)
  {
    hide In, Content;
    var end := c.min + |c.history|;
    assert In(iv, MAX - 1) <==> In(iv, end - 1);
    if LostAgain(c, k, v) {
      var w :| v < w < end && k in Content(c, w);
      assert !In(iv, w);
    }
    if In(iv, MAX - 1) && exists w :: v < w < MAX && !In(iv, w) {
      var w :| v < w < MAX && !In(iv, w);
      assert w < end;
      assert k in Content(c, w);
    }
  }

  /** The ranks of a deletion show to a reader of version `v` exactly if the triple is not lost again after a return. */
  lemma RanksVisibleIff(s: Store, c: Chain, v: int, k: Key)
    requires Queryable(s, c, v) && k in Lost(c, v)
    ensures k in s.deletions && (RanksVisible(s.deletions[k], v, v + 1) <==> !LostAgain(c, k, v))
  {
    hide Queryable, WellFormed, Ids, Overrun, PlaceOf, In, Content, Steady, LostAgain;
    LostVersions(s, c, v, k);
    var iv := s.deletions[k].patches;
    InsideChain(s, c, v);
    assert k !in Content(c, v) by { InLost(c, v, k); }
    assert In(iv, v);
    PlacedUnlessLater(iv, v);
    LaterRun(iv, v);
    GapInside(iv, c, k, v);
    WithinMax(iv);
  }

  lemma InLost(c: Chain, v: int, k: Key)
    requires k in Lost(c, v)
    ensures k in c.snapshot && k !in Content(c, v)
  {
  }

  lemma WithinMax(iv: seq<Interval>)
    requires WellFormed(iv, MAX) && iv != []
    ensures iv[|iv| - 1].end <= MAX
  {
  }

  lemma InsideChain(s: Store, c: Chain, v: int)
    requires Queryable(s, c, v)
    ensures 0 < c.min <= v < c.min + |c.history| < MAX
  {
    hide ChainOk, Dictionary;
  }

  // ----- local deletions

  /** The versions among `lo` to `hi - 1` that a list of runs holds, and those that it lacks. */
  ghost function HeldIn(iv: seq<Interval>, lo: int, hi: int): set<int> {
    set x | lo <= x < hi && In(iv, x)
  }

  ghost function MissedIn(iv: seq<Interval>, lo: int, hi: int): set<int> {
    set x | lo <= x < hi && !In(iv, x)
  }

  lemma {:induction false} HeldOrMissed(iv: seq<Interval>, lo: int, hi: int)
    requires lo <= hi
    ensures |HeldIn(iv, lo, hi)| + |MissedIn(iv, lo, hi)| == hi - lo
    decreases hi - lo
  {
    hide In;
    if lo < hi {
      HeldOrMissed(iv, lo, hi - 1);
      var one := {hi - 1};
      if In(iv, hi - 1) {
        assert HeldIn(iv, lo, hi) == HeldIn(iv, lo, hi - 1) + one && MissedIn(iv, lo, hi) == MissedIn(iv, lo, hi - 1);
      } else {
        assert MissedIn(iv, lo, hi) == MissedIn(iv, lo, hi - 1) + one && HeldIn(iv, lo, hi) == HeldIn(iv, lo, hi - 1);
      }
    } else {
      assert HeldIn(iv, lo, hi) == {} == MissedIn(iv, lo, hi);
    }
  }

  lemma HeldSplit(iv: seq<Interval>, lo: int, mid: int, hi: int)
    requires lo <= mid <= hi
    ensures |HeldIn(iv, lo, hi)| == |HeldIn(iv, lo, mid)| + |HeldIn(iv, mid, hi)|
  {
    hide In;
    assert HeldIn(iv, lo, hi) == HeldIn(iv, lo, mid) + HeldIn(iv, mid, hi);
  }

  lemma {:induction false} ListedSet(s: seq<int>, all: set<int>)
    requires Increasing(s) && forall x :: x in s <==> x in all
    ensures |s| == |all|
  {
    if s == [] {
      assert forall x :: x !in all;
      assert all == {};
    } else {
      var shorter, last := s[..|s| - 1], s[|s| - 1];
      assert last in s;
      forall x ensures x in shorter <==> x in all - {last} {
        if x in all - {last} { assert x in s && s == shorter + [last]; }
        if x in shorter { assert x in s; }
      }
      ListedSet(shorter, all - {last});
    }
  }

  /** Before a late unended run, the size seen is what was held up to `v`, less what is missed after it. */
  lemma LateRunSize(iv: seq<Interval>, v: int)
    requires WellFormed(iv, MAX) && iv != [] && In(iv, v) && v + 1 <= MAX
    requires iv[|iv| - 1].end == MAX && v + 1 < iv[|iv| - 1].start
    ensures |Ids(iv, MAX, v + 1)| - Overrun(iv, MAX, v + 1) ==
            |HeldIn(iv, iv[0].start, v + 1)| - |MissedIn(iv, v + 1, iv[|iv| - 1].start)|
  {
    hide WellFormed, Ids;
    var first, last, ids := iv[0].start, iv[|iv| - 1].start, Ids(iv, MAX, v + 1);
    Edges(iv, 0);
    EarlierListed(iv, v + 1);
    IdsCorrect(iv, MAX, v + 1);
    HeldBeforeLast(iv, v + 1);
    ListedSet(ids, HeldIn(iv, first, last));
    hide In, HeldIn, MissedIn;
    HeldSplit(iv, first, v + 1, last);
    HeldOrMissed(iv, v + 1, last);
  }

  /** What is listed before a late unended run is all that is held before it. */
  lemma HeldBeforeLast(iv: seq<Interval>, limit: int)
    requires WellFormed(iv, MAX) && iv != [] && limit < iv[|iv| - 1].start && iv[|iv| - 1].end == MAX && limit <= MAX
    ensures forall x :: x in Ids(iv, MAX, limit) <==> x in HeldIn(iv, iv[0].start, iv[|iv| - 1].start)
  {
    hide Ids;
    var last := iv[|iv| - 1].start;
    EarlierListed(iv, limit);
    IdsCorrect(iv, MAX, limit);
    Edges(iv, 0);
    forall x | In(iv, x) && x < last ensures x in Ids(iv, MAX, limit) {
      var i :| 0 <= i < |iv| && iv[i].start <= x < iv[i].end;
      EndedListed(iv, limit, i, x);
    }
  }

  lemma EndedListed(iv: seq<Interval>, limit: int, i: nat, x: int)
    requires WellFormed(iv, MAX) && i + 1 < |iv| && iv[i].start <= x < iv[i].end
    ensures x in Ids(iv, MAX, limit)
  {
    assert iv[i].end < iv[i + 1].start && iv[i + 1].start < iv[i + 1].end;
    IdsAround(iv, i, MAX, limit);
    RunMembers(iv[i].start, Cut(iv[i], MAX, limit), x);
  }

  /** The versions up to `v` that lack a triple which came before them. */
  ghost function GoneUpTo(c: Chain, k: Key, v: int): set<int> {
    set u | c.min <= u <= v && k !in Content(c, u) && exists w :: c.min <= w < u && k in Content(c, w)
  }

  ghost function BackAfter(c: Chain, k: Key, v: int): set<int> {
    set u | v < u < c.min + |c.history| && k in Content(c, u)
  }

  /** A triple that the snapshot lacks has come and gone by version `v`; it is gone in the last version, and after `v`
      it is back for as many versions as it was gone for up to `v`. */
  ghost predicate LocalHidden(c: Chain, k: Key, v: int) {
    && k !in c.snapshot && v in GoneUpTo(c, k, v) && k !in Content(c, c.min + |c.history| - 1)
    && |GoneUpTo(c, k, v)| == |BackAfter(c, k, v)|
  }

  /** The runs of a local deletion are the versions that lack the triple since it first came. */
  lemma LocalRuns(s: Store, c: Chain, v: int, k: Key)
    requires Queryable(s, c, v) && k !in c.snapshot
    ensures var e := s.Nodes().EntryOf(k);
      && WellFormed(e.del, MAX) && e.delLocal == e.del && (k in s.deletions <==> e.del != [])
      && Steady(e.del, c.min + |c.history| - 1)
      && (forall w :: c.min <= w < c.min + |c.history| ==>
            (In(e.del, w) <==> k !in Content(c, w) && exists x :: c.min <= x < w && k in Content(c, x)))
      && (forall w :: In(e.del, w) ==> c.min <= w)
  {
    hide RanksTrue, CountsTrue, RanksOk, Dictionary, Steady;
    var e := s.Nodes().EntryOf(k);
    assert Represents(e, k, c.snapshot, c.history, c.min);
    EntryReadable(s.Nodes(), s.countAdditions, c.snapshot, c.history, c.min, s.vocabulary, c.misranked, k);
    LocalRunsOf(e, k, c);
  }

  lemma LocalRunsOf(e: Entry, k: Key, c: Chain)
    requires Represents(e, k, c.snapshot, c.history, c.min) && k !in c.snapshot && c.min + |c.history| < MAX
    ensures forall w :: c.min <= w < c.min + |c.history| ==>
      (In(e.del, w) <==> k !in Content(c, w) && exists x :: c.min <= x < w && k in Content(c, x))
    ensures forall w :: In(e.del, w) ==> c.min <= w
  {
    hide WellFormed, InOrder;
    NothingIn();
    forall u | c.min <= u < c.min + |c.history|
      ensures Member(k, u, c.snapshot, c.history, c.min) == (k in Content(c, u)) {}
    hide Content, Member;
    var b := Born(e, false);
    forall w | c.min <= w < c.min + |c.history|
      ensures In(e.del, w) <==> k !in Content(c, w) && exists x :: c.min <= x < w && k in Content(c, x) {
      if In(e.del, w) {
        assert b < w && k in Content(c, b);
      }
    }
  }

  /** The versions up to `v` that lack a triple of the snapshot. */
  ghost function GoneBy(c: Chain, k: Key, v: int): set<int> {
    set u | c.min <= u <= v && k in Lost(c, u)
  }

  /** Of a deletion that comes again, a reader of version `v` sees as many versions as lack the triple up to `v`, less
      those that have it back. */
  lemma SizeWhenLostAgain(s: Store, c: Chain, v: int, k: Key)
    requires Queryable(s, c, v) && k in Lost(c, v) && LostAgain(c, k, v)
    ensures k in s.deletions && SizeSeen(s.deletions[k], v + 1) == |GoneBy(c, k, v)| - |BackAfter(c, k, v)|
  {
    hide Queryable, WellFormed, Ids, Overrun, In, Content, Steady, LostAgain, HeldIn, MissedIn, Lost;
    LostVersions(s, c, v, k);
    LostFrom(s, c, v, k);
    InsideChain(s, c, v);
    InLost(c, v, k);
    var iv, end := s.deletions[k].patches, c.min + |c.history|;
    assert In(iv, v);
    LaterRun(iv, v);
    GapInside(iv, c, k, v);
    LastRunOf(iv, end, v);
    LateRunSize(iv, v);
    forall u ensures u in HeldIn(iv, iv[0].start, v + 1) <==> u in GoneBy(c, k, v) { HeldFrom(iv, u, v + 1); }
    assert HeldIn(iv, iv[0].start, v + 1) == GoneBy(c, k, v);
    BackIsMissed(iv, c, k, v);
  }

  lemma HeldFrom(iv: seq<Interval>, u: int, hi: int)
    requires WellFormed(iv, MAX) && iv != []
    ensures u in HeldIn(iv, iv[0].start, hi) <==> u < hi && In(iv, u)
  {
    Edges(iv, 0);
  }

  /** The ranks of a deletion begin with its runs. */
  lemma RanksBegin(s: Store, c: Chain, v: int, k: Key)
    requires Queryable(s, c, v) && k in s.deletions
    ensures var d := s.deletions[k];
      && d.patches != [] && d.positions != [] && d.positions[0].patchId == d.patches[0].start && Readable(d)
  {
    hide RanksTrue, CountsTrue, Represents, Dictionary, Readable;
    FullyRead(s, c, v, k);
    assert RanksOk(s.Nodes(), k, c.min + |c.history| - 1);
  }

  /** The runs of a deletion of the snapshot are the versions that lack the triple; the ranks begin with them. */
  lemma LostFrom(s: Store, c: Chain, v: int, k: Key)
    requires Queryable(s, c, v) && k in Lost(c, v) && k in s.deletions
    ensures var d := s.deletions[k];
      && d.patches != [] && d.positions != [] && d.positions[0].patchId == d.patches[0].start && Readable(d)
      && forall u :: u <= v ==> (In(d.patches, u) <==> c.min <= u && k in Lost(c, u))
  {
    hide RanksTrue, CountsTrue, Represents, Dictionary, WellFormed, Readable, In, Steady, LocalFlags, RanksOk;
    var e := s.Nodes().EntryOf(k);
    RanksBegin(s, c, v, k);
    EntryReadable(s.Nodes(), s.countAdditions, c.snapshot, c.history, c.min, s.vocabulary, c.misranked, k);
    assert Represents(e, k, c.snapshot, c.history, c.min);
    LostVersions(s, c, v, k);
    FirstExit(e, k, c);
    Edges(e.del, 0);
    forall u | c.min <= u <= v ensures In(e.del, u) <==> k in Lost(c, u) {
      EntriesOfVersion(e, k, c.snapshot, c.history, c.min, u);
    }
  }

  /** The rank of a deletion can be read for version `v`, rightly or not, exactly if it does not come again, or the
      triple is back for fewer versions than it was gone for. */
  lemma RankReadIff(s: Store, c: Chain, v: int, k: Key)
    requires Queryable(s, c, v) && k in Lost(c, v)
    ensures k in s.deletions && var d := s.deletions[k];
      BegunBy(d, VersionRead(d, v, v + 1)) <==> (LostAgain(c, k, v) ==> |BackAfter(c, k, v)| < |GoneBy(c, k, v)|)
  {
    hide Queryable, WellFormed, Ids, Overrun, In, Content, Steady, LostAgain, GoneBy, BackAfter, Lost, Readable,
         BegunBy, VersionRead, SizeSeen;
    LostVersions(s, c, v, k);
    LostFrom(s, c, v, k);
    InsideChain(s, c, v);
    GetDefinedIff(s.deletions[k], v, v + 1);
    RanksVisibleIff(s, c, v, k);
    if LostAgain(c, k, v) {
      SizeWhenLostAgain(s, c, v, k);
    } else {
      SomethingSeen(s.deletions[k], v);
    }
  }

  lemma SomethingSeen(d: DeletionData, v: int)
    requires RanksVisible(d, v, v + 1) && WellFormed(d.patches, MAX) && In(d.patches, v) && d.localChanges == [] &&
             v + 1 <= MAX
    ensures SizeSeen(d, v + 1) > 0
  {
    hide Ids, Overrun, In;
    ListedIffIn(d.patches, v, v + 1);
  }

  /** The first `n` entries of a list of versions are the least ones. */
  lemma FirstEntries(ids: seq<int>, all: set<int>, n: nat)
    requires Increasing(ids) && 0 < n <= |all| && (forall x :: x in all ==> x in ids)
    requires forall x, y :: x in all && y in ids && y < x ==> y in all
    ensures n <= |ids| && ids[n - 1] in all && |set x | x in all && x <= ids[n - 1]| == n
  {
    var listed := Elements(ids);
    forall x | x in all ensures x in listed {}
    ListedSet(ids, listed);
    SubsetSize(all, listed);
    var w, first := ids[n - 1], ids[..n];
    assert forall i :: n <= i < |ids| ==> w < ids[i];
    var upTo := set x | x in all && x <= w;
    if w !in all {
      forall x | x in all ensures x in ids[..n - 1] {
        var j :| 0 <= j < |ids| && ids[j] == x;
        assert w in ids;
        assert j < n - 1 && ids[..n - 1][j] == x;
      }
      var shorter := Elements(ids[..n - 1]);
      forall x | x in all ensures x in shorter { assert x in ids[..n - 1]; }
      ListedSet(ids[..n - 1], shorter);
      SubsetSize(all, shorter);
      assert false;
    }
    forall x | x in first ensures x in upTo {
      var j :| 0 <= j < |first| && first[j] == x;
      assert ids[j] == x && x in ids;
    }
    forall x | x in upTo ensures x in first {
      var j :| 0 <= j < |ids| && ids[j] == x;
      assert first[j] == x;
    }
    ListedSet(first, upTo);
  }

  lemma SubsetSize(a: set<int>, b: set<int>)
    requires a <= b
    ensures |a| <= |b|
  {
    assert b == a + (b - a);
  }

  /** The rank that is read of a deletion which comes again is that of an earlier version: the one by which the triple
      had been gone for as many versions as it has been gone for by `v`, less those that have it back. */
  lemma HiddenRead(s: Store, c: Chain, v: int, k: Key)
    requires Queryable(s, c, v) && k in Lost(c, v) && LostAgain(c, k, v)
    requires |BackAfter(c, k, v)| < |GoneBy(c, k, v)|
    ensures k in s.deletions && var w := VersionRead(s.deletions[k], v, v + 1);
      w in GoneBy(c, k, v) && |GoneBy(c, k, w)| == |GoneBy(c, k, v)| - |BackAfter(c, k, v)|
  {
    hide Queryable, WellFormed, Ids, In, Content, LostAgain, Lost, Readable, VersionRead, SizeSeen, PlaceOf;
    SizeWhenLostAgain(s, c, v, k);
    LostVersions(s, c, v, k);
    LostFrom(s, c, v, k);
    InsideChain(s, c, v);
    InLost(c, v, k);
    RanksVisibleIff(s, c, v, k);
    var d := s.deletions[k];
    var ids, n := Ids(d.patches, MAX, v + 1), SizeSeen(d, v + 1);
    ReadsListed(d, v, v + 1);
    IdsCorrect(d.patches, MAX, v + 1);
    var all := GoneBy(c, k, v);
    forall x ensures x in all <==> x <= v && In(d.patches, x) { }
    FirstEntries(ids, all, n);
    var w := ids[n - 1];
    assert GoneBy(c, k, w) == set x | x in all && x <= w;
  }

  /** So it is the number of matching deletions before the triple in that version, unless it is stored wrong there. */
  lemma HiddenRank(s: Store, c: Chain, pattern: Triple, v: int, k: Key)
    requires Queryable(s, c, v) && k in MatchesOf(Lost(c, v), s.vocabulary, pattern) && LostAgain(c, k, v)
    requires |BackAfter(c, k, v)| < |GoneBy(c, k, v)|
    ensures k in s.deletions && var w := VersionRead(s.deletions[k], v, v + 1);
      RankRead(s.deletions[k], pattern, v, v + 1) == |MatchesBefore(Lost(c, w), k, s.vocabulary, pattern)| <==>
      RankPlace(w, FieldOf(pattern), k) !in c.misranked
  {
    hide ChainOk, Dictionary, LostAgain, Lost, VersionRead, BackAfter, MatchesBefore, Matches, FieldOf, RanksAt,
         GetByPattern;
    HiddenRead(s, c, v, k);
    PlaceRead(s, c, pattern, VersionRead(s.deletions[k], v, v + 1), k);
  }

  /** A local deletion seems empty to a reader of version `v` exactly if it is hidden. */
  lemma LocalHiddenIff(s: Store, c: Chain, v: int, k: Key)
    requires Queryable(s, c, v)
    ensures LocalHidden(c, k, v) <==> k in s.deletions && !LocalVisible(s.deletions[k], v, v + 1)
  {
    hide Queryable, WellFormed, Ids, Overrun, In, Content, Steady, HeldIn, MissedIn, Represents;
    InsideChain(s, c, v);
    if k in c.snapshot {
      if k in s.deletions { OtherwiseVisible(s, c, v, k); }
    } else {
      LocalRuns(s, c, v, k);
      var iv := s.Nodes().EntryOf(k).del;
      if v in GoneUpTo(c, k, v) {
        assert In(iv, v);
        NotEmpty(iv, v);
        SizeOfLocal(iv, c, k, v);
      }
      assert k in s.deletions ==> s.deletions[k].patches == iv && s.deletions[k].localChanges == iv;
    }
  }

  lemma NotEmpty(iv: seq<Interval>, v: int)
    requires In(iv, v)
    ensures iv != []
  {
  }

  lemma SizeOfLocal(iv: seq<Interval>, c: Chain, k: Key, v: int)
    requires iv != [] && c.min <= v < c.min + |c.history| < MAX && WellFormed(iv, MAX) && In(iv, v)
    requires Steady(iv, c.min + |c.history| - 1)
    requires forall w :: c.min <= w < c.min + |c.history| ==>
      (In(iv, w) <==> k !in Content(c, w) && exists x :: c.min <= x < w && k in Content(c, x))
    requires forall w :: In(iv, w) ==> c.min <= w
    ensures |Ids(iv, MAX, v + 1)| - Overrun(iv, MAX, v + 1) == 0 <==>
            k !in Content(c, c.min + |c.history| - 1) && |GoneUpTo(c, k, v)| == |BackAfter(c, k, v)|
  {
    hide Content, Ids, Overrun, HeldIn, MissedIn, Steady, WellFormed, In;
    var last, end := iv[|iv| - 1], c.min + |c.history|;
    LastRunOf(iv, end, v);
    ListedIffIn(iv, v, v + 1);
    GoneIsHeld(iv, c, k, v);
    assert In(iv, end - 1) <==> k !in Content(c, end - 1) by {
      if k !in Content(c, end - 1) && v < end - 1 { assert k !in Content(c, v); }
    }
    if last.end == MAX && v + 1 < last.start {
      LateRunSize(iv, v);
      var x :| c.min <= x < v && k in Content(c, x);
      BackIsMissed(iv, c, k, v);
    } else {
      PlaceInList(Ids(iv, MAX, v + 1), v);
      NoOverrun(iv, v);
      if In(iv, end - 1) { NothingBack(iv, c, k, v); }
      assert v in GoneUpTo(c, k, v);
    }
  }

  lemma NoOverrun(iv: seq<Interval>, v: int)
    requires WellFormed(iv, MAX) && iv != [] && In(iv, v) && !(iv[|iv| - 1].end == MAX && v + 1 < iv[|iv| - 1].start)
    ensures Overrun(iv, MAX, v + 1) == 0
  {
  }

  /** The last version is held exactly if the last run does not end; it begins in the chain. */
  lemma LastRunOf(iv: seq<Interval>, end: int, v: int)
    requires WellFormed(iv, MAX) && In(iv, v) && v < end < MAX && Steady(iv, end - 1)
    ensures iv != [] && (In(iv, end - 1) <==> iv[|iv| - 1].end == MAX) && iv[|iv| - 1].start < end
    ensures iv[|iv| - 1].start != v + 1
    ensures forall w :: iv[|iv| - 1].start <= w < iv[|iv| - 1].end ==> In(iv, w)
  {
    var last := iv[|iv| - 1];
    SteadyRuns(iv, end);
    Edges(iv, |iv| - 1);
    forall w | last.start <= w < last.end ensures In(iv, w) { InAt(iv, |iv| - 1, w); }
    if In(iv, end - 1) {
      var i :| 0 <= i < |iv| && iv[i].start <= end - 1 < iv[i].end;
      assert iv[i].end == MAX && last.start < last.end <= MAX;
    }
  }

  lemma GoneIsHeld(iv: seq<Interval>, c: Chain, k: Key, v: int)
    requires c.min <= v < c.min + |c.history| && WellFormed(iv, MAX) && iv != []
    requires forall w :: c.min <= w < c.min + |c.history| ==>
      (In(iv, w) <==> k !in Content(c, w) && exists x :: c.min <= x < w && k in Content(c, x))
    requires forall w :: In(iv, w) ==> c.min <= w
    ensures HeldIn(iv, iv[0].start, v + 1) == GoneUpTo(c, k, v)
  {
    hide Content, In;
    Edges(iv, 0);
    forall u ensures u in HeldIn(iv, iv[0].start, v + 1) <==> u in GoneUpTo(c, k, v) {}
  }

  /** After a version that lacks the triple, the versions missed before the last run are those that have it back. */
  lemma BackIsMissed(iv: seq<Interval>, c: Chain, k: Key, v: int)
    requires c.min <= v < c.min + |c.history| < MAX && WellFormed(iv, MAX) && iv != [] && In(iv, v)
    requires iv[|iv| - 1].end == MAX && iv[|iv| - 1].start < c.min + |c.history|
    requires forall w :: iv[|iv| - 1].start <= w < MAX ==> In(iv, w)
    requires forall w :: v <= w < c.min + |c.history| ==> (In(iv, w) <==> k !in Content(c, w))
    ensures MissedIn(iv, v + 1, iv[|iv| - 1].start) == BackAfter(c, k, v)
  {
    hide Content, In, WellFormed;
    forall u ensures u in MissedIn(iv, v + 1, iv[|iv| - 1].start) <==> u in BackAfter(c, k, v) {}
  }

  lemma NothingBack(iv: seq<Interval>, c: Chain, k: Key, v: int)
    requires c.min <= v < c.min + |c.history| < MAX && WellFormed(iv, MAX) && iv != [] && In(iv, v)
    requires iv[|iv| - 1].end == MAX && iv[|iv| - 1].start <= v + 1
    requires forall w :: iv[|iv| - 1].start <= w < MAX ==> In(iv, w)
    requires forall w :: c.min <= w < c.min + |c.history| ==>
      (In(iv, w) <==> k !in Content(c, w) && exists x :: c.min <= x < w && k in Content(c, x))
    ensures BackAfter(c, k, v) == {}
  {
    hide Content, WellFormed, In;
  }

  /** A deletion of the snapshot is not local, and one that is not in force shows no ranks. */
  lemma OtherwiseVisible(s: Store, c: Chain, v: int, k: Key)
    requires Queryable(s, c, v) && k in s.deletions
    ensures k in c.snapshot ==> LocalVisible(s.deletions[k], v, v + 1)
    ensures k !in Lost(c, v) ==> RanksVisible(s.deletions[k], v, v + 1)
  {
    hide RanksTrue, CountsTrue, Represents, Dictionary, Ids, Overrun, PlaceOf;
    var e := s.Nodes().EntryOf(k);
    EntryReadable(s.Nodes(), s.countAdditions, c.snapshot, c.history, c.min, s.vocabulary, c.misranked, k);
    NothingIn();
    EntriesOfVersion(e, k, c.snapshot, c.history, c.min, v);
  }

  // ----- what a walk meets

  /** The place of the version in the value is one that seems to exist: `get` then answers for that version. */
  ghost predicate PlaceShown(d: DeletionData, v: int) {
    0 <= PlaceOf(Ids(d.patches, MAX, v + 1), v) < SizeSeen(d, v + 1)
  }

  /** Otherwise it answers for an earlier version. */
  lemma ReadsOwnVersion(d: DeletionData, v: int)
    requires Readable(d) && 0 <= v < MAX
    ensures PlaceShown(d, v) ==> BegunBy(d, VersionRead(d, v, v + 1)) && VersionRead(d, v, v + 1) == v
    ensures In(d.patches, v) && !PlaceShown(d, v) ==> VersionRead(d, v, v + 1) < v
  {
    hide Ids, VersionRead;
    var ids, size := Ids(d.patches, MAX, v + 1), SizeSeen(d, v + 1);
    ListedIffIn(d.patches, v, v + 1);
    IdsCorrect(d.patches, MAX, v + 1);
    PlaceInList(ids, v);
    if size > 0 {
      ReadsListed(d, v, v + 1);
    } else if d.patches != [] {
      Edges(d.patches, 0);
      ReadsBelow(d, v, v + 1);
    }
  }

  /** A walk at version `v` whose reader knows of no later version delivers the triple. */
  ghost predicate Met(c: Chain, vocabulary: Key -> Triple, pattern: Triple, v: int, k: Key) {
    Matches(vocabulary(k), pattern) && (k in Lost(c, v) || LocalHidden(c, k, v))
  }

  /** The triple is a deletion of the version whose ranks show. */
  ghost predicate Shows(c: Chain, k: Key, v: int) {
    k in Lost(c, v) && !LostAgain(c, k, v)
  }

  lemma MetIff(s: Store, c: Chain, pattern: Triple, v: int, k: Key)
    requires Queryable(s, c, v)
    ensures DeletionHit(s.deletions, s.vocabulary, QueryFilters(pattern, v), v + 1)(k) <==>
            Met(c, s.vocabulary, pattern, v, k)
    ensures Met(c, s.vocabulary, pattern, v, k) ==>
              k in s.deletions && (PlaceShown(s.deletions[k], v) <==> Shows(c, k, v))
  {
    hide ChainOk, DeletionHit, Matches, LocalVisible, RanksVisible, LocalHidden, LostAgain, PlaceShown, Dictionary;
    QuerySelects(pattern, v, s.vocabulary(k));
    DeletionHitMeaning(s.Nodes(), s.countAdditions, c.snapshot, c.history, c.min, s.vocabulary, c.misranked,
                       QueryFilters(pattern, v), v + 1, k);
    HitStored(s.deletions, s.vocabulary, QueryFilters(pattern, v), v + 1, k);
    LocalHiddenIff(s, c, v, k);
    if k in Lost(c, v) {
      RanksVisibleIff(s, c, v, k);
      LostVersions(s, c, v, k);
      ShownIffVisible(s.deletions[k], v);
    } else if LocalHidden(c, k, v) {
      NotShownIfEmpty(s.deletions[k], v);
    }
  }

  lemma ShownIffVisible(d: DeletionData, v: int)
    requires WellFormed(d.patches, MAX) && In(d.patches, v) && d.localChanges == [] && v + 1 <= MAX
    ensures PlaceShown(d, v) <==> RanksVisible(d, v, v + 1)
  {
    hide Ids, Overrun, In;
    ListedIffIn(d.patches, v, v + 1);
  }

  lemma NotShownIfEmpty(d: DeletionData, v: int)
    requires !LocalVisible(d, v, v + 1)
    ensures !PlaceShown(d, v)
  {
    hide Ids, Overrun, In;
  }
}
