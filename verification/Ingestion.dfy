/** The state that ingestion of one patch works on, as values, and what one turn of its loop does to one triple. */
module Ingestion {
  import opened OrderedKeys
  import opened Intervals
  import opened Positions
  import opened Values
  import opened ChainHistory
  import opened Triples

  datatype PatchElement = PatchElement(key: Key, isAddition: bool)

  /** A call of the rank counters: for the deletion of `owner` the counters of `triple` were read and incremented. */
  datatype Counted = Counted(owner: Key, triple: Triple)

  /** The trees, the rank calls made so far for the version being ingested, and the additions counted so far for that
      version and for all versions. */
  datatype Trees = Trees(additions: map<Key, AdditionData>, deletions: map<Key, DeletionData>,
                         ranked: seq<Counted>, added: seq<Key>, ever: seq<Key>)
  {
    function EntryOf(k: Key): Entry {
      Entry(if k in additions then additions[k].patches else [],
            if k in additions then additions[k].localChanges else [],
            if k in deletions then deletions[k].patches else [],
            if k in deletions then deletions[k].localChanges else [])
    }

    function RanksOf(k: Key): seq<VersionPositions> {
      if k in deletions then deletions[k].positions else []
    }

    /** Tree nodes hold something. */
    ghost predicate NoEmptyNodes() {
      && (forall k :: k in additions ==> additions[k].patches != [])
      && (forall k :: k in deletions ==> deletions[k].patches != [])
    }
  }

  // ----- patches

  ghost predicate PatchSorted(patch: seq<PatchElement>) {
    forall i, j :: 0 <= i < j < |patch| ==> patch[i].key < patch[j].key
  }

  /** What a patch says of a triple. */
  ghost function Sign(patch: seq<PatchElement>, k: Key): Option<bool> {
    if exists i :: 0 <= i < |patch| && patch[i].key == k then
      var i :| 0 <= i < |patch| && patch[i].key == k;
      Some(patch[i].isAddition)
    else None
  }

  lemma SignAt(patch: seq<PatchElement>, i: nat)
    requires PatchSorted(patch) && i < |patch|
    ensures Sign(patch, patch[i].key) == Some(patch[i].isAddition)
  {
    var k := patch[i].key;
    assert exists j :: 0 <= j < |patch| && patch[j].key == k;
    var j :| 0 <= j < |patch| && patch[j].key == k && Sign(patch, k) == Some(patch[j].isAddition);
    assert j == i;
  }

  // ----- rank counters

  function Tally(log: seq<Counted>, field: int, h: nat): nat {
    if log == [] then 0
    else Tally(log[..|log| - 1], field, h) + if Hash(field, log[|log| - 1].triple) == h then 1 else 0
  }

  /** The ranks handed out for `t` after the calls in `log`. */
  function RanksFor(log: seq<Counted>, t: Triple): PatchPositions {
    [Tally(log, 0, Hash(0, t)), Tally(log, 1, Hash(1, t)), Tally(log, 2, Hash(2, t)), Tally(log, 3, Hash(3, t)),
     Tally(log, 4, Hash(4, t)), Tally(log, 5, Hash(5, t)), Tally(log, 6, Hash(6, t))]
  }

  // ----- one triple

  ghost predicate DeletedFromSnapshot(e: Entry, v: int) {
    In(e.del, v) && e.delLocal == []
  }

  ghost predicate AddedToSnapshot(e: Entry, v: int) {
    In(e.add, v) && e.addLocal == []
  }

  /** A deletion that is local in version `v` has no ranks there: all seven are -1. */
  ghost predicate NoRanks(t: Trees, k: Key, v: int) {
    In(t.EntryOf(k).del, v) && t.EntryOf(k).delLocal != [] ==>
      forall g :: 0 <= g < FIELDS ==> RanksAt(t.RanksOf(k), v)[g] == -1
  }

  /** The triple is in the addition tree, and its first addition was one to the snapshot. */
  ghost predicate EverAdded(e: Entry) {
    e.add != [] && e.addLocal == []
  }

  /** The ranks of a node begin with its first version, and stop at or before `v`. */
  ghost predicate RanksOk(t: Trees, k: Key, v: int) {
    k in t.deletions ==>
      && InOrder(t.deletions[k].positions) && t.deletions[k].positions != []
      && t.deletions[k].positions[|t.deletions[k].positions| - 1].patchId <= v
      && (t.deletions[k].patches != [] ==> t.deletions[k].positions[0].patchId == t.deletions[k].patches[0].start)
  }

  ghost predicate SameNode(t: Trees, u: Trees, k: Key) {
    && (k in t.additions <==> k in u.additions) && (k in t.additions ==> t.additions[k] == u.additions[k])
    && (k in t.deletions <==> k in u.deletions) && (k in t.deletions ==> t.deletions[k] == u.deletions[k])
  }

  /** One turn of the loop takes triple `k` from `t` to `u` and leaves every other node alone. A deletion relative to
      the snapshot is ranked under `arg`, a local one has no ranks; an addition relative to the snapshot is counted, and
      a triple that was ever such an addition is counted for all versions. */
  ghost predicate KeyDone(t: Trees, k: Key, inSnapshot: bool, sign: Option<bool>, v: int, arg: Triple, u: Trees) {
    && (forall j :: j != k ==> SameNode(t, u, j))
    && KeyStep(t.EntryOf(k), inSnapshot, sign, v, u.EntryOf(k))
    && (k in u.additions ==> u.additions[k].patches != []) && (k in u.deletions ==> u.deletions[k].patches != [])
    && RanksOk(u, k, v)
    && (forall w :: w < v ==> RanksAt(u.RanksOf(k), w) == RanksAt(t.RanksOf(k), w))
    && (if DeletedFromSnapshot(u.EntryOf(k), v)
        then u.ranked == t.ranked + [Counted(k, arg)] && RanksAt(u.RanksOf(k), v) == RanksFor(t.ranked, arg)
        else u.ranked == t.ranked)
    && NoRanks(u, k, v)
    && (if AddedToSnapshot(u.EntryOf(k), v) then u.added == t.added + [k] else u.added == t.added)
    && (if EverAdded(u.EntryOf(k)) then u.ever == t.ever + [k] else u.ever == t.ever)
  }

  /** `after` is the rank list `before` with `p` stored at `v`, the latest version. */
  ghost predicate RankedAt(before: seq<VersionPositions>, v: int, p: PatchPositions, after: seq<VersionPositions>) {
    && Stored(before, v, p, after) && InOrder(after) && after != []
    && after[|after| - 1].patchId <= v
    && after[0].patchId == (if before == [] then v else before[0].patchId)
  }

  /** What ingestion may assume of the node it is at. */
  ghost predicate NodeReady(t: Trees, k: Key, inSnapshot: bool, v: int) {
    && EntryOk(t.EntryOf(k), inSnapshot, v)
    && RanksOk(t, k, v - 1)
    && (k in t.additions ==> t.additions[k].patches != []) && (k in t.deletions ==> t.deletions[k].patches != [])
  }

  /** Only the nodes matter for that. */
  lemma ReadyAlike(t: Trees, u: Trees, k: Key, inSnapshot: bool, v: int)
    requires t.additions == u.additions && t.deletions == u.deletions
    ensures NodeReady(t, k, inSnapshot, v) <==> NodeReady(u, k, inSnapshot, v)
    ensures t.EntryOf(k) == u.EntryOf(k)
  {
    hide EntryOk;
    assert t.EntryOf(k) == u.EntryOf(k);
  }

  /** The ranks of a node after storing some, or after leaving them alone. */
  lemma RanksStep(t: Trees, u: Trees, k: Key, v: int, p: PatchPositions)
    requires RanksOk(t, k, v - 1) && k in u.deletions && u.deletions[k].patches != []
    requires k in t.deletions && t.deletions[k].patches != [] ==>
               t.deletions[k].patches[0].start == u.deletions[k].patches[0].start
    requires k !in t.deletions ==> v == u.deletions[k].patches[0].start
    requires (k in t.deletions ==> t.deletions[k].patches != [])
    requires RankedAt(t.RanksOf(k), v, p, u.RanksOf(k)) || (k in t.deletions && u.RanksOf(k) == t.RanksOf(k))
    ensures RanksOk(u, k, v)
    ensures forall w :: w < v ==> RanksAt(u.RanksOf(k), w) == RanksAt(t.RanksOf(k), w)
    ensures RankedAt(t.RanksOf(k), v, p, u.RanksOf(k)) ==> RanksAt(u.RanksOf(k), v) == p
  {
    if RankedAt(t.RanksOf(k), v, p, u.RanksOf(k)) {
      StoredLast(t.RanksOf(k), v, p, u.RanksOf(k));
    }
  }

  /** A triple that no earlier patch mentioned is added. */
  lemma NewAdditionDone(t: Trees, u: Trees, k: Key, inSnapshot: bool, v: int, arg: Triple)
    requires 0 < v < MAX && NodeReady(t, k, inSnapshot, v) && k !in t.additions && k !in t.deletions
    requires k in u.additions && OpenedAt([], v, u.additions[k].patches) && u.additions[k].localChanges == []
    requires u == Trees(t.additions[k := u.additions[k]], t.deletions, t.ranked, t.added + [k], t.ever + [k])
    ensures KeyDone(t, k, inSnapshot, Some(true), v, arg, u)
  {
    assert forall x :: !In([], x);
    StartIsLeast(u.additions[k].patches, v);
  }

  /** A triple that no earlier patch mentioned is deleted. */
  lemma NewDeletionDone(t: Trees, u: Trees, k: Key, inSnapshot: bool, v: int, arg: Triple)
    requires 0 < v < MAX && NodeReady(t, k, inSnapshot, v) && k !in t.additions && k !in t.deletions
    requires k in u.deletions && OpenedAt([], v, u.deletions[k].patches) && u.deletions[k].localChanges == []
    requires RankedAt([], v, RanksFor(t.ranked, arg), u.deletions[k].positions)
    requires u == Trees(t.additions, t.deletions[k := u.deletions[k]], t.ranked + [Counted(k, arg)], t.added, t.ever)
    ensures KeyDone(t, k, inSnapshot, Some(false), v, arg, u)
  {
    hide RanksAt, Stored, Tally;
    assert forall x :: !In([], x);
    StartIsLeast(u.deletions[k].patches, v);
    RanksStep(t, u, k, v, RanksFor(t.ranked, arg));
  }

  /** The deletion of a triple that is in no addition tree stays in force. */
  lemma CarryDeletionDone(t: Trees, u: Trees, k: Key, inSnapshot: bool, sign: Option<bool>, v: int, arg: Triple,
                          d: DeletionData)
    requires 0 < v < MAX && NodeReady(t, k, inSnapshot, v) && k in t.deletions && k !in t.additions
    requires sign.None? || sign == Some(false)
    requires d.patches == t.deletions[k].patches && d.localChanges == t.deletions[k].localChanges
    requires RankedAt(t.deletions[k].positions, v, RanksFor(t.ranked, arg), d.positions)
    requires u == Trees(t.additions, t.deletions[k := d], t.ranked + [Counted(k, arg)], t.added, t.ever)
    ensures KeyDone(t, k, inSnapshot, sign, v, arg, u)
  {
    RanksStep(t, u, k, v, RanksFor(t.ranked, arg));
    InForce(t.EntryOf(k), inSnapshot, v);
    assert u.EntryOf(k) == t.EntryOf(k);
    InForceRuns(t.EntryOf(k), inSnapshot, v);
  }

  /** The addition of a triple that is in no deletion tree stays in force. */
  lemma CarryAdditionDone(t: Trees, u: Trees, k: Key, inSnapshot: bool, sign: Option<bool>, v: int, arg: Triple)
    requires 0 < v < MAX && NodeReady(t, k, inSnapshot, v) && k in t.additions && k !in t.deletions
    requires sign.None? || sign == Some(true)
    requires u == Trees(t.additions, t.deletions, t.ranked, t.added + [k], t.ever + [k])
    ensures KeyDone(t, k, inSnapshot, sign, v, arg, u)
  {
    InForce(t.EntryOf(k), inSnapshot, v);
    assert u.EntryOf(k) == t.EntryOf(k);
    InForceRuns(t.EntryOf(k), inSnapshot, v);
  }

  /** What is in force needs no opening, what is not needs no closing. */
  lemma InForceRuns(e: Entry, inSnapshot: bool, v: int)
    requires EntryOk(e, inSnapshot, v) && v < MAX && !Untouched(e)
    ensures if In(e.add, v - 1) then OpenedAt(e.add, v, e.add) && ClosedAt(e.del, v, e.del)
            else ClosedAt(e.add, v, e.add) && OpenedAt(e.del, v, e.del)
  {
    BelowMax(e.add);
    BelowMax(e.del);
  }

  lemma BelowMax(iv: seq<Interval>)
    requires WellFormed(iv, MAX)
    ensures forall x :: In(iv, x) ==> x < MAX
  {
  }

  /** A deletion of a triple that is in no addition tree is taken back, as a local addition. */
  lemma RevertDeletionDone(t: Trees, u: Trees, k: Key, inSnapshot: bool, v: int, arg: Triple,
                           a: AdditionData, d: DeletionData)
    requires 0 < v < MAX && NodeReady(t, k, inSnapshot, v) && k in t.deletions && k !in t.additions
    requires ClosedAt(t.deletions[k].patches, v, d.patches) && d.localChanges == []
    requires d.positions == t.deletions[k].positions
    requires OpenedAt([], v, a.patches) && a.localChanges == a.patches
    requires u == Trees(t.additions[k := a], t.deletions[k := d], t.ranked, t.added, t.ever)
    ensures KeyDone(t, k, inSnapshot, Some(true), v, arg, u)
  {
    InForce(t.EntryOf(k), inSnapshot, v);
    ClosedStart(t.deletions[k].patches, v, d.patches);
    assert forall x :: !In([], x);
    StartIsLeast(a.patches, v);
    RanksStep(t, u, k, v, UNSET);
  }

  /** An addition of a triple that is in no deletion tree is taken back, as a local deletion. */
  lemma RevertAdditionDone(t: Trees, u: Trees, k: Key, inSnapshot: bool, v: int, arg: Triple,
                           a: AdditionData, d: DeletionData)
    requires 0 < v < MAX && NodeReady(t, k, inSnapshot, v) && k in t.additions && k !in t.deletions
    requires ClosedAt(t.additions[k].patches, v, a.patches) && a.localChanges == []
    requires OpenedAt([], v, d.patches) && d.localChanges == d.patches
    requires RankedAt([], v, UNSET, d.positions)
    requires u == Trees(t.additions[k := a], t.deletions[k := d], t.ranked, t.added, t.ever + [k])
    ensures KeyDone(t, k, inSnapshot, Some(false), v, arg, u)
  {
    InForce(t.EntryOf(k), inSnapshot, v);
    ClosedStart(t.additions[k].patches, v, a.patches);
    assert forall x :: !In([], x);
    StartIsLeast(d.patches, v);
    RanksStep(t, u, k, v, UNSET);
  }

  /** Closing runs that started before leaves the first start where it is. */
  lemma ClosedStart(before: seq<Interval>, v: int, after: seq<Interval>)
    requires WellFormed(before, MAX) && before != [] && before[0].start < v && ClosedAt(before, v, after)
    ensures after != [] && after[0].start == before[0].start
  {
    Edges(before, 0);
    StartIsLeast(after, before[0].start);
  }

  lemma OpenedStart(before: seq<Interval>, v: int, after: seq<Interval>)
    requires WellFormed(before, MAX) && before != [] && before[0].start < v && OpenedAt(before, v, after)
    ensures after != [] && after[0].start == before[0].start
  {
    Edges(before, 0);
    StartIsLeast(after, before[0].start);
  }

  /** A triple that is in both trees ends up added. */
  lemma ForceAdditionDone(t: Trees, u: Trees, k: Key, inSnapshot: bool, sign: Option<bool>, v: int, arg: Triple,
                          a: AdditionData, d: DeletionData)
    requires 0 < v < MAX && NodeReady(t, k, inSnapshot, v) && k in t.deletions && k in t.additions
    requires AddedNext(t.EntryOf(k), sign, v)
    requires OpenedAt(t.additions[k].patches, v, a.patches) && ClosedAt(t.deletions[k].patches, v, d.patches)
    requires a.localChanges == (if inSnapshot then a.patches else [])
    requires d.localChanges == (if inSnapshot then [] else d.patches)
    requires d.positions == t.deletions[k].positions
    requires sign.None? ==> a == t.additions[k] && d == t.deletions[k]
    requires u == Trees(t.additions[k := a], t.deletions[k := d], t.ranked,
                        if inSnapshot then t.added else t.added + [k], if inSnapshot then t.ever else t.ever + [k])
    ensures KeyDone(t, k, inSnapshot, sign, v, arg, u)
  {
    hide RanksAt, Stored, Tally, RanksFor, InOrder;
    ClosedStart(t.deletions[k].patches, v, d.patches);
    OpenedStart(t.additions[k].patches, v, a.patches);
    RanksStep(t, u, k, v, UNSET);
  }

  /** A triple that is in both trees ends up deleted. */
  lemma ForceDeletionDone(t: Trees, u: Trees, k: Key, inSnapshot: bool, sign: Option<bool>, v: int, arg: Triple,
                          a: AdditionData, d: DeletionData)
    requires 0 < v < MAX && NodeReady(t, k, inSnapshot, v) && k in t.deletions && k in t.additions
    requires !AddedNext(t.EntryOf(k), sign, v)
    requires ClosedAt(t.additions[k].patches, v, a.patches) && OpenedAt(t.deletions[k].patches, v, d.patches)
    requires a.localChanges == (if inSnapshot then a.patches else [])
    requires d.localChanges == (if inSnapshot then [] else d.patches)
    requires RankedAt(t.deletions[k].positions, v, if inSnapshot then RanksFor(t.ranked, arg) else UNSET, d.positions)
    requires sign.None? ==> a == t.additions[k] && d.patches == t.deletions[k].patches
    requires u == Trees(t.additions[k := a], t.deletions[k := d],
                        if inSnapshot then t.ranked + [Counted(k, arg)] else t.ranked, t.added,
                        if inSnapshot then t.ever else t.ever + [k])
    ensures KeyDone(t, k, inSnapshot, sign, v, arg, u)
  {
    hide RanksAt, Stored, Tally, RanksFor, InOrder;
    OpenedStart(t.deletions[k].patches, v, d.patches);
    ClosedStart(t.additions[k].patches, v, a.patches);
    RanksStep(t, u, k, v, if inSnapshot then RanksFor(t.ranked, arg) else UNSET);
  }

  /** Everything is on the side that is in force, nothing on the other. */
  lemma InForce(e: Entry, inSnapshot: bool, v: int)
    requires EntryOk(e, inSnapshot, v) && v < MAX
    ensures e.add != [] && e.del == [] ==> In(e.add, v - 1) && In(e.add, v) && !inSnapshot && e.addLocal == []
    ensures e.del != [] && e.add == [] ==> In(e.del, v - 1) && In(e.del, v) && inSnapshot && e.delLocal == []
    ensures !Untouched(e) ==> (In(e.add, v) <==> In(e.add, v - 1)) && (In(e.del, v) <==> !In(e.add, v - 1))
  {
    assert forall x :: !In([], x);
  }

  // ----- the whole run

  /** A deleted triple that was added back before and that the patch does not mention: the rank counters are given the
      triple of another key. */
  ghost predicate Stale(t: Trees, patch: seq<PatchElement>, k: Key) {
    k in t.additions && k in t.deletions && Sign(patch, k).None?
  }

  /** Where the merge stands in the patch when it handles `k`: on the first element at or above it. */
  ghost function HeadPlace(patch: seq<PatchElement>, k: Key): (p: nat)
    ensures p <= |patch| && (forall i :: 0 <= i < p ==> patch[i].key < k) && (p < |patch| ==> k <= patch[p].key)
  {
    if patch == [] || k <= patch[0].key then 0 else 1 + HeadPlace(patch[1..], k)
  }

  /** The triple of the patch element at hand: past the end of the patch it is still the last one. */
  ghost function HeadTriple(patch: seq<PatchElement>, vocabulary: Key -> Triple, p: nat): Triple {
    if p < |patch| then vocabulary(patch[p].key)
    else if patch == [] then Triple(0, 0, 0)
    else vocabulary(patch[|patch| - 1].key)
  }

  /** The triple that is counted for the deletion of `k`. */
  ghost function CountedFor(t0: Trees, patch: seq<PatchElement>, vocabulary: Key -> Triple): Key -> Triple {
    (k: Key) => if Stale(t0, patch, k) then HeadTriple(patch, vocabulary, HeadPlace(patch, k)) else vocabulary(k)
  }

  /** What the branch for a triple in both trees counts. */
  lemma CountedAtHead(t0: Trees, patch: seq<PatchElement>, vocabulary: Key -> Triple, f: Key, p: nat, k: Key)
    requires PatchSorted(patch) && p <= |patch| && f < k
    requires (forall i :: 0 <= i < p ==> patch[i].key <= f) && (p < |patch| ==> k <= patch[p].key)
    requires k in t0.additions && k in t0.deletions
    ensures HeadTriple(patch, vocabulary, p) == CountedFor(t0, patch, vocabulary)(k)
  {
    if p < |patch| && patch[p].key == k {
      SignAt(patch, p);
    } else {
      forall i | 0 <= i < |patch| ensures patch[i].key != k {
        if p < i { assert patch[p].key < patch[i].key; }
      }
      assert HeadPlace(patch, k) == p;
    }
  }

  /** The cursor stands on the first key above `f`. */
  ghost predicate StandsAbove(keys: set<Key>, f: Key, cursor: Option<Key>) {
    && (cursor.None? ==> forall k :: k in keys ==> k <= f)
    && (cursor.Some? ==>
          cursor.value in keys && f < cursor.value && forall k :: k in keys && f < k ==> cursor.value <= k)
  }

  ghost predicate CursorsAbove(t: Trees, patch: seq<PatchElement>, f: Key, p: nat, d: Option<Key>, a: Option<Key>) {
    && p <= |patch|
    && (forall i :: 0 <= i < p ==> patch[i].key <= f)
    && (forall i :: p <= i < |patch| ==> f < patch[i].key)
    && StandsAbove(t.deletions.Keys, f, d)
    && StandsAbove(t.additions.Keys, f, a)
  }

  ghost predicate OwnersIncrease(log: seq<Counted>) {
    forall i, j :: 0 <= i < j < |log| ==> log[i].owner < log[j].owner
  }

  ghost predicate Owns(log: seq<Counted>, k: Key) {
    exists i :: 0 <= i < |log| && log[i].owner == k
  }

  /** The nodes: done up to `f`, as before above it. */
  ghost predicate NodesDone(t0: Trees, t: Trees, snapshot: set<Key>, patch: seq<PatchElement>, v: int, f: Key) {
    && t.NoEmptyNodes()
    && (forall k :: f < k ==> SameNode(t0, t, k))
    && (forall k :: k <= f ==> KeyStep(t0.EntryOf(k), k in snapshot, Sign(patch, k), v, t.EntryOf(k)))
    && (forall k :: RanksOk(t, k, v))
    && (forall k, w :: w < v ==> RanksAt(t.RanksOf(k), w) == RanksAt(t0.RanksOf(k), w))
  }

  /** The rank calls made are those of the deletions from the snapshot up to `f`, in order, each with the triple counted
      for it, and each node holds the ranks its call returned. */
  ghost predicate RanksDone(t0: Trees, t: Trees, patch: seq<PatchElement>, v: int, vocabulary: Key -> Triple, f: Key) {
    && OwnersIncrease(t.ranked)
    && (forall k :: Owns(t.ranked, k) <==> k <= f && DeletedFromSnapshot(t.EntryOf(k), v))
    && RanksStored(t, v)
    && (forall i :: 0 <= i < |t.ranked| ==>
          t.ranked[i].triple == CountedFor(t0, patch, vocabulary)(t.ranked[i].owner))
  }

  /** The additions counted are those to the snapshot up to `f`, in order, and so are those for all versions. */
  ghost predicate CountsDone(t: Trees, v: int, f: Key) {
    && Increasing(t.added) && Increasing(t.ever)
    && (forall k :: k in t.added <==> k <= f && AddedToSnapshot(t.EntryOf(k), v))
    && (forall k :: k in t.ever <==> k <= f && EverAdded(t.EntryOf(k)))
  }

  /** The least of the three current keys. */
  ghost predicate IsLeast(k: Key, patch: seq<PatchElement>, p: nat, d: Option<Key>, a: Option<Key>) {
    && ((p < |patch| && patch[p].key == k) || d == Some(k) || a == Some(k))
    && (p < |patch| ==> k <= patch[p].key) && (d.Some? ==> k <= d.value) && (a.Some? ==> k <= a.value)
  }

  /** Between the frontier and the least current key there is nothing to do. */
  lemma NothingBetween(t: Trees, patch: seq<PatchElement>, f: Key, p: nat, d: Option<Key>, a: Option<Key>, k: Key)
    requires PatchSorted(patch) && CursorsAbove(t, patch, f, p, d, a)
    requires f < k && (p < |patch| ==> k < patch[p].key) && (d.Some? ==> k < d.value) && (a.Some? ==> k < a.value)
    ensures t.EntryOf(k) == NO_ENTRY && Sign(patch, k) == None
  {
    forall i | 0 <= i < |patch| ensures patch[i].key != k {
      if p < i { assert patch[p].key < patch[i].key; }
    }
  }

  /** A turn for the least current key moves the frontier to it. */
  lemma TurnNodes(t0: Trees, t: Trees, u: Trees, snapshot: set<Key>, patch: seq<PatchElement>, v: int, arg: Triple,
                  f: Key, p: nat, d: Option<Key>, a: Option<Key>, k: Key)
    requires PatchSorted(patch) && CursorsAbove(t0, patch, f, p, d, a) && IsLeast(k, patch, p, d, a)
    requires NodesDone(t0, t, snapshot, patch, v, f)
    requires KeyDone(t, k, k in snapshot, Sign(patch, k), v, arg, u)
    ensures NodesDone(t0, u, snapshot, patch, v, k)
  {
    hide RanksFor, EverAdded, AddedToSnapshot, DeletedFromSnapshot;
    assert f < k;
    assert SameNode(t0, t, k);
    forall j | j <= k ensures KeyStep(t0.EntryOf(j), j in snapshot, Sign(patch, j), v, u.EntryOf(j)) {
      if j < k {
        assert SameNode(t, u, j);
        if f < j {
          NothingBetween(t0, patch, f, p, d, a, j);
          assert SameNode(t0, t, j);
        }
      }
    }
    forall j | j != k ensures RanksOk(u, j, v) && u.RanksOf(j) == t.RanksOf(j) {
      assert SameNode(t, u, j) && RanksOk(t, j, v);
    }
    forall j | j in u.additions ensures u.additions[j].patches != [] {
      if j != k { assert SameNode(t, u, j); }
    }
    forall j | j in u.deletions ensures u.deletions[j].patches != [] {
      if j != k { assert SameNode(t, u, j); }
    }
    forall j, w | w < v ensures RanksAt(u.RanksOf(j), w) == RanksAt(t0.RanksOf(j), w) {
      if j != k { assert u.RanksOf(j) == t.RanksOf(j); }
    }
    forall j | k < j ensures SameNode(t0, u, j) {
      assert SameNode(t, u, j) && SameNode(t0, t, j);
    }
  }

  lemma TurnRanks(t0: Trees, t: Trees, u: Trees, snapshot: set<Key>, patch: seq<PatchElement>, v: int,
                  vocabulary: Key -> Triple, arg: Triple,
                  f: Key, p: nat, d: Option<Key>, a: Option<Key>, k: Key)
    requires PatchSorted(patch) && CursorsAbove(t0, patch, f, p, d, a) && IsLeast(k, patch, p, d, a)
    requires NodesDone(t0, t, snapshot, patch, v, f) && RanksDone(t0, t, patch, v, vocabulary, f)
    requires KeyDone(t, k, k in snapshot, Sign(patch, k), v, arg, u)
    requires arg == CountedFor(t0, patch, vocabulary)(k)
    ensures RanksDone(t0, u, patch, v, vocabulary, k)
  {
    assert f < k;
    NoneOwned(t, v, vocabulary, t0, patch, f, k);
    if DeletedFromSnapshot(u.EntryOf(k), v) {
      LogExtended(t.ranked, Counted(k, arg));
    }
    TurnOwners(t0, t, u, snapshot, patch, v, vocabulary, arg, f, p, d, a, k);
    TurnStored(t, u, v, k, arg);
  }

  ghost predicate RanksStored(t: Trees, v: int) {
    forall i :: 0 <= i < |t.ranked| ==>
      RanksAt(t.RanksOf(t.ranked[i].owner), v) == RanksFor(t.ranked[..i], t.ranked[i].triple)
  }

  lemma TurnStored(t: Trees, u: Trees, v: int, k: Key, arg: Triple)
    requires forall j :: j != k ==> SameNode(t, u, j)
    requires RanksStored(t, v) && forall i :: 0 <= i < |t.ranked| ==> t.ranked[i].owner < k
    requires u.ranked == t.ranked ||
             (u.ranked == t.ranked + [Counted(k, arg)] && RanksAt(u.RanksOf(k), v) == RanksFor(t.ranked, arg))
    ensures RanksStored(u, v)
  {
    forall i | 0 <= i < |u.ranked|
      ensures RanksAt(u.RanksOf(u.ranked[i].owner), v) == RanksFor(u.ranked[..i], u.ranked[i].triple) {
      if i < |t.ranked| {
        assert u.ranked[..i] == t.ranked[..i] && u.ranked[i] == t.ranked[i];
        assert SameNode(t, u, t.ranked[i].owner);
        assert u.RanksOf(u.ranked[i].owner) == t.RanksOf(t.ranked[i].owner);
      } else {
        assert u.ranked[..i] == t.ranked;
      }
    }
  }

  lemma LogExtended(log: seq<Counted>, c: Counted)
    requires OwnersIncrease(log) && forall i :: 0 <= i < |log| ==> log[i].owner < c.owner
    ensures OwnersIncrease(log + [c])
    ensures forall j :: Owns(log + [c], j) <==> Owns(log, j) || j == c.owner
  {
    assert (log + [c])[|log|] == c;
    forall j | Owns(log, j) ensures Owns(log + [c], j) {
      var i :| 0 <= i < |log| && log[i].owner == j;
      assert (log + [c])[i] == log[i];
    }
    forall j | Owns(log + [c], j) ensures Owns(log, j) || j == c.owner {
      var i :| 0 <= i < |log + [c]| && (log + [c])[i].owner == j;
      if i < |log| { assert log[i].owner == j; }
    }
  }

  lemma TurnOwners(t0: Trees, t: Trees, u: Trees, snapshot: set<Key>, patch: seq<PatchElement>, v: int,
                   vocabulary: Key -> Triple, arg: Triple,
                   f: Key, p: nat, d: Option<Key>, a: Option<Key>, k: Key)
    requires PatchSorted(patch) && CursorsAbove(t0, patch, f, p, d, a) && IsLeast(k, patch, p, d, a) && f < k
    requires NodesDone(t0, t, snapshot, patch, v, f)
    requires forall j :: Owns(t.ranked, j) <==> j <= f && DeletedFromSnapshot(t.EntryOf(j), v)
    requires KeyDone(t, k, k in snapshot, Sign(patch, k), v, arg, u)
    requires forall j :: Owns(u.ranked, j) <==> Owns(t.ranked, j) || (j == k && DeletedFromSnapshot(u.EntryOf(k), v))
    ensures forall j :: Owns(u.ranked, j) <==> j <= k && DeletedFromSnapshot(u.EntryOf(j), v)
  {
    forall j ensures Owns(u.ranked, j) <==> j <= k && DeletedFromSnapshot(u.EntryOf(j), v) {
      if j != k {
        assert SameNode(t, u, j);
        if f < j < k {
          NothingBetween(t0, patch, f, p, d, a, j);
          assert SameNode(t0, t, j);
          assert forall x :: !In([], x);
        }
      }
    }
  }

  lemma NoneOwned(t: Trees, v: int, vocabulary: Key -> Triple, t0: Trees, patch: seq<PatchElement>, f: Key, k: Key)
    requires RanksDone(t0, t, patch, v, vocabulary, f) && f < k
    ensures forall i :: 0 <= i < |t.ranked| ==> t.ranked[i].owner < k
  {
    forall i | 0 <= i < |t.ranked| ensures t.ranked[i].owner < k {
      assert Owns(t.ranked, t.ranked[i].owner);
    }
  }

  lemma TurnCounts(t0: Trees, t: Trees, u: Trees, snapshot: set<Key>, patch: seq<PatchElement>, v: int, arg: Triple,
                   f: Key, p: nat, d: Option<Key>, a: Option<Key>, k: Key)
    requires PatchSorted(patch) && CursorsAbove(t0, patch, f, p, d, a) && IsLeast(k, patch, p, d, a)
    requires NodesDone(t0, t, snapshot, patch, v, f) && CountsDone(t, v, f)
    requires KeyDone(t, k, k in snapshot, Sign(patch, k), v, arg, u)
    ensures CountsDone(u, v, k)
  {
    hide KeyStep, RanksOk, RanksAt, RanksFor, DeletedFromSnapshot, Increasing, Sign;
    assert f < k;
    IncreasingConcat(t.added, [k]);
    IncreasingConcat(t.ever, [k]);
    forall j ensures j in u.added <==> j <= k && AddedToSnapshot(u.EntryOf(j), v) {
      if j != k {
        assert SameNode(t, u, j);
        assert j in u.added <==> j in t.added;
        if f < j < k {
          NothingBetween(t0, patch, f, p, d, a, j);
          assert SameNode(t0, t, j);
          assert forall x :: !In([], x);
        }
      }
    }
    forall j ensures j in u.ever <==> j <= k && EverAdded(u.EntryOf(j)) {
      if j != k {
        assert SameNode(t, u, j);
        assert j in u.ever <==> j in t.ever;
        if f < j < k {
          NothingBetween(t0, patch, f, p, d, a, j);
          assert SameNode(t0, t, j);
        }
      }
    }
  }

  // ----- one turn

  /** Where ingestion stands before a turn: everything up to `f` is done, the cursors are on what follows. */
  ghost predicate AtFrontier(t0: Trees, t: Trees, snapshot: set<Key>, patch: seq<PatchElement>, v: int,
                             vocabulary: Key -> Triple, f: Key, p: nat, d: Option<Key>, a: Option<Key>) {
    && CursorsAbove(t0, patch, f, p, d, a)
    && NodesDone(t0, t, snapshot, patch, v, f)
    && RanksDone(t0, t, patch, v, vocabulary, f)
    && CountsDone(t, v, f)
  }

  ghost predicate AllReady(t0: Trees, snapshot: set<Key>, v: int) {
    forall k :: NodeReady(t0, k, k in snapshot, v)
  }

  lemma StartsAtFrontier(t0: Trees, snapshot: set<Key>, patch: seq<PatchElement>, v: int, vocabulary: Key -> Triple,
                         f: Key, d: Option<Key>, a: Option<Key>)
    requires AllReady(t0, snapshot, v) && t0.ranked == [] && t0.added == [] && t0.ever == []
    requires (forall k :: k in t0.deletions ==> f < k) && (forall k :: k in t0.additions ==> f < k)
    requires forall i :: 0 <= i < |patch| ==> f < patch[i].key
    requires d == First(t0.deletions.Keys) && a == First(t0.additions.Keys)
    ensures AtFrontier(t0, t0, snapshot, patch, v, vocabulary, f, 0, d, a)
  {
    hide NodeReady, KeyStep, RanksAt, RanksFor, RanksOk, Sign;
    forall k | k <= f ensures t0.EntryOf(k) == NO_ENTRY && Sign(patch, k) == None {
      assert k !in t0.deletions && k !in t0.additions;
      NotInPatch(patch, k);
    }
    StartsNodes(t0, snapshot, patch, v, f);
    assert forall x :: !In([], x);
    assert CursorsAbove(t0, patch, f, 0, d, a);
  }

  lemma NotInPatch(patch: seq<PatchElement>, k: Key)
    requires forall i :: 0 <= i < |patch| ==> patch[i].key != k
    ensures Sign(patch, k) == None
  {
  }

  lemma StartsNodes(t0: Trees, snapshot: set<Key>, patch: seq<PatchElement>, v: int, f: Key)
    requires AllReady(t0, snapshot, v)
    requires forall k :: k <= f ==> t0.EntryOf(k) == NO_ENTRY && Sign(patch, k) == None
    ensures NodesDone(t0, t0, snapshot, patch, v, f)
  {
    hide EntryOk, RanksAt, Sign;
    forall k ensures RanksOk(t0, k, v) {
      assert NodeReady(t0, k, k in snapshot, v);
    }
    assert forall k :: k in t0.additions || k in t0.deletions ==> NodeReady(t0, k, k in snapshot, v);
  }

  /** What a turn may rely on for the least current key. */
  lemma HeadReady(t0: Trees, t: Trees, snapshot: set<Key>, patch: seq<PatchElement>, v: int,
                  vocabulary: Key -> Triple, f: Key, p: nat, d: Option<Key>, a: Option<Key>, k: Key)
    requires PatchSorted(patch) && AtFrontier(t0, t, snapshot, patch, v, vocabulary, f, p, d, a)
    requires AllReady(t0, snapshot, v) && IsLeast(k, patch, p, d, a)
    ensures f < k && NodeReady(t, k, k in snapshot, v) && SameNode(t0, t, k)
    ensures (k in t.additions <==> a == Some(k)) && (k in t.deletions <==> d == Some(k))
    ensures Sign(patch, k) == if p < |patch| && patch[p].key == k then Some(patch[p].isAddition) else None
  {
    hide EntryOk, RanksAt, RanksFor, RanksDone, CountsDone, KeyStep;
    assert f < k;
    assert NodeReady(t0, k, k in snapshot, v);
    assert SameNode(t0, t, k);
    assert t.EntryOf(k) == t0.EntryOf(k) && t.RanksOf(k) == t0.RanksOf(k);
    if p < |patch| && patch[p].key == k {
      SignAt(patch, p);
    } else {
      forall i | 0 <= i < |patch| ensures patch[i].key != k {
        if p < i { assert patch[p].key < patch[i].key; }
      }
    }
  }

  lemma HeadCounted(t0: Trees, t: Trees, snapshot: set<Key>, patch: seq<PatchElement>, v: int,
                    vocabulary: Key -> Triple, f: Key, p: nat, d: Option<Key>, a: Option<Key>, k: Key)
    requires PatchSorted(patch) && AtFrontier(t0, t, snapshot, patch, v, vocabulary, f, p, d, a)
    requires IsLeast(k, patch, p, d, a) && d == Some(k) && a == Some(k)
    ensures HeadTriple(patch, vocabulary, p) == CountedFor(t0, patch, vocabulary)(k)
  {
    hide NodesDone, RanksDone, CountsDone, HeadTriple, CountedFor;
    CountedAtHead(t0, patch, vocabulary, f, p, k);
  }

  /** The triple of the next patch element; past the end nothing changes. */
  lemma NextHead(patch: seq<PatchElement>, vocabulary: Key -> Triple, p: nat)
    requires p < |patch|
    ensures HeadTriple(patch, vocabulary, p) == vocabulary(patch[p].key)
    ensures HeadTriple(patch, vocabulary, p + 1) ==
            if p + 1 < |patch| then vocabulary(patch[p + 1].key) else HeadTriple(patch, vocabulary, p)
  {
  }

  lemma TurnDone(t0: Trees, t: Trees, u: Trees, snapshot: set<Key>, patch: seq<PatchElement>, v: int,
                 vocabulary: Key -> Triple, arg: Triple,
                 f: Key, p: nat, d: Option<Key>, a: Option<Key>, k: Key, p': nat, d': Option<Key>, a': Option<Key>)
    requires PatchSorted(patch) && AtFrontier(t0, t, snapshot, patch, v, vocabulary, f, p, d, a)
    requires IsLeast(k, patch, p, d, a)
    requires KeyDone(t, k, k in snapshot, Sign(patch, k), v, arg, u)
    requires arg == CountedFor(t0, patch, vocabulary)(k)
    requires p' == if p < |patch| && patch[p].key == k then p + 1 else p
    requires d' == if d == Some(k) then Ceiling(u.deletions.Keys, k + 1) else d
    requires a' == if a == Some(k) then Ceiling(u.additions.Keys, k + 1) else a
    ensures AtFrontier(t0, u, snapshot, patch, v, vocabulary, k, p', d', a')
  {
    hide KeyDone, KeyStep, RanksOk, RanksAt, RanksFor, RanksStored, OwnersIncrease, CountedFor, Sign;
    TurnNodes(t0, t, u, snapshot, patch, v, arg, f, p, d, a, k);
    TurnRanks(t0, t, u, snapshot, patch, v, vocabulary, arg, f, p, d, a, k);
    TurnCounts(t0, t, u, snapshot, patch, v, arg, f, p, d, a, k);
    forall j | k < j ensures SameNode(t0, u, j) {}
    hide SameNode;
    SteppedCursor(t0.deletions.Keys, u.deletions.Keys, f, k, d, d') by {
      forall j | k < j ensures j in t0.deletions.Keys <==> j in u.deletions.Keys { SameKeys(t0, u, j); }
    }
    SteppedCursor(t0.additions.Keys, u.additions.Keys, f, k, a, a') by {
      forall j | k < j ensures j in t0.additions.Keys <==> j in u.additions.Keys { SameKeys(t0, u, j); }
    }
  }

  lemma KeysGrow(t: Trees, u: Trees, k: Key, inSnapshot: bool, sign: Option<bool>, v: int, arg: Triple)
    requires KeyDone(t, k, inSnapshot, sign, v, arg, u)
    ensures u.additions.Keys <= t.additions.Keys + {k} && u.deletions.Keys <= t.deletions.Keys + {k}
  {
    hide KeyStep, RanksOk, RanksAt, RanksFor, AddedToSnapshot, DeletedFromSnapshot;
    forall j | j in u.additions && j != k ensures j in t.additions { assert SameNode(t, u, j); }
    forall j | j in u.deletions && j != k ensures j in t.deletions { assert SameNode(t, u, j); }
  }

  lemma SameKeys(t: Trees, u: Trees, k: Key)
    requires SameNode(t, u, k)
    ensures (k in t.additions.Keys <==> k in u.additions.Keys) && (k in t.deletions.Keys <==> k in u.deletions.Keys)
  {
  }

  /** A cursor on or past `k` that steps off it stands on the first key above `k`; keys inserted at `k` do not show. */
  lemma SteppedCursor(keys: set<Key>, now: set<Key>, f: Key, k: Key, c: Option<Key>, next: Option<Key>)
    requires StandsAbove(keys, f, c) && f < k && (c.Some? ==> k <= c.value)
    requires forall j :: k < j ==> (j in keys <==> j in now)
    requires next == if c == Some(k) then Ceiling(now, k + 1) else c
    ensures StandsAbove(keys, k, next)
  {
  }

  /** When all three streams have ended, every triple has been handled. */
  lemma RunDone(t0: Trees, t: Trees, snapshot: set<Key>, patch: seq<PatchElement>, v: int, vocabulary: Key -> Triple,
                f: Key)
    requires AtFrontier(t0, t, snapshot, patch, v, vocabulary, f, |patch|, None, None)
    ensures forall k :: KeyStep(t0.EntryOf(k), k in snapshot, Sign(patch, k), v, t.EntryOf(k))
    ensures forall k :: Owns(t.ranked, k) <==> DeletedFromSnapshot(t.EntryOf(k), v)
    ensures forall k :: k in t.added <==> AddedToSnapshot(t.EntryOf(k), v)
    ensures forall k :: k in t.ever <==> EverAdded(t.EntryOf(k))
  {
    hide RanksOk, RanksAt, RanksStored, OwnersIncrease, Owns, Increasing;
    assert forall x :: !In([], x);
    forall k | f < k ensures t.EntryOf(k) == NO_ENTRY && t0.EntryOf(k) == NO_ENTRY && Sign(patch, k) == None {
      assert SameNode(t0, t, k);
      NotInPatch(patch, k);
    }
  }

  lemma RunKeySteps(t0: Trees, t: Trees, snapshot: set<Key>, patch: seq<PatchElement>, v: int,
                    vocabulary: Key -> Triple, f: Key)
    requires AtFrontier(t0, t, snapshot, patch, v, vocabulary, f, |patch|, None, None)
    ensures forall k :: KeyStep(t0.EntryOf(k), k in snapshot, Sign(patch, k), v, t.EntryOf(k))
  {
    hide AtFrontier, KeyStep;
    RunDone(t0, t, snapshot, patch, v, vocabulary, f);
  }
}
