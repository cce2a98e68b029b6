/** What the entries of one triple mean: the history of the triple in a delta chain. */
module ChainHistory {
  import opened OrderedKeys
  import opened Intervals
  import opened Values

  /** The entries of one triple in the addition and the deletion tree; no runs means no entry. */
  datatype Entry = Entry(add: seq<Interval>, addLocal: seq<Interval>, del: seq<Interval>, delLocal: seq<Interval>)

  const NO_ENTRY := Entry([], [], [], [])

  predicate Untouched(e: Entry) {
    e.add == [] && e.del == []
  }

  predicate InOneTree(e: Entry) {
    (e.add == []) != (e.del == [])
  }

  /** A change is local when it brings the triple back to where the snapshot has it. */
  predicate LocalFlags(e: Entry, inSnapshot: bool) {
    && e.addLocal == (if inSnapshot then e.add else [])
    && e.delLocal == (if inSnapshot then [] else e.del)
  }

  /** What ingestion relies on before version `v`: one of the two trees is in force, and stays so. */
  ghost predicate EntryOk(e: Entry, inSnapshot: bool, v: int) {
    && WellFormed(e.add, MAX) && WellFormed(e.del, MAX)
    && Steady(e.add, v - 1) && Steady(e.del, v - 1)
    && LocalFlags(e, inSnapshot)
    && (e.add != [] ==> e.add[0].start < v) && (e.del != [] ==> e.del[0].start < v)
    && (!Untouched(e) ==>
          && (In(e.add, v - 1) <==> !In(e.del, v - 1))
          && (if inSnapshot then e.del != [] else e.add != []))
  }

  /** Whether the triple is in the version that ingestion makes of an entry, if it has one. */
  ghost predicate AddedNext(e: Entry, sign: Option<bool>, v: int) {
    if sign.None? then In(e.add, v - 1)
    else if InOneTree(e) then sign.value
    else !In(e.add, v - 1)
  }

  /** What ingesting version `v` does to the entries of one triple, which the patch adds, deletes or does not mention.
      A triple that is in both trees is flipped, whatever the patch says of it. */
  ghost predicate KeyStep(before: Entry, inSnapshot: bool, sign: Option<bool>, v: int, after: Entry) {
    if sign.None? then after == before
    else if Untouched(before) then
      && after.addLocal == [] && after.delLocal == []
      && (if sign.value then OpenedAt([], v, after.add) && after.del == []
          else OpenedAt([], v, after.del) && after.add == [])
    else
      && LocalFlags(after, inSnapshot)
      && (if AddedNext(before, sign, v)
          then OpenedAt(before.add, v, after.add) && ClosedAt(before.del, v, after.del)
          else ClosedAt(before.add, v, after.add) && OpenedAt(before.del, v, after.del))
  }

  /** Membership of triple `k` in version `u` of a chain whose first patch is `min`; the last version lasts. */
  ghost predicate Member(k: Key, u: int, snapshot: set<Key>, history: seq<set<Key>>, min: int) {
    if u < min || history == [] then k in snapshot
    else if u < min + |history| then k in history[u - min]
    else k in history[|history| - 1]
  }

  /** The version in which the entries of a triple begin. */
  function Born(e: Entry, inSnapshot: bool): int {
    if inSnapshot then (if e.del != [] then e.del[0].start else MAX)
    else (if e.add != [] then e.add[0].start else MAX)
  }

  /** The entries of triple `k` say of every version whether it holds the triple, and since when that is worth saying:
      without entries the triple never moved; with entries it moved in version `Born` first, from then on it is added
      exactly where the version has it and deleted exactly where the version lacks it, and the local flags mark the
      changes that agree with the snapshot. */
  ghost predicate Represents(e: Entry, k: Key, snapshot: set<Key>, history: seq<set<Key>>, min: int) {
    var here := k in snapshot;
    var b := Born(e, here);
    && WellFormed(e.add, MAX) && WellFormed(e.del, MAX) && LocalFlags(e, here)
    && (Untouched(e) ==> forall u :: Member(k, u, snapshot, history, min) == here)
    && (!Untouched(e) ==>
          && min <= b < min + |history| && b < MAX
          && (forall u :: u < b ==> Member(k, u, snapshot, history, min) == here)
          && Member(k, b, snapshot, history, min) != here
          && (forall u :: In(e.add, u) <==> b <= u < MAX && Member(k, u, snapshot, history, min))
          && (forall u :: In(e.del, u) <==> b <= u < MAX && !Member(k, u, snapshot, history, min)))
  }

  /** The last version lasts. */
  lemma MemberSteady(k: Key, snapshot: set<Key>, history: seq<set<Key>>, min: int)
    ensures var v := min + |history|; forall u :: v - 1 <= u ==>
      Member(k, u, snapshot, history, min) == Member(k, v, snapshot, history, min)
  {
  }

  lemma RepresentsOk(e: Entry, k: Key, snapshot: set<Key>, history: seq<set<Key>>, min: int)
    requires Represents(e, k, snapshot, history, min) && min + |history| < MAX
    ensures EntryOk(e, k in snapshot, min + |history|)
    ensures !Untouched(e) ==> (In(e.add, min + |history| - 1) <==> Member(k, min + |history|, snapshot, history, min))
  {
    var v := min + |history|;
    MemberSteady(k, snapshot, history, min);
    if Untouched(e) {
      assert forall x :: !In(e.add, x) && !In(e.del, x);
    } else {
      assert Steady(e.add, v - 1) && Steady(e.del, v - 1);
      SteadyStart(e.add, v - 1);
      SteadyStart(e.del, v - 1);
    }
  }

  /** A patch element that ingestion treats rightly: it changes the membership, or the triple has been only added or
      only deleted so far. */
  ghost predicate Admissible(e: Entry, sign: Option<bool>, wasMember: bool) {
    sign.Some? ==> sign.value != wasMember || InOneTree(e)
  }

  function Applied(sign: Option<bool>, wasMember: bool): bool {
    if sign.Some? then sign.value else wasMember
  }

  lemma MemberExtended(k: Key, snapshot: set<Key>, history: seq<set<Key>>, min: int, next: set<Key>)
    ensures var v := min + |history|;
      && (forall u :: u < v ==> Member(k, u, snapshot, history + [next], min) == Member(k, u, snapshot, history, min))
      && (forall u :: v <= u ==> Member(k, u, snapshot, history + [next], min) == (k in next))
      && (forall u :: v <= u ==> Member(k, u, snapshot, history, min) == Member(k, v, snapshot, history, min))
      && Member(k, v, snapshot, history, min) == Member(k, v - 1, snapshot, history, min)
  {
  }

  /** The first run starts at the least id. */
  lemma StartIsLeast(iv: seq<Interval>, b: int)
    requires WellFormed(iv, MAX) && In(iv, b) && forall x :: In(iv, x) ==> b <= x
    ensures iv != [] && iv[0].start == b
  {
    Edges(iv, 0);
  }

  lemma UntouchedStep(before: Entry, k: Key, snapshot: set<Key>, history: seq<set<Key>>, min: int,
                      sign: Option<bool>, after: Entry, next: set<Key>)
    requires min + |history| < MAX && sign.Some? && Untouched(before)
    requires Represents(before, k, snapshot, history, min)
    requires KeyStep(before, k in snapshot, sign, min + |history|, after)
    requires k in next <==> sign.value
    ensures Represents(after, k, snapshot, history + [next], min) <==> sign.value != (k in snapshot)
  {
    var v := min + |history|;
    MemberExtended(k, snapshot, history, min, next);
    var begun := if sign.value then after.add else after.del;
    assert forall x :: In(begun, x) <==> v <= x < MAX by { assert forall x :: !In([], x); }
    StartIsLeast(begun, v);
    assert forall x :: !In([], x);
  }

  /** After a step a touched entry is added from `v` on, or deleted from `v` on, and as before until then. */
  lemma TouchedRuns(before: Entry, k: Key, snapshot: set<Key>, history: seq<set<Key>>, min: int,
                    sign: Option<bool>, after: Entry)
    requires min + |history| < MAX && sign.Some? && !Untouched(before)
    requires Represents(before, k, snapshot, history, min)
    requires KeyStep(before, k in snapshot, sign, min + |history|, after)
    ensures var v, b := min + |history|, Born(before, k in snapshot);
      && b < v && Born(after, k in snapshot) == b && !Untouched(after)
      && WellFormed(after.add, MAX) && WellFormed(after.del, MAX) && LocalFlags(after, k in snapshot)
      && (forall u :: In(after.add, u) <==>
            b <= u < MAX && if u < v then Member(k, u, snapshot, history, min) else AddedNext(before, sign, v))
      && (forall u :: In(after.del, u) <==>
            b <= u < MAX && if u < v then !Member(k, u, snapshot, history, min) else !AddedNext(before, sign, v))
  {
    var v := min + |history|;
    var here := k in snapshot;
    var b := Born(before, here);
    assert In(if here then before.del else before.add, b);
    StartIsLeast(if here then after.del else after.add, b);
  }

  lemma TouchedRight(before: Entry, k: Key, snapshot: set<Key>, history: seq<set<Key>>, min: int,
                     sign: Option<bool>, after: Entry, next: set<Key>)
    requires min + |history| < MAX && sign.Some? && !Untouched(before)
    requires Represents(before, k, snapshot, history, min)
    requires KeyStep(before, k in snapshot, sign, min + |history|, after)
    requires k in next <==> AddedNext(before, sign, min + |history|)
    ensures Represents(after, k, snapshot, history + [next], min)
  {
    var v := min + |history|;
    MemberExtended(k, snapshot, history, min, next);
    TouchedRuns(before, k, snapshot, history, min, sign, after);
  }

  lemma TouchedStep(before: Entry, k: Key, snapshot: set<Key>, history: seq<set<Key>>, min: int,
                    sign: Option<bool>, after: Entry, next: set<Key>)
    requires min + |history| < MAX && sign.Some? && !Untouched(before)
    requires Represents(before, k, snapshot, history, min)
    requires KeyStep(before, k in snapshot, sign, min + |history|, after)
    requires k in next <==> sign.value
    ensures Represents(after, k, snapshot, history + [next], min) <==>
            Admissible(before, sign, Member(k, min + |history|, snapshot, history, min))
  {
    var v := min + |history|;
    RepresentsOk(before, k, snapshot, history, min);
    if AddedNext(before, sign, v) == sign.value {
      TouchedRight(before, k, snapshot, history, min, sign, after, next);
    } else {
      TouchedRuns(before, k, snapshot, history, min, sign, after);
      TouchedWrong(after, k, snapshot, history, min, next);
    }
  }

  lemma TouchedWrong(after: Entry, k: Key, snapshot: set<Key>, history: seq<set<Key>>, min: int, next: set<Key>)
    requires !Untouched(after) && Born(after, k in snapshot) <= min + |history| < MAX
    requires In(after.add, min + |history|) <==> k !in next
    ensures !Represents(after, k, snapshot, history + [next], min)
  {
    assert Member(k, min + |history|, snapshot, history + [next], min) == (k in next);
  }

  /** Ingestion keeps the meaning of a triple's entries for exactly the admissible patch elements. */
  lemma KeyStepRepresents(before: Entry, k: Key, snapshot: set<Key>, history: seq<set<Key>>, min: int,
                          sign: Option<bool>, after: Entry, next: set<Key>)
    requires min + |history| < MAX
    requires Represents(before, k, snapshot, history, min)
    requires KeyStep(before, k in snapshot, sign, min + |history|, after)
    requires k in next <==> Applied(sign, Member(k, min + |history|, snapshot, history, min))
    ensures Represents(after, k, snapshot, history + [next], min) <==>
            Admissible(before, sign, Member(k, min + |history|, snapshot, history, min))
  {
    var v := min + |history|;
    var was := Member(k, v, snapshot, history, min);
    MemberExtended(k, snapshot, history, min, next);
    RepresentsOk(before, k, snapshot, history, min);
    if sign.Some? {
      if Untouched(before) {
        UntouchedStep(before, k, snapshot, history, min, sign, after, next);
      } else {
        TouchedStep(before, k, snapshot, history, min, sign, after, next);
      }
    }
  }
}
