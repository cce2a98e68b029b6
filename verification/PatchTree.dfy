/** The addition and deletion trees of one delta chain. */
module PatchTrees {
  import opened OrderedKeys
  import opened Intervals
  import opened Positions
  import opened Values
  import opened AdditionValues
  import opened DeletionValues
  import opened ChainHistory
  import opened Ingestion
  import opened Ranks
  import opened Triples
  import opened Dictionaries

  function Set<K>(m: map<K, nat>, k: K, n: nat): map<K, nat> {
    m[k := n]
  }

  function Hashes(t: Triple): (r: seq<nat>)
    ensures |r| == FIELDS && forall g :: 0 <= g < FIELDS ==> r[g] == Hash(g, t)
  {
    seq(FIELDS, g => Hash(g, t))
  }

  lemma TallyExtended(log: seq<Counted>, c: Counted)
    ensures forall f, h :: 0 <= f < FIELDS ==>
              Tally(log + [c], f, h) == Tally(log, f, h) + if h == Hashes(c.triple)[f] then 1 else 0
  {
    assert (log + [c])[..|log|] == log;
  }

  lemma RanksForAll(log: seq<Counted>, t: Triple, p: PatchPositions)
    requires forall g :: 0 <= g < FIELDS ==> p[g] == Tally(log, g, Hashes(t)[g])
    ensures p == RanksFor(log, t)
  {
  }

  class PatchTree {
    const minPatchId: int
    const vocabulary: Key -> Triple  // the triple behind a key
    var maxPatchId: int
    var additions: map<Key, AdditionData>
    var deletions: map<Key, DeletionData>  // the tree in SPO order
    var reduced: map<Key, DeletionData>  // what the trees in the other two orders hold
    var counters: seq<map<nat, nat>>  // one rank counter per field, cleared for every patch
    var tempCountAdditions: map<(int, Triple), nat>
    var countAdditions: map<(int, Triple), nat>

    ghost const universe: set<Key>  // the triples the dictionary knows
    ghost const snapshot: set<Key>  // the triples of the chain's snapshot
    ghost var history: seq<set<Key>>  // the triples of each ingested version
    ghost var misranked: set<RankPlace>  // the places of the stored ranks that are wrong
    ghost var ranked: seq<Counted>  // the rank calls and
    ghost var added: seq<Key>  // the additions counted for the version being ingested, and
    ghost var ever: seq<Key>  // those counted for all versions

    ghost function State(): Trees
      reads this
    {
      Trees(additions, deletions, ranked, added, ever)
    }

    /** The rank counters hold the tallies of the calls made. */
    ghost predicate CountersOk()
      reads `counters, `ranked
    {
      && |counters| == FIELDS
      && forall f, h :: 0 <= f < FIELDS ==> Lookup(counters[f], h) == Tally(ranked, f, h)
    }

    /** The addition counts for version `v` and for all versions are those of the additions counted. */
    ghost predicate AdditionCountsOk(v: int)
      reads `tempCountAdditions, `added, `ever
    {
      TempCountsTrue(tempCountAdditions, added, ever, v, vocabulary)
    }

    ghost predicate ReducedOk()
      reads `reduced, `deletions
    {
      IsReducedTree(reduced, deletions)
    }

    ghost predicate Counting(v: int)
      reads this
    {
      CountersOk() && AdditionCountsOk(v) && ReducedOk()
    }

    ghost predicate Ready(k: Key, v: int)
      reads this
    {
      0 < v < MAX && NodeReady(State(), k, k in snapshot, v) && Counting(v)
    }

    ghost predicate Valid()
      reads this
    {
      && 0 < minPatchId && minPatchId + |history| <= MAX
      && maxPatchId == (if history == [] then minPatchId else minPatchId + |history| - 1)
      && tempCountAdditions == map[] && ranked == [] && added == [] && ever == []
      && Dictionary(universe, vocabulary) && ReducedOk()
      && snapshot <= universe && additions.Keys <= universe && deletions.Keys <= universe
      && ChainOk(State(), countAdditions, snapshot, history, minPatchId, vocabulary, misranked)
    }

    constructor (minPatchId: int, vocabulary: Key -> Triple, ghost universe: set<Key>, ghost snapshot: set<Key>)
      requires 0 < minPatchId <= MAX && Dictionary(universe, vocabulary) && snapshot <= universe
      ensures Valid() && history == [] && misranked == {}
      ensures this.minPatchId == minPatchId && this.vocabulary == vocabulary
      ensures this.universe == universe && this.snapshot == snapshot
    {
      this.minPatchId := minPatchId;
      this.vocabulary := vocabulary;
      maxPatchId := minPatchId;
      additions, deletions, reduced := map[], map[], map[];
      counters := seq(FIELDS, _ => map[]);
      tempCountAdditions, countAdditions := map[], map[];
      this.universe := universe;
      this.snapshot := snapshot;
      history, misranked, ranked, added, ever := [], {}, [], [], [];
    }

    // ----- ingestion

    /** `append_unsafe`: merges the patch with the two trees. */
    method AppendUnsafe(patch: seq<PatchElement>, patchId: int)
      requires Valid() && patchId == minPatchId + |history| < MAX
      requires PatchSorted(patch) && forall i :: 0 <= i < |patch| ==> patch[i].key in universe
      modifies this
      ensures history == old(history) + [ApplyPatch(Latest(snapshot, old(history)), patch)]
      ensures forall k :: KeyStep(old(State().EntryOf(k)), k in snapshot, Sign(patch, k), patchId, State().EntryOf(k))
      ensures Valid() <==>
              forall k :: Admissible(old(State()).EntryOf(k), Sign(patch, k), k in Latest(snapshot, old(history)))
      ensures misranked == RemarkedRanks(old(misranked), old(State()), snapshot, patch, patchId, vocabulary,
                                         history[|history| - 1])
      ensures Valid() ==> exists skipped ::
                CountsStored(old(countAdditions), countAdditions, skipped, snapshot, history, patchId, vocabulary)
    {
      hide ReducedOk, AtFrontier, KeyDone, AllReady, CountersOk, AdditionCountsOk, PatchSorted, ChainOk, KeyStep,
           CountsStored,
           Admissible, RemarkedRanks, ApplyPatch, Stale, TempCountsTrue, Flushed, Sign, Dictionary, Below, First,
           Running, Counting, Remaining;
      var p: nat := 0;
      var d, a, patchTriple, additionValue, deletionValue;
      ghost var f;
      d, a, patchTriple, f, additionValue, deletionValue := Begin(patch, patchId);
      ghost var t0 := State();
      while p < |patch| || d.Some? || a.Some?
        invariant p <= |patch|
        invariant Running(t0, patch, patchId, f, p, d, a, patchTriple, additionValue, deletionValue)
        invariant Unshared(additionValue, deletionValue)
        invariant history == old(history) && misranked == old(misranked) && maxPatchId == old(maxPatchId)
        invariant countAdditions == old(countAdditions)
        decreases Remaining(universe, f)
      {
        ghost var k;
        k, p, d, a, patchTriple := Step(t0, patch, patchId, f, p, d, a, patchTriple, additionValue, deletionValue);
        Fewer(universe, f, k);
        f := k;
      }
      Ended(t0, patch, patchId, f, patchTriple, additionValue, deletionValue);
      ghost var skipped := Finish(t0, patch, patchId, f);
    }

    /** The cursors on the first keys, the buffers empty, the counters cleared. */
    method Begin(patch: seq<PatchElement>, patchId: int)
      returns (d: Option<Key>, a: Option<Key>, patchTriple: Triple, ghost f: Key,
               additionValue: AdditionValue, deletionValue: DeletionValue)
      requires Valid() && patchId == minPatchId + |history| < MAX
      requires forall i :: 0 <= i < |patch| ==> patch[i].key in universe
      modifies `counters
      ensures Running(State(), patch, patchId, f, 0, d, a, patchTriple, additionValue, deletionValue)
      ensures AllReady(State(), snapshot, patchId)
      ensures Unshared(additionValue, deletionValue)
    {
      hide ReducedOk, AllReady, CountersOk, AdditionCountsOk, ChainOk, Dictionary, Below, First, Running;
      deletionValue := new DeletionValue(maxPatchId);
      additionValue := new AdditionValue(maxPatchId);
      ClearTempInsertionTrees(patchId);
      ChainReady(State(), countAdditions, snapshot, history, minPatchId, vocabulary, misranked);
      d, a := First(deletions.Keys), First(additions.Keys);
      patchTriple := if |patch| > 0 then vocabulary(patch[0].key) else Triple(0, 0, 0);
      f := Below(universe);
      Started(patch, patchId, f, d, a, patchTriple, additionValue, deletionValue);
    }

    lemma Started(patch: seq<PatchElement>, v: int, f: Key, d: Option<Key>, a: Option<Key>,
                  patchTriple: Triple, additionValue: AdditionValue, deletionValue: DeletionValue)
      requires AllReady(State(), snapshot, v) && ranked == [] && added == [] && ever == [] && Counting(v)
      requires f == Below(universe) && forall i :: 0 <= i < |patch| ==> patch[i].key in universe
      requires additions.Keys <= universe && deletions.Keys <= universe
      requires d == First(deletions.Keys) && a == First(additions.Keys)
      requires patchTriple == HeadTriple(patch, vocabulary, 0)
      requires Separate(additionValue, deletionValue) && v <= additionValue.maxPatchId <= v + 1
      requires deletions != map[] ==> deletionValue.maxPatchId == v
      ensures Running(State(), patch, v, f, 0, d, a, patchTriple, additionValue, deletionValue)
    {
      hide AllReady, Counting, AtFrontier, Below, First;
      StartsAtFrontier(State(), snapshot, patch, v, vocabulary, f, d, a);
    }

    /** What holds before every turn of the ingestion loop. */
    ghost predicate Running(t0: Trees, patch: seq<PatchElement>, v: int, f: Key, p: nat, d: Option<Key>, a: Option<Key>,
                            patchTriple: Triple, additionValue: AdditionValue, deletionValue: DeletionValue)
      reads this
      reads additionValue, additionValue.patches, additionValue.localChanges
      reads deletionValue, deletionValue.patches, deletionValue.localChanges, deletionValue.patchPositions
    {
      && AtFrontier(t0, State(), snapshot, patch, v, vocabulary, f, p, d, a)
      && p <= |patch| && (p < |patch| ==> f < patch[p].key) && patchTriple == HeadTriple(patch, vocabulary, p)
      && (d.Some? ==> f < d.value && d.value in universe && deletionValue.maxPatchId == v)
      && (a.Some? ==> f < a.value && a.value in universe)
      && additions.Keys <= universe && deletions.Keys <= universe
      && Counting(v) && Separate(additionValue, deletionValue) && v <= additionValue.maxPatchId <= v + 1
    }

    method Step(ghost t0: Trees, patch: seq<PatchElement>, v: int, ghost f: Key, p: nat, d: Option<Key>, a: Option<Key>,
                patchTriple: Triple, additionValue: AdditionValue, deletionValue: DeletionValue)
      returns (ghost k: Key, p': nat, d': Option<Key>, a': Option<Key>, patchTriple': Triple)
      requires 0 < v < MAX && AllReady(t0, snapshot, v) && Dictionary(universe, vocabulary)
      requires PatchSorted(patch) && forall i :: 0 <= i < |patch| ==> patch[i].key in universe
      requires Running(t0, patch, v, f, p, d, a, patchTriple, additionValue, deletionValue)
      requires p < |patch| || d.Some? || a.Some?
      modifies `additions, `deletions, `reduced, `counters, `ranked, `tempCountAdditions, `added, `ever
      modifies additionValue`maxPatchId, additionValue.patches, additionValue.localChanges
      modifies deletionValue.patches, deletionValue.localChanges, deletionValue.patchPositions
      ensures f < k && k in universe && p' <= |patch|
      ensures Running(t0, patch, v, k, p', d', a', patchTriple', additionValue, deletionValue)
    {
      hide ReducedOk, AtFrontier, KeyDone, AllReady, CountersOk, AdditionCountsOk, Stale, Sign, IsReal, Above,
           Ceiling, HeadTriple, CountedFor;
      ghost var t := State();
      ghost var arg;
      var stepPatch, stepDeletions, stepAdditions;
      if p < |patch| { NextHead(patch, vocabulary, p); }
      k, arg, stepPatch, stepDeletions, stepAdditions :=
        Turn(t0, patch, v, f, p, d, a, patchTriple, additionValue, deletionValue);
      p', d', a', patchTriple' := p, d, a, patchTriple;
      if stepPatch {
        p' := p + 1;
        if p' < |patch| {
          patchTriple' := vocabulary(patch[p'].key);
        }
      }
      if stepDeletions {
        d' := Ceiling(deletions.Keys, d.value + 1);
      }
      if stepAdditions {
        a' := Ceiling(additions.Keys, a.value + 1);
      }
      KeysGrow(t, State(), k, k in snapshot, Sign(patch, k), v, arg);
      TurnDone(t0, t, State(), snapshot, patch, v, vocabulary, arg, f, p, d, a, k, p', d', a');
    }

    lemma Ended(t0: Trees, patch: seq<PatchElement>, v: int, f: Key, patchTriple: Triple,
                additionValue: AdditionValue, deletionValue: DeletionValue)
      requires Running(t0, patch, v, f, |patch|, None, None, patchTriple, additionValue, deletionValue)
      ensures AtFrontier(t0, State(), snapshot, patch, v, vocabulary, f, |patch|, None, None)
      ensures TempCountsTrue(tempCountAdditions, added, ever, v, vocabulary) && |counters| == FIELDS
      ensures additions.Keys <= universe && deletions.Keys <= universe && ReducedOk()
      ensures forall k :: KeyStep(t0.EntryOf(k), k in snapshot, Sign(patch, k), v, State().EntryOf(k))
    {
      hide AtFrontier, TempCountsTrue, KeyStep, Sign;
      RunKeySteps(t0, State(), snapshot, patch, v, vocabulary, f);
    }

    /** The end of `append_unsafe`, when all three streams have ended. */
    method Finish(ghost t0: Trees, ghost patch: seq<PatchElement>, patchId: int, ghost f: Key)
      returns (ghost skipped: set<(int, Triple)>)
      requires 0 < minPatchId && patchId == minPatchId + |history| < MAX
      requires maxPatchId == (if history == [] then minPatchId else minPatchId + |history| - 1)
      requires Dictionary(universe, vocabulary) && ReducedOk()
      requires snapshot <= universe && additions.Keys <= universe && deletions.Keys <= universe
      requires ChainOk(t0, countAdditions, snapshot, history, minPatchId, vocabulary, misranked)
      requires PatchSorted(patch) &&
               AtFrontier(t0, State(), snapshot, patch, patchId, vocabulary, f, |patch|, None, None)
      requires TempCountsTrue(tempCountAdditions, added, ever, patchId, vocabulary)
      modifies `maxPatchId, `countAdditions, `tempCountAdditions, `misranked, `history, `ranked, `added, `ever
      ensures history == old(history) + [ApplyPatch(Latest(snapshot, old(history)), patch)]
      ensures Valid() <==> forall k :: Admissible(t0.EntryOf(k), Sign(patch, k), k in Latest(snapshot, old(history)))
      ensures misranked == RemarkedRanks(old(misranked), t0, snapshot, patch, patchId, vocabulary,
                                         history[|history| - 1])
      ensures Valid() ==>
                CountsStored(old(countAdditions), countAdditions, skipped, snapshot, history, patchId, vocabulary)
    {
      ghost var t, temp := State(), tempCountAdditions;
      hide ReducedOk, AtFrontier, TempCountsTrue, PatchSorted, ChainOk, Admissible, RemarkedRanks, ApplyPatch,
           Flushed, Sign, Dictionary, CountsStored, Latest, Valid, Trees.EntryOf;
      skipped := FlushAdditionCounts();
      if patchId > maxPatchId {
        maxPatchId := patchId;
      }
      ghost var next := ApplyPatch(Latest(snapshot, history), patch);
      ChainStep(t0, t, old(countAdditions), temp, countAdditions, skipped, snapshot, history, minPatchId,
                vocabulary, misranked, patch, next, f);
      misranked := RemarkedRanks(misranked, t0, snapshot, patch, patchId, vocabulary, next);
      history := history + [next];
      ranked, added, ever := [], [], [];
      ValidIff(t);
    }

    /** Once the logs are cleared, what is left of the invariant is the meaning of the nodes. */
    lemma ValidIff(t: Trees)
      requires t.additions == additions && t.deletions == deletions
      requires 0 < minPatchId && minPatchId + |history| <= MAX
      requires maxPatchId == (if history == [] then minPatchId else minPatchId + |history| - 1)
      requires tempCountAdditions == map[] && ranked == [] && added == [] && ever == []
      requires Dictionary(universe, vocabulary) && ReducedOk()
      requires snapshot <= universe && additions.Keys <= universe && deletions.Keys <= universe
      ensures Valid() <==>
              ChainOk(t, countAdditions, snapshot, history, minPatchId, vocabulary, misranked)
    {
      hide ReducedOk, Dictionary, ChainOk;
      LogsDoNotMatter(t, State(), countAdditions, snapshot, history, minPatchId, vocabulary, misranked);
    }

    method ClearTempInsertionTrees(ghost v: int)
      requires tempCountAdditions == map[] && ranked == [] && added == [] && ever == [] && ReducedOk()
      modifies `counters
      ensures Counting(v)
    {
      counters := seq(FIELDS, _ => map[]);
    }

    /** Moves the counts of 100 and more to the permanent table, in whatever order the table is walked. The walk steps
        off the first record before it reads one. */
    method FlushAdditionCounts() returns (ghost skipped: set<(int, Triple)>)
      modifies `countAdditions, `tempCountAdditions
      ensures tempCountAdditions == map[]
      ensures Flushed(old(countAdditions), old(tempCountAdditions), countAdditions, skipped)
    {
      var records := tempCountAdditions.Keys;
      skipped := {};
      if records != {} {
        var first :| first in records;
        records := records - {first};
        skipped := {first};
      }
      while records != {}
        invariant records <= tempCountAdditions.Keys && tempCountAdditions == old(tempCountAdditions)
        invariant skipped <= tempCountAdditions.Keys && |skipped| == (if tempCountAdditions == map[] then 0 else 1)
        invariant forall key :: Rewritten(old(countAdditions), countAdditions, key, Lookup(tempCountAdditions, key),
                                          key !in skipped && key !in records)
        invariant records !! skipped
      {
        var key :| key in records;
        records := records - {key};
        var count := tempCountAdditions[key];
        if count >= MIN_ADDITION_COUNT {
          countAdditions := countAdditions[key := count];
        }
      }
      tempCountAdditions := map[];
    }

    // ----- counters

    method ContainsAndIncrementPosition(f: nat, hash: nat) returns (pos: nat)
      requires f < |counters|
      modifies `counters
      ensures pos == Lookup(old(counters)[f], hash)
      ensures counters == old(counters)[f := Set(old(counters)[f], hash, pos + 1)]
    {
      pos := Lookup(counters[f], hash);
      counters := counters[f := Set(counters[f], hash, pos + 1)];
    }

    /** `Patch::positions`: reads and increments the triple's counter of each of the seven patterns. */
    method IncrementPositions(triple: Triple) returns (positions: PatchPositions)
      requires |counters| == FIELDS
      modifies `counters
      ensures |counters| == FIELDS
      ensures forall g :: 0 <= g < FIELDS ==> positions[g] == Lookup(old(counters)[g], Hashes(triple)[g])
      ensures forall g :: 0 <= g < FIELDS ==>
                counters[g] == Set(old(counters)[g], Hashes(triple)[g], Lookup(old(counters)[g], Hashes(triple)[g]) + 1)
    {
      var hashes := Hashes(triple);
      positions := UNSET;
      var f := 0;
      while f < FIELDS
        invariant 0 <= f <= FIELDS && |counters| == FIELDS
        invariant forall g :: f <= g < FIELDS ==> counters[g] == old(counters)[g]
        invariant forall g :: 0 <= g < f ==> positions[g] == Lookup(old(counters)[g], hashes[g])
        invariant forall g :: 0 <= g < f ==>
                    counters[g] == Set(old(counters)[g], hashes[g], Lookup(old(counters)[g], hashes[g]) + 1)
      {
        var pos := ContainsAndIncrementPosition(f, hashes[f]);
        positions := positions[f := pos];
        f := f + 1;
      }
    }

    /** The rank of the triple among those counted so far, for each of the seven patterns. */
    method TakeRanks(ghost owner: Key, triple: Triple) returns (positions: PatchPositions)
      requires CountersOk()
      modifies `counters, `ranked
      ensures CountersOk()
      ensures ranked == old(ranked) + [Counted(owner, triple)]
      ensures positions == RanksFor(old(ranked), triple)
    {
      ghost var before := ranked;
      positions := IncrementPositions(triple);
      assert forall g :: 0 <= g < FIELDS ==> positions[g] == Tally(before, g, Hashes(triple)[g]);
      RanksForAll(before, triple, positions);
      ranked := before + [Counted(owner, triple)];
      forall f, h | 0 <= f < FIELDS ensures Lookup(counters[f], h) == Tally(ranked, f, h) {
        TallyExtended(before, Counted(owner, triple));
        assert Lookup(old(counters)[f], h) == Tally(before, f, h);
      }
    }

    /** The ranks of a deletion: none for a local change. */
    method RanksUnless(localChange: bool, ghost owner: Key, triple: Triple) returns (positions: PatchPositions)
      requires CountersOk()
      modifies `counters, `ranked
      ensures CountersOk()
      ensures ranked == if localChange then old(ranked) else old(ranked) + [Counted(owner, triple)]
      ensures positions == if localChange then UNSET else RanksFor(old(ranked), triple)
    {
      if localChange {
        positions := UNSET;
      } else {
        positions := TakeRanks(owner, triple);
      }
    }

    method IncrementAdditionCounts(patchId: int, ghost key: Key, ghost v: int, triple: Triple)
      requires AdditionCountsOk(v) && IsReal(triple) && triple == vocabulary(key)
      requires 0 < v && (patchId == v || patchId == 0)
      modifies `tempCountAdditions, `added, `ever
      ensures AdditionCountsOk(v)
      ensures added == if patchId == v then old(added) + [key] else old(added)
      ensures ever == if patchId == 0 then old(ever) + [key] else old(ever)
    {
      hide Matches, FieldOf, FieldPattern, CountMatching, IsReal;
      ghost var before := tempCountAdditions;
      var f := 0;
      while f < FIELDS
        invariant 0 <= f <= FIELDS && added == old(added) && ever == old(ever)
        invariant forall key :: key in tempCountAdditions ==>
                    (key.0 == v || key.0 == 0) && FieldOf(key.1) >= 0 && tempCountAdditions[key] > 0
        invariant forall u, pattern :: FieldOf(pattern) >= 0 ==>
                    Lookup(tempCountAdditions, (u, pattern)) == Lookup(before, (u, pattern)) +
                      if patchId == u && FieldOf(pattern) < f && Matches(triple, pattern) then 1 else 0
      {
        FieldMatch(f, triple);
        var key := (patchId, FieldPattern(f, triple));
        tempCountAdditions := tempCountAdditions[key := Lookup(tempCountAdditions, key) + 1];
        f := f + 1;
      }
      FieldsAll();
      CountOneMore(added, key, vocabulary);
      CountOneMore(ever, key, vocabulary);
      if patchId == v {
        added := added + [key];
      } else {
        ever := ever + [key];
      }
    }

    // ----- the triple store

    method InsertAdditionSingle(k: Key, patchId: int, localChange: bool)
      requires 0 < patchId < MAX && k !in additions
      requires AdditionCountsOk(patchId) && IsReal(vocabulary(k))
      modifies `additions, `tempCountAdditions, `added, `ever
      ensures AdditionCountsOk(patchId)
      ensures k in additions && additions == old(additions)[k := additions[k]]
      ensures OpenedAt([], patchId, additions[k].patches)
      ensures additions[k].localChanges == if localChange then additions[k].patches else []
      ensures added == (if localChange then old(added) else old(added) + [k]) && ever == old(ever)
    {
      var value := new AdditionValue(patchId);
      var c := value.Add(patchId);
      AddedToNothing(patchId, value.patches.intervals);
      if localChange {
        c := value.SetLocalChange(patchId);
        AddedToNothing(patchId, value.localChanges.intervals);
        Canonical(value.localChanges.intervals, value.patches.intervals);
      }
      var data := value.Store();
      additions := additions[k := data];
      if !localChange {
        IncrementAdditionCounts(patchId, k, patchId, vocabulary(k));
      }
    }

    method InsertDeletionSingle(k: Key, positions: PatchPositions, patchId: int, localChange: bool)
      requires 0 < patchId < MAX && k !in deletions && ReducedOk()
      modifies `deletions, `reduced
      ensures ReducedOk() && k in deletions && deletions == old(deletions)[k := deletions[k]]
      ensures OpenedAt([], patchId, deletions[k].patches)
      ensures deletions[k].localChanges == if localChange then deletions[k].patches else []
      ensures RankedAt([], patchId, positions, deletions[k].positions)
    {
      var value := new DeletionValue(patchId);
      var c := value.Add(DeletionElement(patchId, localChange, positions));
      AddedToNothing(patchId, value.patches.intervals);
      if localChange {
        AddedToNothing(patchId, value.localChanges.intervals);
        Canonical(value.localChanges.intervals, value.patches.intervals);
      }
      NewSeen(patchId, value.patches.intervals);
      StoreDeletion(k, value);
    }

    /** `insertDeletionSingle`: the value goes to the SPO tree, its reduced form to the trees in the other orders. */
    method StoreDeletion(k: Key, value: DeletionValue)
      requires value.Valid() && Readable(value.Data()) && value.maxPatchId <= MAX && ReducedOk()
      requires SizeSeen(value.Data(), value.maxPatchId) > 0 && value.patches.intervals != []
      requires value.localChanges.intervals == [] || value.localChanges.intervals == value.patches.intervals
      modifies `deletions, `reduced
      ensures ReducedOk() && deletions == old(deletions)[k := value.Data()]
    {
      hide Readable, Ids, Overrun;
      var less := value.ToReduced();
      var data := value.Store();
      deletions := deletions[k := data];
      reduced := reduced[k := less];
    }

    // ----- one triple

    /** Stores the ranks for version `v`, unless the value has that version with those ranks. */
    method AddIfNews(k: Key, v: int, value: DeletionValue, positions: PatchPositions)
      requires k in deletions && deletions[k] == value.Data()
      requires value.Valid() && Readable(value.Data()) && 0 < value.maxPatchId <= MAX && v < MAX
      requires value.patches.Reaches(v) && value.localChanges.Reaches(v) && value.patchPositions.Reaches(v)
      requires value.patchPositions.positionVec != []
      requires value.patchPositions.positionVec[|value.patchPositions.positionVec| - 1].patchId <= v
      requires In(value.patches.intervals, v) && value.localChanges.intervals == [] && value.patches.intervals != []
      requires SizeSeen(value.Data(), value.maxPatchId) > 0 && ReducedOk()
      modifies `deletions, `reduced, value.patches, value.localChanges, value.patchPositions
      ensures value.Valid() && ReducedOk()
      ensures deletions == old(deletions)[k := value.Data()]
      ensures value.patches.intervals == old(value.patches.intervals)
      ensures value.localChanges.intervals == old(value.localChanges.intervals)
      ensures RankedAt(old(value.patchPositions.positionVec), v, positions, value.patchPositions.positionVec)
    {
      hide Stored, RanksAt, Ids, Added, In, Overrun, InOrder, WellFormed, ReducedOk, Readable;
      var index := value.GetPatchvalueIndex(v);
      var isNews := true;
      if index >= 0 {
        var present := value.GetPatchAt(index);
        isNews := present.positions != positions;
      }
      if isNews {
        var hasChanged := value.Add(DeletionElement(v, false, positions));
        if hasChanged {
          StillReadable(old(value.Data()), value.Data());
          StoreDeletion(k, value);
        }
      } else {
        StoredAlready(value.patchPositions.positionVec, v);
      }
    }

    /** Adds version `v` to an addition value and writes it back when that changed it. */
    method AddVersion(k: Key, v: int, value: AdditionValue)
      requires k in additions && additions[k] == value.Data()
      requires value.Valid() && value.patches.Reaches(v) && v < MAX
      modifies `additions, value`maxPatchId, value.patches
      ensures value.Valid() && additions == old(additions)[k := value.Data()]
      ensures value.localChanges.intervals == old(value.localChanges.intervals)
      ensures Added(old(value.patches.intervals), MAX, v, value.patches.intervals)
      ensures old(In(value.patches.intervals, v)) ==> value.patches.intervals == old(value.patches.intervals)
      ensures value.maxPatchId == if v >= old(value.maxPatchId) then v + 1 else old(value.maxPatchId)
    {
      var hasChanged := value.Add(v);
      if hasChanged {
        var data := value.Store();
        additions := additions[k := data];
      }
    }

    /** D < P and D < A: the deletion is carried over, with the ranks it has in this version. */
    method CarryDeletion(k: Key, v: int, value: DeletionValue)
      requires Ready(k, v) && k in deletions && k !in additions
      requires value.Valid() && value.maxPatchId == v
      modifies `deletions, `reduced, `counters, `ranked, value.patches, value.localChanges, value.patchPositions
      ensures Counting(v) && value.Valid()
      ensures KeyDone(old(State()), k, k in snapshot, None, v, vocabulary(k), State())
    {
      hide CountersOk, AdditionCountsOk, ReducedOk, Stored, RanksAt, RankedAt, Ids, In, Overrun, PlaceOf, KeyDone,
           Tally, RanksFor, Added, Steady, EntryOk, RanksOk, InOrder, WellFormed;
      ghost var t := State();
      DeletionInForce(t, k, k in snapshot, v);
      value.Load(deletions[k]);
      var first := value.GetPatchAt(0);
      if first.patchId <= v {
        var isLocalChange := value.IsLocalChange(v);
        var positions := RanksUnless(isLocalChange, k, vocabulary(k));
        AddIfNews(k, v, value, positions);
        CarryDeletionDone(t, State(), k, k in snapshot, None, v, vocabulary(k), value.Data());
      }
    }

    /** A < P and A < D: the addition is carried over. */
    method CarryAddition(k: Key, v: int, value: AdditionValue)
      requires Ready(k, v) && k in additions && k !in deletions && IsReal(vocabulary(k))
      requires value.Valid() && v <= value.maxPatchId <= v + 1
      modifies `additions, `tempCountAdditions, `added, `ever, value`maxPatchId, value.patches, value.localChanges
      ensures Counting(v) && value.Valid() && v <= value.maxPatchId <= v + 1
      ensures KeyDone(old(State()), k, k in snapshot, None, v, vocabulary(k), State())
    {
      hide ReducedOk, Ids, In, Overrun, PlaceOf, KeyDone, Tally, Added, Steady, CountMatching, RanksOk, EntryOk,
           WellFormed;
      ghost var t := State();
      AdditionInForce(t, k, k in snapshot, v, value.maxPatchId);
      value.Load(additions[k]);
      var first := value.GetPatchIdAt(0);
      var isPatchId := value.IsPatchId(v);
      if first <= v && !isPatchId {
        AddVersion(k, v, value);
      }
      assert additions == t.additions;
      CountInForce(k, v, value);
      CountEver(k, v, value);
      CarryAdditionDone(t, State(), k, k in snapshot, None, v, vocabulary(k));
    }

    /** P < A and P < D: a triple that no earlier patch of the chain mentioned. */
    method InsertNew(k: Key, isAddition: bool, v: int)
      requires Ready(k, v) && k !in additions && k !in deletions && IsReal(vocabulary(k))
      modifies `additions, `deletions, `reduced, `counters, `ranked, `tempCountAdditions, `added, `ever
      ensures Counting(v)
      ensures KeyDone(old(State()), k, k in snapshot, Some(isAddition), v, vocabulary(k), State())
    {
      hide ReducedOk, KeyDone, NodeReady, CountMatching, Tally, RanksFor, RankedAt, WellFormed, In, OpenedAt;
      ghost var t := State();
      if isAddition {
        InsertAdditionSingle(k, v, false);
        IncrementAdditionCounts(0, k, v, vocabulary(k));
        NewAdditionDone(t, State(), k, k in snapshot, v, vocabulary(k));
      } else {
        var positions := TakeRanks(k, vocabulary(k));
        InsertDeletionSingle(k, positions, v, false);
        NewDeletionDone(t, State(), k, k in snapshot, v, vocabulary(k));
      }
    }

    /** P = D and P < A: an addition takes the deletion back, a deletion carries it over. */
    method AtDeletion(k: Key, isAddition: bool, v: int, value: DeletionValue)
      requires Ready(k, v) && k in deletions && k !in additions && IsReal(vocabulary(k))
      requires value.Valid() && value.maxPatchId == v
      modifies `additions, `deletions, `reduced, `counters, `ranked, `tempCountAdditions, `added, `ever
      modifies value.patches, value.localChanges, value.patchPositions
      ensures Counting(v) && value.Valid()
      ensures KeyDone(old(State()), k, k in snapshot, Some(isAddition), v, vocabulary(k), State())
    {
      hide ReducedOk, KeyDone, NodeReady, CountersOk, AdditionCountsOk, WellFormed, InOrder;
      if isAddition {
        TakeDeletionBack(k, v, value);
      } else {
        KeepDeletion(k, v, value);
      }
    }

    method TakeDeletionBack(k: Key, v: int, value: DeletionValue)
      requires Ready(k, v) && k in deletions && k !in additions && IsReal(vocabulary(k))
      requires value.Valid() && value.maxPatchId == v
      modifies `additions, `deletions, `reduced, `tempCountAdditions, `added, `ever
      modifies value.patches, value.localChanges, value.patchPositions
      ensures Counting(v) && value.Valid()
      ensures KeyDone(old(State()), k, k in snapshot, Some(true), v, vocabulary(k), State())
    {
      hide CountersOk, AdditionCountsOk, ReducedOk, Stored, RanksAt, RankedAt, Ids, In, Overrun, PlaceOf, KeyDone,
           Tally, RanksFor, Added, Deleted, EntryOk, RanksOk, CountMatching, InOrder, WellFormed;
      ghost var t := State();
      DeletionInForce(t, k, k in snapshot, v);
      value.Load(deletions[k]);
      DropDeletion(k, v, value);
      InsertAdditionSingle(k, v, true);
      RevertDeletionDone(t, State(), k, k in snapshot, v, vocabulary(k), additions[k], value.Data());
    }

    method KeepDeletion(k: Key, v: int, value: DeletionValue)
      requires Ready(k, v) && k in deletions && k !in additions
      requires value.Valid() && value.maxPatchId == v
      modifies `deletions, `reduced, `counters, `ranked
      modifies value.patches, value.localChanges, value.patchPositions
      ensures Counting(v) && value.Valid()
      ensures KeyDone(old(State()), k, k in snapshot, Some(false), v, vocabulary(k), State())
    {
      hide CountersOk, AdditionCountsOk, ReducedOk, Stored, RanksAt, RankedAt, Ids, In, Overrun, PlaceOf, KeyDone,
           Tally, RanksFor, Added, Steady, EntryOk, RanksOk, InOrder, WellFormed;
      ghost var t := State();
      DeletionInForce(t, k, k in snapshot, v);
      value.Load(deletions[k]);
      var wasLocalChange := value.IsLocalChange(v);
      var positions := RanksUnless(wasLocalChange, k, vocabulary(k));
      AddDeletion(k, DeletionElement(v, wasLocalChange, positions), value);
      CarryDeletionDone(t, State(), k, k in snapshot, Some(false), v, vocabulary(k), value.Data());
    }

    /** Adds an element to a deletion value and writes it back when that changed it. */
    method AddDeletion(k: Key, element: DeletionElement, value: DeletionValue)
      requires k in deletions && deletions[k] == value.Data()
      requires value.Valid() && 0 < element.patchId < MAX && value.maxPatchId == element.patchId && ReducedOk()
      requires Readable(value.Data()) && Steady(value.patches.intervals, element.patchId - 1)
      requires value.patches.intervals != [] && value.patches.intervals[0].start < element.patchId
      requires value.localChanges.intervals == if element.localChange then value.patches.intervals else []
      requires value.patches.Reaches(element.patchId) && value.localChanges.Reaches(element.patchId)
      requires value.patchPositions.Reaches(element.patchId) && value.patchPositions.positionVec != []
      requires value.patchPositions.positionVec[|value.patchPositions.positionVec| - 1].patchId <= element.patchId
      modifies `deletions, `reduced, value.patches, value.localChanges, value.patchPositions
      ensures value.Valid() && ReducedOk() && deletions == old(deletions)[k := value.Data()]
      ensures Added(old(value.patches.intervals), MAX, element.patchId, value.patches.intervals)
      ensures old(In(value.patches.intervals, element.patchId)) ==>
                value.patches.intervals == old(value.patches.intervals)
      ensures if element.localChange
              then Added(old(value.localChanges.intervals), MAX, element.patchId, value.localChanges.intervals)
              else value.localChanges.intervals == old(value.localChanges.intervals)
      ensures RankedAt(old(value.patchPositions.positionVec), element.patchId, element.positions,
                       value.patchPositions.positionVec)
    {
      hide Stored, RanksAt, Ids, Added, In, Overrun, InOrder, WellFormed, ReducedOk, Readable, Steady, OpenedAt;
      ghost var was := value.Data();
      var hasChanged := value.Add(element);
      if hasChanged {
        FlaggedRuns(was.patches, was.localChanges, element.localChange, element.patchId,
                    value.patches.intervals, value.localChanges.intervals);
        OpenedSeen(was.patches, element.patchId, value.patches.intervals);
        StillReadable(was, value.Data());
        StoreDeletion(k, value);
      }
    }

    /** Takes version `v` and all later ones out of a deletion value. */
    method DropDeletion(k: Key, v: int, value: DeletionValue)
      requires k in deletions && deletions[k] == value.Data() && value.Valid() && 0 < v < MAX
      requires value.maxPatchId == v && Readable(value.Data()) && ReducedOk() && value.patchPositions.positionVec != []
      requires value.patches.intervals != [] && value.patches.intervals[0].start < v
      requires Steady(value.patches.intervals, v - 1) && value.patches.Reaches(v)
      requires value.localChanges.intervals == [] || value.localChanges.intervals == value.patches.intervals
      modifies `deletions, `reduced, value.patches, value.localChanges
      ensures value.Valid() && ReducedOk() && deletions == old(deletions)[k := value.Data()]
      ensures ClosedAt(old(value.patches.intervals), v, value.patches.intervals)
      ensures value.localChanges.intervals ==
              if old(value.localChanges.intervals) == [] then [] else value.patches.intervals
      ensures value.patchPositions.positionVec == old(value.patchPositions.positionVec)
      ensures !old(In(value.patches.intervals, v)) ==> value.Data() == old(value.Data())
    {
      hide Steady, Ids, Overrun, InOrder, In, ReducedOk, Readable, WellFormed, ClosedAt;
      ghost var was := value.Data();
      ghost var runs, flags := value.patches.intervals, value.localChanges.intervals;
      var hasChanged := value.Del(v);
      DroppedFrom(runs, flags, v, value.patches.intervals, value.localChanges.intervals);
      if hasChanged {
        ClosedSeen(runs, v, value.patches.intervals);
        StillReadable(was, value.Data());
        StoreDeletion(k, value);
      }
    }

    /** Takes version `v` and all later ones out of an addition value; the flag is cleared unasked, or only if set. */
    method DropAddition(k: Key, v: int, onlyIfSet: bool, value: AdditionValue)
      requires k in additions && additions[k] == value.Data() && value.Valid() && v < MAX
      requires Steady(value.patches.intervals, v - 1) && value.patches.Reaches(v)
      requires value.localChanges.intervals == [] || value.localChanges.intervals == value.patches.intervals
      modifies `additions, value`maxPatchId, value.patches, value.localChanges
      ensures value.Valid() && additions == old(additions)[k := value.Data()]
      ensures ClosedAt(old(value.patches.intervals), v, value.patches.intervals)
      ensures value.localChanges.intervals ==
              if old(value.localChanges.intervals) == [] then [] else value.patches.intervals
      ensures value.maxPatchId == if v >= old(value.maxPatchId) then v + 1 else old(value.maxPatchId)
      ensures !old(In(value.patches.intervals, v)) ==> value.Data() == old(value.Data())
    {
      hide Steady, Ids, Overrun, In;
      ghost var runs, flags := value.patches.intervals, value.localChanges.intervals;
      var hasChanged := value.Del(v);
      var unset := true;
      if onlyIfSet {
        unset := value.IsLocalChange(v);
      }
      if unset {
        var l := value.UnsetLocalChange(v);
        hasChanged := hasChanged || l;
      }
      if hasChanged {
        var data := value.Store();
        additions := additions[k := data];
      }
      DroppedFrom(runs, flags, v, value.patches.intervals, value.localChanges.intervals);
    }

    /** P = A and P < D: a deletion takes the addition back, an addition carries it over. */
    method AtAddition(k: Key, isAddition: bool, v: int, value: AdditionValue)
      requires Ready(k, v) && k in additions && k !in deletions && IsReal(vocabulary(k))
      requires value.Valid() && v <= value.maxPatchId <= v + 1
      modifies `additions, `deletions, `reduced, `tempCountAdditions, `added, `ever, value`maxPatchId, value.patches,
               value.localChanges
      ensures Counting(v) && value.Valid() && v <= value.maxPatchId <= v + 1
      ensures KeyDone(old(State()), k, k in snapshot, Some(isAddition), v, vocabulary(k), State())
    {
      hide ReducedOk, KeyDone, NodeReady, AdditionCountsOk, WellFormed, In;
      if !isAddition {
        TakeAdditionBack(k, v, value);
      } else {
        KeepAddition(k, v, value);
      }
      CountEver(k, v, value);
    }

    method TakeAdditionBack(k: Key, v: int, value: AdditionValue)
      requires Ready(k, v) && k in additions && k !in deletions && IsReal(vocabulary(k))
      requires value.Valid() && v <= value.maxPatchId <= v + 1
      modifies `additions, `deletions, `reduced, value`maxPatchId, value.patches, value.localChanges
      ensures Counting(v) && value.Valid() && v <= value.maxPatchId <= v + 1 &&
              FirstIsSeen(value.Data(), value.maxPatchId) && value.localChanges.intervals == []
      ensures KeyDone(old(State()), k, k in snapshot, Some(false), v, vocabulary(k), CountedEver(k))
    {
      hide CountersOk, AdditionCountsOk, ReducedOk, Stored, RanksAt, RankedAt, Ids, In, Overrun, PlaceOf, KeyDone,
           Tally, Added, Deleted, Steady, CountMatching, RanksOk, Increasing, InOrder;
      ghost var t := State();
      ghost var before := additions[k];
      value.Load(additions[k]);
      InForce(t.EntryOf(k), k in snapshot, v);
      DropAddition(k, v, false, value);
      ClosedStart(before.patches, v, value.patches.intervals);
      InsertDeletionSingle(k, UNSET, v, true);
      RevertAdditionDone(t, CountedEver(k), k, k in snapshot, v, vocabulary(k), value.Data(), deletions[k]);
    }

    method KeepAddition(k: Key, v: int, value: AdditionValue)
      requires Ready(k, v) && k in additions && k !in deletions && IsReal(vocabulary(k))
      requires value.Valid() && v <= value.maxPatchId <= v + 1
      modifies `additions, `tempCountAdditions, `added, `ever, value`maxPatchId, value.patches, value.localChanges
      ensures Counting(v) && value.Valid() && v <= value.maxPatchId <= v + 1 &&
              FirstIsSeen(value.Data(), value.maxPatchId) && value.localChanges.intervals == [] && ever == old(ever)
      ensures KeyDone(old(State()), k, k in snapshot, Some(true), v, vocabulary(k), CountedEver(k))
    {
      hide ReducedOk, Ids, In, Overrun, PlaceOf, KeyDone, Tally, Added, Steady, CountMatching, RanksOk, EntryOk,
           WellFormed;
      ghost var t := State();
      AdditionInForce(t, k, k in snapshot, v, value.maxPatchId);
      value.Load(additions[k]);
      AddVersion(k, v, value);
      assert additions == t.additions;
      CountInForce(k, v, value);
      CarryAdditionDone(t, CountedEver(k), k, k in snapshot, Some(true), v, vocabulary(k));
    }

    /** D = A: the side that is in force stays in force, or gives way to the other when the patch has the triple. */
    method AtBoth(k: Key, inPatch: bool, arg: Triple, ghost sign: Option<bool>, v: int,
                  additionValue: AdditionValue, deletionValue: DeletionValue)
      requires Ready(k, v) && k in additions && k in deletions && IsReal(vocabulary(k))
      requires inPatch <==> sign.Some?
      requires Separate(additionValue, deletionValue) && deletionValue.maxPatchId == v
      modifies `additions, `deletions, `reduced, `counters, `ranked, `tempCountAdditions, `added, `ever
      modifies additionValue`maxPatchId, additionValue.patches, additionValue.localChanges
      modifies deletionValue.patches, deletionValue.localChanges, deletionValue.patchPositions
      ensures Counting(v) && Separate(additionValue, deletionValue) && additionValue.maxPatchId == v + 1
      ensures KeyDone(old(State()), k, k in snapshot, sign, v, arg, State())
    {
      hide ReducedOk, KeyDone, EntryOk, RanksOk, CountersOk, AdditionCountsOk, WellFormed, InOrder, AddedNext;
      ghost var t := State();
      BothReady(State(), k, k in snapshot, v);
      deletionValue.Load(deletions[k]);
      additionValue.Load(additions[k]);
      var isLocalChange, addAddition, addDeletion := Decide(k, inPatch, sign, v, additionValue, deletionValue);
      CountEver(k, v, additionValue);
      ReadyAlike(t, State(), k, k in snapshot, v);
      if addAddition {
        ForceAddition(t, k, isLocalChange, sign, v, arg, additionValue, deletionValue);
      } else if addDeletion {
        ForceDeletion(t, k, isLocalChange, arg, sign, v, additionValue, deletionValue);
      }
    }

    /** One turn of the ingestion loop: handles the least of the three current triples, and says which of the three
        streams move on. */
    method Turn(ghost t0: Trees, patch: seq<PatchElement>, v: int, ghost f: Key, p: nat, d: Option<Key>, a: Option<Key>,
                patchTriple: Triple, additionValue: AdditionValue, deletionValue: DeletionValue)
      returns (ghost k: Key, ghost arg: Triple, stepPatch: bool, stepDeletions: bool, stepAdditions: bool)
      requires 0 < v < MAX && PatchSorted(patch) && AllReady(t0, snapshot, v) && Counting(v)
      requires AtFrontier(t0, State(), snapshot, patch, v, vocabulary, f, p, d, a)
      requires p <= |patch| && (p < |patch| || d.Some? || a.Some?)
      requires patchTriple == HeadTriple(patch, vocabulary, p) && (p < |patch| ==> IsReal(patchTriple))
      requires (d.Some? ==> IsReal(vocabulary(d.value))) && (a.Some? ==> IsReal(vocabulary(a.value)))
      requires Separate(additionValue, deletionValue)
      requires d.Some? ==> deletionValue.maxPatchId == v
      requires v <= additionValue.maxPatchId <= v + 1
      modifies `additions, `deletions, `reduced, `counters, `ranked, `tempCountAdditions, `added, `ever
      modifies additionValue`maxPatchId, additionValue.patches, additionValue.localChanges
      modifies deletionValue.patches, deletionValue.localChanges, deletionValue.patchPositions
      ensures Counting(v) && Separate(additionValue, deletionValue) && v <= additionValue.maxPatchId <= v + 1
      ensures IsLeast(k, patch, p, d, a)
      ensures stepPatch <==> p < |patch| && patch[p].key == k
      ensures (stepDeletions <==> d == Some(k)) && (stepAdditions <==> a == Some(k))
      ensures KeyDone(old(State()), k, k in snapshot, Sign(patch, k), v, arg, State())
      ensures arg == CountedFor(t0, patch, vocabulary)(k)
    {
      hide ReducedOk, AtFrontier, KeyDone, NodeReady, AllReady, CountersOk, AdditionCountsOk, PatchSorted, HeadTriple,
           HeadPlace;
      var patchEnded, deletionsEnded, additionsEnded := p == |patch|, d.None?, a.None?;
      var pLtD := !patchEnded && (deletionsEnded || patch[p].key < d.value);
      var pLtA := !patchEnded && (additionsEnded || patch[p].key < a.value);
      var pEqD := !patchEnded && !deletionsEnded && patch[p].key == d.value;
      var pEqA := !patchEnded && !additionsEnded && patch[p].key == a.value;
      var pGtD := !deletionsEnded && (patchEnded || patch[p].key > d.value);
      var pGtA := !additionsEnded && (patchEnded || patch[p].key > a.value);
      var dLtA := !deletionsEnded && (additionsEnded || d.value < a.value);
      var aLtD := !additionsEnded && (deletionsEnded || d.value > a.value);
      stepPatch, stepDeletions, stepAdditions := false, false, false;
      k := if pGtD && dLtA then d.value else if pGtA && aLtD then a.value
           else if !patchEnded && !pGtD then patch[p].key else d.value;
      arg := vocabulary(k);
      HeadReady(t0, State(), snapshot, patch, v, vocabulary, f, p, d, a, k);
      if p < |patch| { NextHead(patch, vocabulary, p); }
      if d == Some(k) && a == Some(k) {
        HeadCounted(t0, State(), snapshot, patch, v, vocabulary, f, p, d, a, k);
      }
      if pGtD && dLtA {
        stepDeletions := true;
        CarryDeletion(d.value, v, deletionValue);
      } else if pGtA && aLtD {
        stepAdditions := true;
        CarryAddition(a.value, v, additionValue);
      } else if pLtA && pLtD {
        stepPatch := true;
        InsertNew(patch[p].key, patch[p].isAddition, v);
      } else if pEqD && pLtA {
        stepPatch, stepDeletions := true, true;
        AtDeletion(d.value, patch[p].isAddition, v, deletionValue);
      } else if pEqA && pLtD {
        stepPatch, stepAdditions := true, true;
        AtAddition(a.value, patch[p].isAddition, v, additionValue);
      } else {
        stepPatch, stepDeletions, stepAdditions := !pGtD, true, true;
        arg := patchTriple;
        AtBoth(d.value, stepPatch, patchTriple, Sign(patch, k), v, additionValue, deletionValue);
      }
    }

    /** Which side is to be in force, and whether that is a local change. */
    method Decide(k: Key, inPatch: bool, ghost sign: Option<bool>, v: int,
                  additionValue: AdditionValue, deletionValue: DeletionValue)
      returns (isLocalChange: bool, addAddition: bool, addDeletion: bool)
      requires 0 < v < MAX && NodeReady(State(), k, k in snapshot, v) && k in additions && k in deletions
      requires inPatch <==> sign.Some?
      requires additionValue.Valid() && additionValue.Data() == additions[k]
      requires deletionValue.Valid() && deletionValue.Data() == deletions[k] && deletionValue.maxPatchId == v
      modifies additionValue`maxPatchId
      ensures additionValue.Valid() && additionValue.maxPatchId == v + 1
      ensures addAddition <==> AddedNext(State().EntryOf(k), sign, v)
      ensures addDeletion <==> !addAddition
      ensures isLocalChange <==> addAddition == (k in snapshot)
    {
      hide RanksAt, Ids, In, Overrun, PlaceOf, InOrder, WellFormed, EntryOk, RanksOk;
      BothReady(State(), k, k in snapshot, v);
      BothSides(State(), k, k in snapshot, v);
      additionValue.SetMaxPatchId(v);
      var additionSize := additionValue.GetSize();
      var largestAddition := additionValue.GetPatchIdAt(additionSize - 1);
      var deletionSize := deletionValue.GetSize();
      var last := deletionValue.GetPatchAt(deletionSize - 1);
      var largestDeletion := last.patchId;
      if largestAddition < largestDeletion {
        isLocalChange := deletionValue.IsLocalChange(v);
      } else {
        isLocalChange := additionValue.IsLocalChange(v);
      }
      addAddition := largestAddition > largestDeletion;
      addDeletion := largestDeletion > largestAddition;
      if inPatch {
        isLocalChange := !isLocalChange;
        addAddition := !addAddition;
        addDeletion := !addDeletion;
      }
      additionValue.SetMaxPatchId(v + 1);
    }

    /** Both values, once the triple is counted for all versions: the addition is in force. */
    method ForceAddition(ghost t: Trees, k: Key, isLocalChange: bool, ghost sign: Option<bool>, v: int,
                         ghost arg: Triple, additionValue: AdditionValue, deletionValue: DeletionValue)
      requires Ready(k, v) && k in additions && k in deletions && IsReal(vocabulary(k))
      requires t == State().(ever := t.ever) && ever == if k in snapshot then t.ever else t.ever + [k]
      requires AddedNext(State().EntryOf(k), sign, v) && (isLocalChange <==> k in snapshot)
      requires additionValue.Data() == additions[k] && additionValue.maxPatchId == v + 1
      requires Separate(additionValue, deletionValue) && deletionValue.Data() == deletions[k] &&
               deletionValue.maxPatchId == v
      modifies `additions, `deletions, `reduced, `tempCountAdditions, `added, `ever
      modifies additionValue`maxPatchId, additionValue.patches, additionValue.localChanges
      modifies deletionValue.patches, deletionValue.localChanges
      ensures Counting(v) && Separate(additionValue, deletionValue) && additionValue.maxPatchId == v + 1
      ensures KeyDone(t, k, k in snapshot, sign, v, arg, State())
    {
      hide CountersOk, AdditionCountsOk, ReducedOk, KeyDone, RanksOk, CountMatching, Tally, RanksAt, InOrder,
           WellFormed, In, EntryOk, AddedNext;
      ReadyAlike(t, State(), k, k in snapshot, v);
      BothReady(t, k, k in snapshot, v);
      BothUnchanged(t, k, k in snapshot, sign, v);
      AddFlagged(k, isLocalChange, v, additionValue);
      if !isLocalChange {
        IncrementAdditionCounts(v, k, v, vocabulary(k));
      }
      DropDeletion(k, v, deletionValue);
      ForceAdditionDone(t, State(), k, k in snapshot, sign, v, arg, additionValue.Data(), deletionValue.Data());
    }

    /** The deletion is in force. */
    method ForceDeletion(ghost t: Trees, k: Key, isLocalChange: bool, arg: Triple, ghost sign: Option<bool>, v: int,
                         additionValue: AdditionValue, deletionValue: DeletionValue)
      requires Ready(k, v) && k in additions && k in deletions
      requires t == State().(ever := t.ever) && ever == if k in snapshot then t.ever else t.ever + [k]
      requires !AddedNext(State().EntryOf(k), sign, v) && (isLocalChange <==> k !in snapshot)
      requires additionValue.Data() == additions[k] && additionValue.maxPatchId == v + 1
      requires Separate(additionValue, deletionValue) && deletionValue.Data() == deletions[k] &&
               deletionValue.maxPatchId == v
      modifies `additions, `deletions, `reduced, `counters, `ranked
      modifies additionValue`maxPatchId, additionValue.patches, additionValue.localChanges
      modifies deletionValue.patches, deletionValue.localChanges, deletionValue.patchPositions
      ensures Counting(v) && Separate(additionValue, deletionValue) && additionValue.maxPatchId == v + 1
      ensures KeyDone(t, k, k in snapshot, sign, v, arg, State())
    {
      hide CountersOk, AdditionCountsOk, ReducedOk, KeyDone, RanksOk, Tally, RanksAt, RanksFor, RankedAt, InOrder,
           WellFormed, In, EntryOk, AddedNext, Added;
      ReadyAlike(t, State(), k, k in snapshot, v);
      BothReady(t, k, k in snapshot, v);
      BothUnchanged(t, k, k in snapshot, sign, v);
      var positions := RanksUnless(isLocalChange, k, arg);
      AddDeletion(k, DeletionElement(v, isLocalChange, positions), deletionValue);
      FlaggedRuns(t.deletions[k].patches, t.deletions[k].localChanges, isLocalChange, v,
                  deletionValue.patches.intervals, deletionValue.localChanges.intervals);
      DropAddition(k, v, true, additionValue);
      ForceDeletionDone(t, State(), k, k in snapshot, sign, v, arg, additionValue.Data(), deletionValue.Data());
    }

    /** Adds version `v` and all later ones to an addition value, as local changes or not. */
    method AddFlagged(k: Key, isLocalChange: bool, v: int, value: AdditionValue)
      requires k in additions && additions[k] == value.Data() && value.Valid() && v < MAX
      requires Steady(value.patches.intervals, v - 1) && value.patches.Reaches(v)
      requires value.localChanges.intervals == if isLocalChange then value.patches.intervals else []
      modifies `additions, value`maxPatchId, value.patches, value.localChanges
      ensures value.Valid() && additions == old(additions)[k := value.Data()]
      ensures OpenedAt(old(value.patches.intervals), v, value.patches.intervals)
      ensures value.localChanges.intervals == if isLocalChange then value.patches.intervals else []
      ensures value.maxPatchId == if v >= old(value.maxPatchId) then v + 1 else old(value.maxPatchId)
      ensures old(In(value.patches.intervals, v)) ==> value.Data() == old(value.Data())
    {
      hide Steady, Ids, Overrun, In, WellFormed, Added;
      ghost var runs, flags := value.patches.intervals, value.localChanges.intervals;
      var hasChanged := value.Add(v);
      if isLocalChange {
        var l := value.SetLocalChange(v);
        hasChanged := hasChanged || l;
      }
      if hasChanged {
        var data := value.Store();
        additions := additions[k := data];
      }
      FlaggedRuns(runs, flags, isLocalChange, v, value.patches.intervals, value.localChanges.intervals);
    }

    /** Counts a triple as an addition to the snapshot in version `v`. */
    method CountInForce(k: Key, v: int, value: AdditionValue)
      requires 0 < v < MAX && Counting(v) && IsReal(vocabulary(k))
      requires value.Valid() && value.localChanges.Reaches(v)
      modifies `tempCountAdditions, `added, `ever
      ensures Counting(v)
      ensures added == (if In(value.localChanges.intervals, v) then old(added) else old(added) + [k])
      ensures ever == old(ever)
    {
      var isLocalChange := value.IsLocalChange(v);
      if !isLocalChange {
        IncrementAdditionCounts(v, k, v, vocabulary(k));
      }
    }

    /** The state once `k` is counted for all versions. */
    ghost function CountedEver(k: Key): Trees
      reads this
    {
      State().(ever := ever + [k])
    }

    /** Counts a triple once for all versions, if its first addition was one to the snapshot. */
    method CountEver(k: Key, v: int, value: AdditionValue)
      requires 0 < v < MAX && Counting(v) && IsReal(vocabulary(k))
      requires value.Valid() && value.maxPatchId <= MAX && FirstIsSeen(value.Data(), value.maxPatchId)
      modifies `tempCountAdditions, `added, `ever
      ensures Counting(v) && added == old(added)
      ensures ever == if value.localChanges.intervals == [] then old(ever) + [k] else old(ever)
    {
      hide CountersOk, AdditionCountsOk, ReducedOk;
      FirstReached(value.Data(), value.maxPatchId);
      var first := value.GetPatchIdAt(0);
      var isLocalChange := value.IsLocalChange(first);
      if !isLocalChange {
        IncrementAdditionCounts(0, k, v, vocabulary(k));
      }
    }
  }

  /** The two buffers that tree values are read into share nothing. */
  ghost predicate Separate(additionValue: AdditionValue, deletionValue: DeletionValue)
    reads additionValue, additionValue.patches, additionValue.localChanges
    reads deletionValue, deletionValue.patches, deletionValue.localChanges, deletionValue.patchPositions
  {
    && additionValue.Valid() && deletionValue.Valid()
    && additionValue.patches != deletionValue.patches && additionValue.patches != deletionValue.localChanges
    && additionValue.localChanges != deletionValue.patches && additionValue.localChanges != deletionValue.localChanges
  }

  /** The keys that may still be handled after `f`. */
  ghost function Remaining(universe: set<Key>, f: Key): set<Key> {
    set k | k in universe && f < k
  }

  lemma Fewer(universe: set<Key>, f: Key, k: Key)
    requires f < k && k in universe
    ensures Remaining(universe, k) < Remaining(universe, f)
  {
    assert k in Remaining(universe, f) && k !in Remaining(universe, k);
  }

  /** Of the patterns of one field a triple matches exactly its own. */
  lemma FieldMatch(f: nat, triple: Triple)
    requires IsReal(triple) && f < FIELDS
    ensures FieldOf(FieldPattern(f, triple)) == f
    ensures forall pattern :: FieldOf(pattern) == f ==>
            (Matches(triple, pattern) <==> pattern == FieldPattern(f, triple))
  {
  }

  lemma FieldsAll()
    ensures forall pattern :: FieldOf(pattern) < FIELDS
  {
  }

  lemma CountOneMore(s: seq<Key>, k: Key, vocabulary: Key -> Triple)
    ensures forall pattern :: CountMatching(s + [k], vocabulary, pattern) ==
              CountMatching(s, vocabulary, pattern) + if Matches(vocabulary(k), pattern) then 1 else 0
  {
    hide Matches;
    assert (s + [k])[..|s|] == s;
  }

  /** A key below all of a set. */
  ghost function Below(s: set<Key>): (f: Key)
    ensures forall k :: k in s ==> f < k
  {
    if s == {} then 0 else First(s).value - 1
  }

  twostate predicate Unshared(new additionValue: AdditionValue, new deletionValue: DeletionValue) {
    && fresh(additionValue) && fresh(additionValue.patches) && fresh(additionValue.localChanges)
    && fresh(deletionValue) && fresh(deletionValue.patches) && fresh(deletionValue.localChanges)
    && fresh(deletionValue.patchPositions)
  }

  /** The local flags of an addition value mark all of its runs or none, and the first version is below `limit`. */
  ghost predicate FirstIsSeen(d: AdditionData, limit: int) {
    && WellFormed(d.patches, MAX) && d.patches != [] && d.patches[0].start < limit
    && (d.localChanges == [] || d.localChanges == d.patches)
  }

  /** The first listed version is where the runs, and so the flags, begin. */
  lemma FirstReached(d: AdditionData, limit: int)
    requires FirstIsSeen(d, limit) && limit <= MAX
    ensures var ids := Ids(d.patches, MAX, limit); ids != [] && ids[0] == d.patches[0].start
  {
    var ids := Ids(d.patches, MAX, limit);
    IdsCorrect(d.patches, MAX, limit);
    Edges(d.patches, 0);
    FirstListed(ids, d.patches[0].start);
  }

  /** An addition that is in no deletion tree can be read, and is in force. */
  lemma AdditionInForce(t: Trees, k: Key, inSnapshot: bool, v: int, limit: int)
    requires 0 < v < MAX && NodeReady(t, k, inSnapshot, v) && k in t.additions && k !in t.deletions
    requires v <= limit <= v + 1
    ensures var a := t.additions[k];
      && WellFormed(a.patches, MAX) && a.localChanges == [] && WellFormed(a.localChanges, MAX)
      && (forall x :: !In(a.localChanges, x))
      && FirstIsSeen(a, limit) && FirstIsSeen(a, v + 1) && Steady(a.patches, v - 1) && In(a.patches, v)
      && Ids(a.patches, MAX, limit) != [] && Ids(a.patches, MAX, limit)[0] <= v
  {
    hide RanksAt, Overrun, PlaceOf, Ids;
    InForce(t.EntryOf(k), inSnapshot, v);
    ListedEnds(t.additions[k].patches, v, limit);
  }

  /** A deletion that is in no addition tree can be read, and is in force. */
  lemma DeletionInForce(t: Trees, k: Key, inSnapshot: bool, v: int)
    requires 0 < v < MAX && NodeReady(t, k, inSnapshot, v) && k in t.deletions && k !in t.additions
    ensures var d := t.deletions[k];
      && Readable(d) && d.localChanges == [] && (forall x :: !In(d.localChanges, x)) && d.patches != [] &&
         d.patches[0].start < v
      && d.positions != [] && d.positions[0].patchId <= v && d.positions[|d.positions| - 1].patchId <= v
      && Steady(d.patches, v - 1) && In(d.patches, v) && SizeSeen(d, v) > 0
      && Ids(d.patches, MAX, v) != [] && Ids(d.patches, MAX, v)[0] < v && PlaceOf(Ids(d.patches, MAX, v), v) == -1
  {
    hide RanksAt, Overrun, PlaceOf, Ids;
    InForce(t.EntryOf(k), inSnapshot, v);
    ListedEnds(t.deletions[k].patches, v, v);
  }

  /** A value whose runs and ranks begin where they began before can be read. */
  lemma StillReadable(before: DeletionData, after: DeletionData)
    requires Readable(before) && before.patches != [] && before.positions != []
    requires WellFormed(after.patches, MAX) && WellFormed(after.localChanges, MAX) && InOrder(after.positions)
    requires after.patches != [] && after.patches[0].start == before.patches[0].start
    requires after.localChanges == [] || after.localChanges == after.patches
    requires after.positions != [] && after.positions[0].patchId == before.positions[0].patchId
    ensures Readable(after)
  {
  }

  /** Something was seen of such a list before version `v`, and still is. */
  lemma OpenedSeen(before: seq<Interval>, v: int, after: seq<Interval>)
    requires WellFormed(before, MAX) && before != [] && before[0].start < v < MAX && Steady(before, v - 1)
    requires OpenedAt(before, v, after)
    ensures after != [] && after[0].start == before[0].start
    ensures |Ids(after, MAX, v)| - Overrun(after, MAX, v) > 0
  {
    hide Ids, Overrun;
    OpenedStart(before, v, after);
    Edges(after, |after| - 1);
    SeenNotEmpty(after, v);
  }

  lemma ClosedSeen(before: seq<Interval>, v: int, after: seq<Interval>)
    requires WellFormed(before, MAX) && before != [] && before[0].start < v < MAX && ClosedAt(before, v, after)
    ensures after != [] && after[0].start == before[0].start
    ensures |Ids(after, MAX, v)| - Overrun(after, MAX, v) > 0
  {
    hide Ids, Overrun;
    ClosedStart(before, v, after);
    Edges(after, |after| - 1);
    SeenNotEmpty(after, v);
  }

  lemma NewSeen(v: int, after: seq<Interval>)
    requires WellFormed(after, MAX) && OpenedAt([], v, after) && v < MAX
    ensures after != [] && |Ids(after, MAX, v + 1)| - Overrun(after, MAX, v + 1) > 0
  {
    hide Ids, Overrun;
    NothingIn();
    StartIsLeast(after, v);
    Edges(after, |after| - 1);
    SeenNotEmpty(after, v + 1);
  }

  /** Runs and flags that agree agree after an addition. */
  lemma FlaggedRuns(runs: seq<Interval>, flags: seq<Interval>, flagged: bool, v: int,
                    runsAfter: seq<Interval>, flagsAfter: seq<Interval>)
    requires WellFormed(runs, MAX) && Steady(runs, v - 1) && v < MAX && flags == (if flagged then runs else [])
    requires WellFormed(runsAfter, MAX) && WellFormed(flagsAfter, MAX)
    requires Added(runs, MAX, v, runsAfter)
    requires if flagged then Added(flags, MAX, v, flagsAfter) else flagsAfter == flags
    ensures OpenedAt(runs, v, runsAfter)
    ensures flagsAfter == if flagged then runsAfter else []
  {
    AddedSteady(runs, v - 1, v, runsAfter);
    if flagged {
      AddedSteady(runs, v - 1, v, flagsAfter);
      Canonical(flagsAfter, runsAfter);
    }
  }

  /** What the values of a triple that is in both trees allow to be read and written. */
  lemma BothReady(t: Trees, k: Key, inSnapshot: bool, v: int)
    requires 0 < v < MAX && NodeReady(t, k, inSnapshot, v) && k in t.additions && k in t.deletions
    ensures var a, d := t.additions[k], t.deletions[k];
      && FirstIsSeen(a, v) && WellFormed(a.localChanges, MAX)
      && Steady(a.patches, v - 1) && Steady(d.patches, v - 1)
      && a.localChanges == (if inSnapshot then a.patches else [])
      && d.localChanges == (if inSnapshot then [] else d.patches)
      && Readable(d) && d.patches != [] && d.patches[0].start < v
      && d.positions != [] && d.positions[0].patchId <= v && d.positions[|d.positions| - 1].patchId <= v
  {
    hide RanksAt;
  }

  /** What carrying such a triple over leaves as it is. */
  lemma BothUnchanged(t: Trees, k: Key, inSnapshot: bool, sign: Option<bool>, v: int)
    requires 0 < v < MAX && NodeReady(t, k, inSnapshot, v) && k in t.additions && k in t.deletions
    ensures sign.None? ==>
      (In(t.additions[k].patches, v) <==> AddedNext(t.EntryOf(k), sign, v)) &&
      (In(t.deletions[k].patches, v) <==> !AddedNext(t.EntryOf(k), sign, v))
  {
    hide RanksAt;
    InForce(t.EntryOf(k), inSnapshot, v);
  }

  /** What the last listed versions of such a triple say. */
  lemma BothSides(t: Trees, k: Key, inSnapshot: bool, v: int)
    requires 0 < v < MAX && NodeReady(t, k, inSnapshot, v) && k in t.additions && k in t.deletions
    ensures var a, d := t.additions[k], t.deletions[k];
      var la, ld := Ids(a.patches, MAX, v), Ids(d.patches, MAX, v);
      && Overrun(a.patches, MAX, v) == 0 && la != [] && SizeSeen(d, v) == |ld| && ld != []
      && PlaceOf(ld, v) == -1
      && (In(t.EntryOf(k).add, v - 1) ==> la[|la| - 1] > ld[|ld| - 1] && (In(a.localChanges, v) <==> inSnapshot))
      && (!In(t.EntryOf(k).add, v - 1) ==>
            ld[|ld| - 1] > la[|la| - 1] && (In(d.localChanges, ld[|ld| - 1]) <==> !inSnapshot))
      && !InOneTree(t.EntryOf(k))
  {
    hide RanksAt, PlaceOf, Ids, Overrun, Steady, InOrder, WellFormed;
    var e := t.EntryOf(k);
    InForce(e, inSnapshot, v);
    ListedEnds(e.add, v, v);
    ListedEnds(e.del, v, v);
    assert forall x :: !In([], x);
  }

  /** Runs and flags that agree agree after a deletion. */
  lemma DroppedFrom(runs: seq<Interval>, flags: seq<Interval>, v: int, runsAfter: seq<Interval>,
                    flagsAfter: seq<Interval>)
    requires WellFormed(runs, MAX) && Steady(runs, v - 1) && v < MAX && (flags == [] || flags == runs)
    requires WellFormed(runsAfter, MAX) && WellFormed(flagsAfter, MAX)
    requires Deleted(runs, MAX, v, runsAfter) && Deleted(flags, MAX, v, flagsAfter)
    ensures ClosedAt(runs, v, runsAfter)
    ensures flagsAfter == if flags == [] then [] else runsAfter
  {
    DeletedSteady(runs, v - 1, v, runsAfter);
    if flags == [] {
      NothingToDelete(v, flagsAfter);
    } else {
      DeletedSteady(runs, v - 1, v, flagsAfter);
      Canonical(flagsAfter, runsAfter);
    }
  }

  lemma NothingToDelete(v: int, after: seq<Interval>)
    requires WellFormed(after, MAX)
    ensures Deleted([], MAX, v, after) ==> after == []
  {
    if Deleted([], MAX, v, after) {
      assert forall x :: !In([], x);
      if after != [] { Edges(after, 0); }
    }
  }

  lemma AddedToNothing(v: int, after: seq<Interval>)
    requires WellFormed(after, MAX) && Added([], MAX, v, after) && v < MAX
    ensures OpenedAt([], v, after)
    ensures after != [] && after[0].start == v
  {
    assert forall x :: !In([], x);
    assert OpenedAt([], v, after);
    StartIsLeast(after, v);
  }
}
