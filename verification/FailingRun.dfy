/** Short runs of the store that end in a wrong answer, a wrong rank, or a read that is not defined. */
module FailingRuns {
  import opened OrderedKeys
  import opened Positions
  import opened Values
  import opened ChainHistory
  import opened Ingestion
  import opened Ranks
  import opened Triples
  import opened Dictionaries
  import opened PatchTrees
  import opened VersionQueries
  import opened LaterDeletions
  import opened OffsetQueries
  import opened PatchTreeIterators
  import opened MergeOrders
  import opened DeltaStreams
  import opened DeltaQueries
  import opened ControllerDeltas
  import opened DeletionValues
  import opened DeltaVerdicts
  import opened ReducedDeltas
  import opened Controllers
  import opened TreeIndexes
  import opened Intervals
  import opened Selection
  import opened ChainReading

  const ADD := PatchElement(0, true)
  const DELETE := PatchElement(0, false)

  /** A dictionary with one triple. */
  function Lone(k: Key): Triple {
    Triple(1, 1, 1)
  }

  lemma LoneDictionary()
    ensures Dictionary({0}, Lone)
  {
  }

  lemma OnePatch(e: PatchElement, previous: set<Key>)
    requires e.key == 0 && (e.isAddition <==> 0 !in previous) && previous <= {0}
    ensures WellFormedPatch([e], previous)
    ensures ApplyPatch(previous, [e]) == if e.isAddition then {0} else {}
  {
    var patch := [e];
    assert patch[0] == e;
    assert Adds(patch) == if e.isAddition then {0} else {};
    assert Dels(patch) == if e.isAddition then {} else {0};
  }

  lemma NoPatch(previous: set<Key>)
    ensures WellFormedPatch([], previous) && ApplyPatch(previous, []) == previous
  {
  }

  /** One step of a run of patches that concern the one triple. */
  lemma RunStep(versions: seq<set<Key>>, patches: seq<seq<PatchElement>>)
    requires versions != [] && patches != []
    requires WellFormedPatch(patches[0], versions[|versions| - 1])
    requires forall i :: 0 <= i < |patches[0]| ==> patches[0][i].key == 0
    ensures var longer := versions + [ApplyPatch(versions[|versions| - 1], patches[0])];
      && RunVersions(versions, patches) == RunVersions(longer, patches[1..])
      && (WellFormedRun(longer, patches[1..], {0}) ==> WellFormedRun(versions, patches, {0}))
  {
    hide WellFormedPatch, ApplyPatch;
  }

  lemma RunEnds(versions: seq<set<Key>>)
    ensures RunVersions(versions, []) == versions && WellFormedRun(versions, [], {0})
  {
  }

  lemma NothingDecided(firstId: int, decisions: seq<bool>)
    requires forall d :: d in decisions ==> !d
    ensures DecidedIds(firstId, decisions, |decisions|) == {}
    ensures 10 < MAX
  {
    assert forall i :: 0 <= i < |decisions| ==> decisions[i] in decisions;
  }

  // ----- an addition of a later version

  /** With the first version as the only snapshot there is one chain, of all the others. */
  lemma OneChain(store: Controller)
    requires store.Valid() && store.snapshots.Keys == {0} && 1 < |store.versions|
    ensures var c := store.SegmentOf(1);
      c.snapshot == store.versions[0] && c.history == store.versions[1..] && c.min == 1
  {
    hide Controller.Valid, Controller.MisrankedAt;
    OneSnapshot();
    store.SnapshotsInside();
    var c, n := store.SegmentOf(1), |store.versions|;
    assert c.history == store.versions[1..n];
  }

  lemma OneSnapshot()
    ensures Floor({0}, 1) == Some(0) && Ceiling({0}, 1) == None
  {
    assert 0 in {0};
  }

  /** Version 2 adds a triple. A query at version 1 looks for version 1 in a value that begins with 2: already its
      first step over the additions does, in any index of them. */
  lemma LateAdditionFails(store: Controller)
    requires store.Valid() && store.versions == [{}, {}, {0}] && store.snapshots.Keys == {0}
    ensures forall keys :: IsIndex(keys, store.StoreAt(1).additions.Keys, SPO, store.vocabulary) ==>
                           !WalksOn(store.StoreAt(1), keys, EVERYTHING, 1, 1)
    ensures store.Askable(EVERYTHING, 0, 1) && store.Shown(EVERYTHING, 0, 1) && !store.Drains(EVERYTHING, 0, 1)
    ensures store.WholeAnswer(EVERYTHING, 1) == []
  {
    hide Controller.Valid, Controller.MisrankedAt, Controller.StoredFor, FieldOf, WalksOn, IsIndex,
         Controller.StoreAt, Queryable, MisrankedOnReturn, Controller.WholeAnswer, Dictionary, NothingHidden,
         LastBegun;
    store.KeysNotNegative();
    store.QueryableAt(1);
    var c := store.SegmentOf(1);
    OneChain(store);
    assert c.history == [{}, {0}] && c.min == 1 && c.snapshot == {};
    ComesLate(c);
    assert Matches(store.vocabulary(0), EVERYTHING);
    assert Gained(c, 1) == {} && MatchesOf(Gained(c, 1), store.vocabulary, EVERYTHING) == {};
    StoredCount(store.StoreAt(1), c, EVERYTHING, 1);
    forall keys | IsIndex(keys, store.StoreAt(1).additions.Keys, SPO, store.vocabulary)
      ensures !WalksOn(store.StoreAt(1), keys, EVERYTHING, 1, 1) {
      store.AdditionsDrain(EVERYTHING, 1, keys, 1);
    }
    store.SegmentRanks(1);
    WholeTrusted(store.StoreAt(1), c, 1);
    EverythingMatches({}, store.vocabulary);
    store.AnswerIsContent(EVERYTHING, 1);
  }

  lemma ComesLate(c: Chain)
    requires c.history == [{}, {0}] && c.min == 1 && c.snapshot == {}
    ensures EntersLate(c, 0, 1)
  {
    assert Enters(c, 0, 2);
  }

  lemma LateRun(patches: seq<seq<PatchElement>>)
    requires patches == [[], [ADD]]
    ensures WellFormedRun([{}], patches, {0}) && RunVersions([{}], patches) == [{}, {}, {0}]
  {
    hide WellFormedRun, RunVersions, WellFormedPatch, ApplyPatch;
    NoPatch({});
    OnePatch(ADD, {});
    var nothing: set<Key> := {};
    RunStep([nothing], patches);
    assert patches[1..] == [[ADD]];
    RunStep([nothing, nothing], [[ADD]]);
    var none: seq<seq<PatchElement>> := [];
    assert [[ADD]][1..] == none;
    RunEnds([nothing, nothing, {0}]);
    assert [nothing] + [nothing] == [nothing, nothing] && [nothing, nothing] + [{0}] == [nothing, nothing, {0}];
  }

  /** Version 1 is empty, and the query answers so; but its iterator cannot be asked for a first triple. */
  method LateAddition() returns (store: Controller, answer: TripleIterator)
    ensures store.Valid() && store.versions == [{}, {}, {0}] && store.snapshots.Keys == {0}
    ensures forall keys :: IsIndex(keys, store.StoreAt(1).additions.Keys, SPO, store.vocabulary) ==>
                           !WalksOn(store.StoreAt(1), keys, EVERYTHING, 1, 1)
    ensures answer.OfChain? && answer.it.Rest() == [] && !answer.it.InReach(1)
  {
    hide *;
    LoneDictionary();
    var patches: seq<seq<PatchElement>> := [[], [ADD]];
    LateRun(patches);
    NothingDecided(1, [false, false]);
    store := new Controller(Lone, {0}, {});
    store.AppendRun(1, patches, [false, false]);
    LateAdditionFails(store);
    EverythingAsked();
    store.AskableMeans(EVERYTHING, 0, 1);
    store.AnsweredRight(EVERYTHING, 0, 1);
    answer := store.GetVersionMaterialized(EVERYTHING, 0, 1);
    SkipNothing(store.WholeAnswer(EVERYTHING, 1), 0);
    NotOfSnapshot(store, answer);
    ChainOpened(answer);
  }

  lemma NotOfSnapshot(store: Controller, answer: TripleIterator)
    requires store.snapshots.Keys == {0} && (answer.OfSnapshot? <==> 1 in store.snapshots)
    ensures answer.OfChain?
  {
    assert 1 !in store.snapshots.Keys;
  }

  // ----- a deletion that is taken back and made again

  /** A reader of the version sees no entry in the value: the ranks of the version are not shown, and what is looked
      up lies below their first entry. */
  ghost predicate SeemsEmpty(d: DeletionData, v: int) {
    SizeSeen(d, v + 1) == 0 && !PlaceShown(d, v) && !BegunBy(d, VersionRead(d, v, v + 1))
  }

  /** The deletion of triple 0 is all that a query at version 1 meets, and its value seems empty. */
  ghost predicate MeetsEmpty(store: Controller)
    reads store, store.trees.Values
    requires store.Valid() && 1 < |store.versions| && 1 !in store.snapshots
  {
    && (forall k :: Met(store.SegmentOf(1), store.vocabulary, EVERYTHING, 1, k) <==> k == 0)
    && 0 in store.StoreAt(1).deletions && SeemsEmpty(store.StoreAt(1).deletions[0], 1)
  }

  lemma NoOther(store: Controller, i: int)
    requires store.snapshots.Keys == {0} && i != 0
    ensures i !in store.snapshots
  {
    assert i !in store.snapshots.Keys;
  }

  /** The triple is gone in version 1, back in 2 and gone again in 3. It is all that a query at version 1 meets, and
      its value seems empty to the reader, who looks for the ranks below their first entry. */
  lemma LostAgainFails(store: Controller)
    requires store.Valid() && store.versions == [{0}, {}, {0}, {}] && store.snapshots.Keys == {0}
    requires 1 !in store.snapshots
    ensures MeetsEmpty(store)
  {
    hide Controller.Valid, Controller.MisrankedAt, Controller.StoreAt, Controller.StoredFor, Queryable,
         MisrankedOnReturn, PlaceShown, BegunBy, VersionRead, Ids, Overrun, Dictionary;
    store.KeysNotNegative();
    store.QueryableAt(1);
    var s, c := store.StoreAt(1), store.SegmentOf(1);
    OneChain(store);
    assert c.history == [{}, {0}, {}] && c.min == 1 && c.snapshot == {0};
    GoneBackGone(c);
    forall k ensures Met(c, store.vocabulary, EVERYTHING, 1, k) <==> k == 0 { assert !LocalHidden(c, k, 1); }
    SizeWhenLostAgain(s, c, 1, 0);
    RankReadIff(s, c, 1, 0);
    MetIff(s, c, EVERYTHING, 1, 0);
  }

  lemma GoneBackGone(c: Chain)
    requires c.history == [{}, {0}, {}] && c.min == 1 && c.snapshot == {0}
    ensures 0 in Lost(c, 1) && LostAgain(c, 0, 1) && |GoneBy(c, 0, 1)| == 1 == |BackAfter(c, 0, 1)|
    ensures forall k :: !LocalHidden(c, k, 1)
  {
    assert 0 in Content(c, 2) && 0 !in Content(c, 3);
    assert GoneBy(c, 0, 1) == {1} && BackAfter(c, 0, 1) == {2};
    assert forall k :: GoneUpTo(c, k, 1) == {};
  }

  lemma BackAndGoneRun(patches: seq<seq<PatchElement>>)
    requires patches == [[DELETE], [ADD], [DELETE]]
    ensures WellFormedRun([{0}], patches, {0}) && RunVersions([{0}], patches) == [{0}, {}, {0}, {}]
  {
    hide WellFormedRun, RunVersions, WellFormedPatch, ApplyPatch;
    OnePatch(DELETE, {0});
    OnePatch(ADD, {});
    RunStep([{0}], patches);
    var none: seq<seq<PatchElement>> := [];
    assert patches[1..] == [[ADD], [DELETE]] && [[ADD], [DELETE]][1..] == [[DELETE]] && [[DELETE]][1..] == none;
    RunStep([{0}, {}], [[ADD], [DELETE]]);
    RunStep([{0}, {}, {0}], [[DELETE]]);
    RunEnds([{0}, {}, {0}, {}]);
    assert [{0}] + [{}] == [{0}, {}] && [{0}, {}] + [{0}] == [{0}, {}, {0}] &&
           [{0}, {}, {0}] + [{}] == [{0}, {}, {0}, {}];
  }

  method LostAgainRun() returns (store: Controller)
    ensures store.Valid() && store.versions == [{0}, {}, {0}, {}] && store.snapshots.Keys == {0}
    ensures 1 !in store.snapshots && MeetsEmpty(store)
  {
    hide *;
    LoneDictionary();
    var patches: seq<seq<PatchElement>> := [[DELETE], [ADD], [DELETE]];
    BackAndGoneRun(patches);
    NothingDecided(1, [false, false, false]);
    store := new Controller(Lone, {0}, {0});
    store.AppendRun(1, patches, [false, false, false]);
    NoOther(store, 1);
    LostAgainFails(store);
  }

  // ----- a walk in SPO order for a pattern of another order

  /** A dictionary with four triples, three of them of one object. */
  function Four(k: Key): Triple {
    if k == 0 then Triple(1, 1, 5)
    else if k == 1 then Triple(2, 1, 5)
    else if k == 2 then Triple(3, 1, 6)
    else Triple(4, 1, 5)
  }

  const OBJECT := Triple(BLANK, BLANK, 5)
  const GONE := [PatchElement(0, false), PatchElement(2, false), PatchElement(3, false)]

  lemma FourDictionary()
    ensures Dictionary({0, 1, 2, 3}, Four)
  {
  }

  lemma FourRun(patches: seq<seq<PatchElement>>)
    requires patches == [GONE]
    ensures WellFormedRun([{0, 1, 2, 3}], patches, {0, 1, 2, 3}) &&
            RunVersions([{0, 1, 2, 3}], patches) == [{0, 1, 2, 3}, {1}]
  {
    assert GONE[0].key == 0 && GONE[1].key == 2 && GONE[2].key == 3;
    assert Adds(GONE) == {} && Dels(GONE) == {0, 2, 3};
    assert ApplyPatch({0, 1, 2, 3}, GONE) == {1};
    var none: seq<seq<PatchElement>> := [];
    assert patches[1..] == none && [{0, 1, 2, 3}] + [{1}] == [{0, 1, 2, 3}, {1}];
  }

  /** The walk that looks for the second match's place among the deletions breaks at a deletion that does not match,
      with matching deletions before and behind: no deletion seems to come before, although one does. So from offset 1
      the one match of version 1 is delivered, where nothing is left. */
  lemma BlockedFails(store: Controller)
    requires store.Valid() && store.versions == [{0, 1, 2, 3}, {1}] && store.snapshots.Keys == {0}
    requires store.vocabulary == Four && store.universe == {0, 1, 2, 3}
    ensures store.Askable(OBJECT, 1, 1) && store.Drains(OBJECT, 1, 1) && !store.Shown(OBJECT, 1, 1)
    ensures store.Unmoved(OBJECT, 1, 1) == [1] && Skip(store.WholeAnswer(OBJECT, 1), 1) == []
  {
    hide Controller.Valid, Controller.MisrankedAt, Controller.StoredFor, Controller.RanksTold, Controller.Askable,
         Controller.Drains, Controller.WholeAnswer, Controller.SegmentOf, Matches, AllPackable, ShownAlong,
         DeliveredFrom, LastStillLost, LostOnReturn, IsDefaultTree, Content, Sorted;
    ObjectSegment(store);
    var c := store.SegmentOf(1);
    FourMatches();
    FourPackable();
    NoReturn(c);
    LastOfTwo(c);
    BlockedAtOne(c);
    ObjectDelivered(c);
    store.RanksToldUnlessReturned(OBJECT, 1);
    store.LatestReadable(OBJECT, 1, 1);
    store.LatestAnswerable(OBJECT, 1, 1);
    store.AnswerIsContent(OBJECT, 1);
  }

  lemma ObjectSegment(store: Controller)
    requires store.Valid() && store.versions == [{0, 1, 2, 3}, {1}] && store.snapshots.Keys == {0}
    ensures 1 !in store.snapshots && store.SegmentOf(1).history == [{1}]
    ensures store.SegmentOf(1).min == 1 && store.SegmentOf(1).snapshot == {0, 1, 2, 3}
  {
    hide Controller.Valid, Controller.MisrankedAt;
    OneChain(store);
  }

  lemma FourMatches()
    ensures MatchesOf({0, 1, 2, 3}, Four, OBJECT) == {0, 1, 3} && MatchesOf({1}, Four, OBJECT) == {1}
    ensures MatchesOf({0, 2, 3}, Four, OBJECT) == {0, 3} && MatchesOf({}, Four, OBJECT) == {}
    ensures !Matches(Four(2), OBJECT) && IsPattern(OBJECT)
    ensures Sorted({0, 1, 3}) == [0, 1, 3]
  {
    ThreeSorted();
  }

  lemma ThreeSorted()
    ensures Sorted({0, 1, 3}) == [0, 1, 3]
  {
    hide Sorted;
    IncreasingUnique(Sorted({0, 1, 3}), [0, 1, 3]);
  }

  lemma FourPackable()
    ensures AllPackable({0, 1, 2, 3}, Four)
  {
  }

  /** What version 1 has lost, and nothing has come back. */
  lemma NoReturn(c: Chain)
    requires c.history == [{1}] && c.min == 1 && c.snapshot == {0, 1, 2, 3}
    ensures Lost(c, 1) == {0, 2, 3} && Gained(c, 1) == {} && !LostOnReturn(c, 1)
  {
  }

  lemma LastOfTwo(c: Chain)
    requires c.history == [{1}] && c.min == 1 && c.snapshot == {0, 1, 2, 3}
    ensures LastStillLost(c, Four, OBJECT, 1)
  {
    hide Matches, OnceLost, Lost, MatchesOf, QueryOrder, IsLast, Dictionary;
    FourMatches();
    NoReturn(c);
    LastOfFour(c);
    FourDictionary();
    LastUnique({0, 3}, {0, 1, 2, 3}, OSP, Four);
  }

  lemma LastOfFour(c: Chain)
    requires c.history == [{1}] && c.min == 1 && c.snapshot == {0, 1, 2, 3}
    ensures IsLastOnce(c, Four, OBJECT, 1, 3) && OnceLost(c, Four, OBJECT, 1) == {0, 3} && QueryOrder(OBJECT) == OSP
  {
    assert 3 in Lost(c, 1) && 0 in Lost(c, 1);
  }

  lemma BlockedAtOne(c: Chain)
    requires c.history == [{1}] && c.min == 1 && c.snapshot == {0, 1, 2, 3}
    ensures !ShownAlong(c, Four, OBJECT, 1, [0, 1, 3], 1, 0)
  {
    hide Matches;
    FourMatches();
    NoReturn(c);
    var lost := MatchesOf(Lost(c, 1), Four, OBJECT);
    assert lost == {0, 3};
    assert Leaves(c, 2, 1);
    assert Blocked(c, Four, OBJECT, 1, 3);
    assert 3 in lost && 0 in lost;
    assert Met(c, Four, OBJECT, 1, 3);
    forall j | 1 <= j < 3 ensures !Met(c, Four, OBJECT, 1, j) {}
    assert !OneSided(lost, 1);
    assert !ShownFrom(c, Four, OBJECT, 1, 1);
  }

  lemma ObjectDelivered(c: Chain)
    requires c.history == [{1}] && c.min == 1 && c.snapshot == {0, 1, 2, 3}
    ensures DeliveredFrom([0, 1, 3], c, Four, OBJECT, 1, 1, 1 - 3 + |MatchesOf(Lost(c, 1), Four, OBJECT)|) == [1]
  {
    hide Matches, Select, Sorted, Lost, Gained, Kept, MatchesOf, Skip;
    FourMatches();
    NoReturn(c);
    assert [0, 1, 3][1..] == [1, 3];
    OnlyTheFirst();
    SortedNothing();
    SkipNothing([], 0);
  }

  lemma OnlyTheFirst()
    ensures Select([1, 3], Kept({0, 3})) == [1]
  {
    var kept, empty: seq<Key> := Kept({0, 3}), [];
    assert [1, 3][1..] == [3] && [3][1..] == empty;
    assert Select(empty, kept) == [];
    assert Select([3], kept) == [];
  }

  lemma SortedNothing()
    ensures Sorted({}) == []
  {
  }

  method BlockedRun() returns (store: Controller, r: seq<Key>)
    ensures store.Valid() && store.versions == [{0, 1, 2, 3}, {1}] && store.vocabulary == Four
    ensures r == [1] && Skip(store.WholeAnswer(OBJECT, 1), 1) == []
  {
    hide *;
    FourDictionary();
    FourMatches();
    var patches: seq<seq<PatchElement>> := [GONE];
    FourRun(patches);
    NothingDecided(1, [false]);
    store := new Controller(Four, {0, 1, 2, 3}, {0, 1, 2, 3});
    store.AppendRun(1, patches, [false]);
    BlockedFails(store);
    store.AskableMeans(OBJECT, 1, 1);
    r := store.VersionMaterialized(OBJECT, 1, 1);
  }

  // ----- a count for a lone predicate

  /** A dictionary with two triples of one predicate, the second with the lesser object. */
  function Two(k: Key): Triple {
    if k == 0 then Triple(1, 1, 9) else Triple(2, 1, 5)
  }

  const PREDICATE := Triple(BLANK, 1, BLANK)
  const BOTH := [PatchElement(0, false), PatchElement(1, false)]

  lemma TwoDictionary()
    ensures Dictionary({0, 1}, Two) && AllPackable({0, 1}, Two) && IsPattern(PREDICATE)
  {
  }

  lemma TwoRun(patches: seq<seq<PatchElement>>)
    requires patches == [BOTH]
    ensures WellFormedRun([{0, 1}], patches, {0, 1}) && RunVersions([{0, 1}], patches) == [{0, 1}, {}]
  {
    assert BOTH[0].key == 0 && BOTH[1].key == 1;
    assert Adds(BOTH) == {} && Dels(BOTH) == {0, 1};
    assert ApplyPatch({0, 1}, BOTH) == {};
    var none: seq<seq<PatchElement>> := [];
    assert patches[1..] == none && [{0, 1}] + [{}] == [{0, 1}, {}];
  }

  /** The last deletion in POS order is the first one in SPO order: only one deletion is counted. */
  lemma PredicateFails(store: Controller)
    requires store.Valid() && store.versions == [{0, 1}, {}] && store.snapshots.Keys == {0}
    requires store.vocabulary == Two && store.universe == {0, 1}
    ensures store.Countable(PREDICATE, 1) && store.LastRankTold(PREDICATE, 1) && 1 !in store.snapshots &&
            !IsDefaultTree(PREDICATE)
    ensures var c := store.SegmentOf(1);
      IsLastOnce(c, Two, PREDICATE, 1, 0) && 0 in Lost(c, 1) && CountedUpTo(c, Two, PREDICATE, 1, 0) == 1
  {
    hide Controller.Valid, Controller.MisrankedAt, Controller.StoredFor, Controller.RanksTold, Controller.SegmentOf,
         Matches, AllPackable, LostOnReturn, IsLastOnce, Lost, CountedUpTo, AdditionsBegun;
    PredicateSegment(store);
    TwoDictionary();
    AllGone(store.SegmentOf(1));
    store.RanksToldUnlessReturned(PREDICATE, 1);
    store.LastOfAll(PREDICATE, 1);
    LatestBegun(store.SegmentOf(1), Two, PREDICATE);
  }

  lemma PredicateSegment(store: Controller)
    requires store.Valid() && store.versions == [{0, 1}, {}] && store.snapshots.Keys == {0}
    ensures 1 !in store.snapshots && store.SegmentOf(1).history == [{}]
    ensures store.SegmentOf(1).min == 1 && store.SegmentOf(1).snapshot == {0, 1}
  {
    hide Controller.Valid, Controller.MisrankedAt;
    OneChain(store);
  }

  lemma AllGone(c: Chain)
    requires c.history == [{}] && c.min == 1 && c.snapshot == {0, 1}
    ensures IsLastOnce(c, Two, PREDICATE, 1, 0) && 0 in Lost(c, 1) && !LostOnReturn(c, 1)
    ensures CountedUpTo(c, Two, PREDICATE, 1, 0) == 1
  {
    assert Lost(c, 1) == {0, 1} && Gained(c, 1) == {};
    assert MatchesOf(c.snapshot, Two, PREDICATE) == {0, 1};
    assert MatchesOf(Gained(c, 1), Two, PREDICATE) == {};
    assert MatchesBefore(Lost(c, 1), 0, Two, PREDICATE) == {};
  }

  /** In the last version, which is empty, one triple is counted. */
  method PredicateRun() returns (store: Controller, r: int)
    ensures store.Valid() && store.versions == [{0, 1}, {}] && store.vocabulary == Two
    ensures r == 1 && MatchesOf(store.versions[1], Two, PREDICATE) == {}
  {
    hide *;
    TwoDictionary();
    var patches: seq<seq<PatchElement>> := [BOTH];
    TwoRun(patches);
    NothingDecided(1, [false]);
    store := new Controller(Two, {0, 1}, {0, 1});
    store.AppendRun(1, patches, [false]);
    PredicateFails(store);
    ghost var c := store.SegmentOf(1);
    r := store.VersionMaterializedCount(PREDICATE, 1);
    store.CountMeans(PREDICATE, 1, r);
    CountedOne(store, c, r);
    NothingMatches(store.versions[1], Two, PREDICATE);
  }

  lemma CountedOne(store: Controller, c: Chain, r: int)
    requires store.Valid() && |store.versions| == 2 && 1 !in store.snapshots && store.CountsUpTo(PREDICATE, 1, r)
    requires store.SegmentOf(1) == c && store.vocabulary == Two && !IsDefaultTree(PREDICATE)
    requires IsLastOnce(c, Two, PREDICATE, 1, 0) && 0 in Lost(c, 1)
    ensures r == CountedUpTo(c, Two, PREDICATE, 1, 0)
  {
    hide Controller.Valid, Controller.SegmentOf, IsLastOnce, Lost, CountedUpTo;
  }

  lemma NothingMatches(s: set<Key>, vocabulary: Key -> Triple, pattern: Triple)
    requires s == {}
    ensures MatchesOf(s, vocabulary, pattern) == {}
  {
  }

  // ----- a delta for a lone predicate

  lemma TwoPatches()
    ensures var patch := [PatchElement(0, true), PatchElement(1, true)];
      WellFormedPatch(patch, {}) && ApplyPatch({}, patch) == {0, 1}
    ensures WellFormedPatch([DELETE], {0}) && ApplyPatch({0}, [DELETE]) == {}
  {
    var patch := [PatchElement(0, true), PatchElement(1, true)];
    assert patch[0].key == 0 && patch[1].key == 1;
    assert Adds(patch) == {0, 1} && Dels(patch) == {};
    OnePatch(DELETE, {0});
  }

  /** The first triple is gone in version 1 and back in version 2, with a second one that is before it in POS order
      and behind it in SPO order: these are neighbours. */
  lemma OneBackOneNew(c: Chain)
    requires c.min == 1 && c.snapshot == {0} && c.history == [{}, {0, 1}] && c.universe == {0, 1}
    ensures OnceOut(c, Two, PREDICATE, 2) == {0} && OnceIn(c, Two, PREDICATE, 2) == {0, 1}
    ensures Leaves(c, 0, 1) && Enters(c, 0, 2) && Enters(c, 1, 2)
    ensures NextTo({0}, {0, 1}, 0, 1, OrderOf(PREDICATE, Two)) && !WalksAgree(c, Two, PREDICATE, 2)
  {
    assert Leaves(c, 0, 1) && Enters(c, 0, 2) && Enters(c, 1, 2);
    assert forall u :: !Leaves(c, 1, u);
    assert NextTo({0}, {0, 1}, 0, 1, OrderOf(PREDICATE, Two));
  }

  lemma TwoArranged()
    ensures QueryOrder(PREDICATE) == POS
    ensures Arranged({0}, {0, 1}, POS, Two) == [0] && Arranged({0, 1}, {0, 1}, POS, Two) == [1, 0]
  {
    TwoDictionary();
    var one, both := [0], [1, 0];
    assert both[0] == 1 && both[1] == 0 && one[0] == 0;
    assert IsIndex(one, {0}, POS, Two) && IsIndex(both, {0, 1}, POS, Two);
    SameIndex(one, Arranged({0}, {0, 1}, POS, Two), {0}, {0, 1}, POS, Two);
    SameIndex(both, Arranged({0, 1}, {0, 1}, POS, Two), {0, 1}, {0, 1}, POS, Two);
  }

  /** So the first triple is met apart in the two walks. */
  lemma MetApart()
    ensures Merged([0], [1, 0]) == [Found(0, true, false), Found(1, false, true), Found(0, false, true)]
  {
    var none: seq<Key> := [];
    assert [0][1..] == none && [1, 0][1..] == [0];
    assert Merged(none, [0]) == [Found(0, false, true)];
    assert Merged(none, [1, 0]) == [Found(1, false, true)] + Merged(none, [0]);
  }

  lemma ThreeTold(s: Store, c: Chain, reduced: map<Key, DeletionData>)
    requires Queryable(s, c, 2) && IsReducedTree(reduced, s.deletions)
    requires DeletedBy(s, 0, 2) && AddedBy(s, 0, 2) && AddedBy(s, 1, 2)
    requires c.snapshot == {0} && Content(c, 2) == {0, 1}
    ensures PatchOut([Found(0, true, false), Found(1, false, true), Found(0, false, true)], s, reduced, 2) ==
            [TripleDelta(0, false), TripleDelta(1, true)]
  {
    hide *;
    var limit := s.maxPatchId + 1;
    var told := PatchVerdict(reduced, s.additions, 2, limit);
    var verdict := Dropping(true, told, reduced, s.additions, 2, limit);
    var m := [Found(0, true, false), Found(1, false, true), Found(0, false, true)];
    PatchOutIs(m, s, reduced, 2);
    DroppedFirst(m, true, told, reduced, s.additions, 2, limit);
    DeletedApart(s, c, reduced, 0, 2);
    AddedApart(s, c, reduced, 0, 2);
    AddedApart(s, c, reduced, 1, 2);
    DeltasOf(m, verdict);
    assert m[1..] == [Found(1, false, true), Found(0, false, true)];
    DeltasOf(m[1..], verdict);
    assert m[1..][1..] == [Found(0, false, true)];
    DeltasOf(m[1..][1..], verdict);
    var none: seq<Found> := [];
    assert m[1..][1..][1..] == none;
    NoDeltas(verdict);
  }

  lemma PatchOutIs(m: seq<Found>, s: Store, dels: map<Key, DeletionData>, v: int)
    ensures var limit := s.maxPatchId + 1;
      PatchOut(m, s, dels, v) ==
      Deltas(WithoutLocal(m, true, dels, s.additions, v, limit), PatchVerdict(dels, s.additions, v, limit))
  {
  }

  /** The delta tells of the deletion of a triple that is in both versions. */
  lemma PredicateDeltaFails(tree: PatchTree)
    requires tree.Valid() && tree.vocabulary == Two && tree.universe == {0, 1} && tree.minPatchId == 1
    requires tree.snapshot == {0} && tree.history == [{}, {0, 1}]
    ensures var s, c := StoreOf(tree), ChainOf(tree);
      && Queryable(s, c, 2) && IsReducedTree(tree.reduced, s.deletions)
      && PatchOut(Merged(WalkedOut(s, c, PREDICATE, 2), WalkedIn(s, c, PREDICATE, 2)), s,
                  TreeFor(s, tree.reduced, PREDICATE), 2) == [TripleDelta(0, false), TripleDelta(1, true)]
  {
    hide ChainOk, Dictionary, Matches, OnceOut, OnceIn, WalksAgree, Leaves, Enters, NextTo, Arranged, Merged, PatchOut,
         WalkedDeletions, WalkedAdditions, DeletedBy, AddedBy, QueryOrder;
    TreeQueryable(tree, 2);
    var s, c := StoreOf(tree), ChainOf(tree);
    OneBackOneNew(c);
    WalkedHistory(s, c, PREDICATE, 2);
    WalkedSince(s, c, 2, 0);
    WalkedSince(s, c, 2, 1);
    TwoArranged();
    MetApart();
    ThreeTold(s, c, tree.reduced);
  }

  method PredicateDeltaRun() returns (tree: PatchTree, r: seq<TripleDelta>)
    ensures tree.Valid() && tree.vocabulary == Two && tree.snapshot == {0} && tree.history == [{}, {0, 1}]
    ensures r == [TripleDelta(0, false), TripleDelta(1, true)] && !WalksAgree(ChainOf(tree), Two, PREDICATE, 2)
  {
    hide PatchTree.Valid, ApplyPatch, WellFormedPatch, RemarkedRanks, Dictionary, WalksAgree, Queryable, PatchOut,
         Merged, WalkedOut, WalkedIn, IsReducedTree, TreeFor, TellsChange, MovedOnce;
    TwoDictionary();
    TwoPatches();
    tree := new PatchTree(1, Two, {0, 1}, {0});
    Grow(tree, [DELETE], 1, {0});
    Grow(tree, [PatchElement(0, true), PatchElement(1, true)], 2, {});
    assert tree.history == [{}, {0, 1}];
    PredicateDeltaFails(tree);
    OneBackOneNew(ChainOf(tree));
    r := DeltaFromSnapshot(StoreOf(tree), ChainOf(tree), tree.reduced, PREDICATE, 2);
  }

  // ----- a carried deletion under a foreign triple

  /** A dictionary with three triples, two of them of one subject. */
  function Few(k: Key): Triple {
    if k == 0 then Triple(1, 1, 1) else if k == 1 then Triple(1, 1, 2) else Triple(7, 7, 7)
  }

  lemma FewDictionary()
    ensures Dictionary({0, 1, 2}, Few)
  {
  }

  const SUBJECT := 2

  /** The first triple has been deleted, added back and deleted again, the second one deleted; the next patch adds the
      third. For the first deletion the counters of the third triple are moved. */
  lemma CountsUnevenly(s: Store, c: Chain, patch: seq<PatchElement>)
    requires Queryable(s, c, 3) && s.vocabulary == Few
    requires c.min == 1 && c.snapshot == {0, 1} && c.history == [{1}, {0, 1}, {}] && patch == [PatchElement(2, true)]
    ensures !EvenlyCounted({0, 1}, 1, CountedFor(s.Nodes(), patch, Few), Few, SUBJECT)
  {
    hide Queryable, Enters, Represents, HeadPlace;
    assert Sign(patch, 0).None? && Sign(patch, 1).None?;
    StaleIff(s, c, 3, patch, 0);
    StaleIff(s, c, 3, patch, 1);
    assert Enters(c, 0, 2) by { Back(c); }
    assert !exists u :: Enters(c, 1, u) by { NotBack(c); }
    var counted, deleted := CountedFor(s.Nodes(), patch, Few), {0, 1};
    assert patch[0].key == 2;
    assert HeadPlace(patch, 0) == 0;
    assert counted(0) == Few(2) && counted(1) == Few(1);
    assert CountedBefore(deleted, 1, counted, SUBJECT) == {};
    assert Alike(deleted, 1, Few, SUBJECT) == {0};
    EvenIffEqual(deleted, 1, counted, Few, SUBJECT);
  }

  lemma Back(c: Chain)
    requires c.min == 1 && c.snapshot == {0, 1} && c.history == [{1}, {0, 1}, {}]
    ensures Enters(c, 0, 2)
  {
  }

  lemma NotBack(c: Chain)
    requires c.min == 1 && c.snapshot == {0, 1} && c.history == [{1}, {0, 1}, {}]
    ensures forall u :: !Enters(c, 1, u)
  {
  }

  /** Ingests a well-formed patch into a chain. */
  method Grow(tree: PatchTree, patch: seq<PatchElement>, patchId: int, ghost previous: set<Key>)
    requires tree.Valid() && patchId == tree.minPatchId + |tree.history| < MAX
    requires previous == Latest(tree.snapshot, tree.history) && WellFormedPatch(patch, previous)
    requires forall i :: 0 <= i < |patch| ==> patch[i].key in tree.universe
    modifies tree
    ensures tree.Valid() && tree.history == old(tree.history) + [ApplyPatch(previous, patch)]
    ensures tree.misranked == RemarkedRanks(old(tree.misranked), old(tree.State()), tree.snapshot, patch, patchId,
                                            tree.vocabulary, ApplyPatch(previous, patch))
  {
    hide PatchTree.Valid, ApplyPatch, Admissible, KeyStep, RemarkedRanks;
    forall k ensures Admissible(tree.State().EntryOf(k), Sign(patch, k), k in previous) {
      WellFormedAdmissible(patch, previous, tree.State().EntryOf(k), k);
    }
    tree.AppendUnsafe(patch, patchId);
  }

  lemma FewPatches()
    ensures var p1, p2, p3, p4 := [DELETE], [ADD], [DELETE, PatchElement(1, false)], [PatchElement(2, true)];
      && WellFormedPatch(p1, {0, 1}) && ApplyPatch({0, 1}, p1) == {1}
      && WellFormedPatch(p2, {1}) && ApplyPatch({1}, p2) == {0, 1}
      && WellFormedPatch(p3, {0, 1}) && ApplyPatch({0, 1}, p3) == {}
      && WellFormedPatch(p4, {}) && ApplyPatch({}, p4) == {2}
  {
    var p1, p2, p3, p4 := [DELETE], [ADD], [DELETE, PatchElement(1, false)], [PatchElement(2, true)];
    assert p1[0] == DELETE && p2[0] == ADD && p3[0] == DELETE && p3[1].key == 1 && p4[0].key == 2;
    assert Adds(p1) == {} && Dels(p1) == {0};
    assert Adds(p2) == {0} && Dels(p2) == {};
    assert Adds(p3) == {} && Dels(p3) == {0, 1};
    assert Adds(p4) == {2} && Dels(p4) == {};
  }

  /** The rank over the subject that is stored in version 4 with the second deletion is wrong. */
  method MisrankedRun() returns (tree: PatchTree)
    ensures tree.Valid() && tree.vocabulary == Few && tree.snapshot == {0, 1} && tree.history == [{1}, {0, 1}, {}, {2}]
    ensures tree.minPatchId == 1 && RankPlace(4, SUBJECT, 1) in tree.misranked
    ensures !RankTrue({0, 1}, 1, Few, RanksAt(tree.State().RanksOf(1), 4), SUBJECT)
  {
    hide PatchTree.Valid, ApplyPatch, WellFormedPatch, RemarkedRanks, EvenlyCounted, RankTrue, Dictionary, CountedFor;
    FewDictionary();
    FewPatches();
    tree := new PatchTree(1, Few, {0, 1, 2}, {0, 1});
    Grow(tree, [DELETE], 1, {0, 1});
    Grow(tree, [ADD], 2, {1});
    Grow(tree, [DELETE, PatchElement(1, false)], 3, {0, 1});
    assert tree.history == [{1}, {0, 1}, {}];
    ghost var t0, marked := tree.State(), tree.misranked;
    NextMisranks(tree);
    Grow(tree, [PatchElement(2, true)], 4, {});
    assert tree.history == [{1}, {0, 1}, {}, {2}];
    assert {0, 1} - {2} == {0, 1};
    Remarked(marked, t0, {0, 1}, [PatchElement(2, true)], 4, Few, {2}, RankPlace(4, SUBJECT, 1));
    SecondRankWrong(tree);
  }

  lemma NextMisranks(tree: PatchTree)
    requires tree.Valid() && tree.vocabulary == Few && tree.minPatchId == 1
    requires tree.snapshot == {0, 1} && tree.history == [{1}, {0, 1}, {}]
    ensures !EvenlyCounted({0, 1}, 1, CountedFor(tree.State(), [PatchElement(2, true)], Few), Few, SUBJECT)
  {
    hide ChainOk, Dictionary, EvenlyCounted, CountedFor;
    TreeQueryable(tree, 3);
    CountsUnevenly(StoreOf(tree), ChainOf(tree), [PatchElement(2, true)]);
    assert StoreOf(tree).Nodes() == tree.State();
  }

  lemma SecondRankWrong(tree: PatchTree)
    requires tree.Valid() && tree.vocabulary == Few && tree.minPatchId == 1 &&
             RankPlace(4, SUBJECT, 1) in tree.misranked
    requires tree.snapshot == {0, 1} && tree.history == [{1}, {0, 1}, {}, {2}]
    ensures !RankTrue({0, 1}, 1, Few, RanksAt(tree.State().RanksOf(1), 4), SUBJECT)
  {
    hide CountsTrue, Represents, RanksOk, RankTrue, RanksAt, Dictionary;
    assert {0, 1} - {2} == {0, 1};
    assert WrongRank(tree.State(), tree.snapshot, tree.history, 1, Few, RankPlace(4, SUBJECT, 1));
  }

  const OF_SUBJECT := Triple(1, BLANK, BLANK)

  /** The second deletion is the last one that matches its subject, and nothing matches in version 4. */
  lemma LastMisranked(c: Chain)
    requires c.min == 1 && c.snapshot == {0, 1} && c.history == [{1}, {0, 1}, {}, {2}]
    requires RankPlace(4, SUBJECT, 1) in c.misranked
    ensures IsPattern(OF_SUBJECT) && IsDefaultTree(OF_SUBJECT) && !LastRanked(c, Few, OF_SUBJECT, 4)
    ensures MatchesOf(Content(c, 4), Few, OF_SUBJECT) == {}
  {
    assert FieldOf(OF_SUBJECT) == SUBJECT;
    assert Lost(c, 4) == {0, 1} && MatchesOf({0, 1}, Few, OF_SUBJECT) == {0, 1};
    assert IsLastTold(c, Few, OF_SUBJECT, 4, 1);
  }

  /** So the matches of the last version, of which there are none, are counted wrongly. */
  method MiscountedRun() returns (tree: PatchTree, r: int)
    ensures tree.Valid() && tree.vocabulary == Few && tree.snapshot == {0, 1} && tree.history == [{1}, {0, 1}, {}, {2}]
    ensures MatchesOf({2}, Few, OF_SUBJECT) == {} && r != 0
  {
    hide ChainOk, Dictionary, RankTrue, RanksAt, LastRanked, MatchesOf, AdditionsBegun, LastBegun, CountTells,
         CountedUpTo, IsReducedTree;
    tree := MisrankedRun();
    TreeQueryable(tree, 4);
    LastMisranked(ChainOf(tree));
    LatestBegun(ChainOf(tree), Few, OF_SUBJECT);
    r := CountStore(StoreOf(tree), ChainOf(tree), tree.reduced, {0, 1}, OF_SUBJECT, 4);
    CountedWrongly(ChainOf(tree), r);
  }

  lemma CountedWrongly(c: Chain, r: int)
    requires CountTells(r, c, Few, OF_SUBJECT, 4) && IsDefaultTree(OF_SUBJECT) && !LastRanked(c, Few, OF_SUBJECT, 4)
    requires MatchesOf(Content(c, 4), Few, OF_SUBJECT) == {}
    ensures r != 0
  {
    hide LastRanked, IsDefaultTree, Content;
  }

  // ----- a triple that comes back

  /** Through the trees in other orders, the difference of versions 1 and 2 does not tell that the triple is back. */
  method ComesBackRun() returns (tree: PatchTree)
    ensures tree.Valid() && tree.snapshot == {0} && tree.history == [{}, {0}]
    ensures var s := StoreOf(tree);
      var f, limit := At(s, 0, DeletedBy(s, 0, 2), AddedBy(s, 0, 2)), s.maxPatchId + 1;
      && DiffVerdict(tree.reduced, s.additions, 1, 2, limit)(f) == None
      && DiffVerdict(s.deletions, s.additions, 1, 2, limit)(f) == Some(true)
  {
    hide PatchTree.Valid, ApplyPatch, WellFormedPatch, RemarkedRanks, DiffVerdict, Dictionary, At, DeletedBy, AddedBy;
    LoneDictionary();
    OnePatch(DELETE, {0});
    OnePatch(ADD, {});
    tree := new PatchTree(1, Lone, {0}, {0});
    Grow(tree, [DELETE], 1, {0});
    Grow(tree, [ADD], 2, {});
    assert tree.history == [{}, {0}];
    BackUntold(tree);
  }

  lemma BackUntold(tree: PatchTree)
    requires tree.Valid() && tree.minPatchId == 1 && tree.snapshot == {0} && tree.history == [{}, {0}]
    ensures var s := StoreOf(tree);
      var f, limit := At(s, 0, DeletedBy(s, 0, 2), AddedBy(s, 0, 2)), s.maxPatchId + 1;
      && DiffVerdict(tree.reduced, s.additions, 1, 2, limit)(f) == None
      && DiffVerdict(s.deletions, s.additions, 1, 2, limit)(f) == Some(true)
  {
    hide ChainOk, DiffVerdict, IsReducedTree, Dictionary;
    TreeQueryable(tree, 2);
    var s, c := StoreOf(tree), ChainOf(tree);
    FirstLoss(s, c, 2, 0);
    assert 0 in Lost(c, 1);
    ComesBackUntold(s, c, tree.reduced, 0, 1, 2);
  }
}
