/** A concrete store on which a compaction, with inputs chosen exactly as SetupOtherInputs chooses them, changes what
    readers see. AddBoundaryInputs is applied at the upper level only (db/version_set.cc:1407 and 1422). */
module Resurfacing {
  import opened Common
  import opened Keys
  import opened Version
  import opened Inputs
  import opened Compaction
  import opened Builder
  import opened Install
  import opened LsmStore

  const UPPER := Entry(InternalKey(1.0, 5, Value), [7])
  const LOWER := Entry(InternalKey(1.0, 4, Value), [6])
  const MARKER := Entry(InternalKey(2.0, 3, Deletion), [])
  const BURIED := Entry(InternalKey(2.0, 1, Value), [9])

  const A := File(6, 1, UPPER.key, UPPER.key, [UPPER])
  const H := File(4, 1, LOWER.key, MARKER.key, [LOWER, MARKER])
  const G := File(5, 1, BURIED.key, BURIED.key, [BURIED])
  const OUT := File(7, 1, UPPER.key, UPPER.key, [UPPER])

  /** User key 2.0 was deleted at sequence 3; its marker ends one level-3 file and its value starts the next. */
  const STORE := Store([], None, [[], [], [A], [H, G], [], [], []], 5, [], 7)
  const HISTORY := {UPPER, LOWER, MARKER, BURIED}

  lemma FilesAreOk()
    ensures FileOk(A) && FileOk(H) && FileOk(G)
    ensures SortedLevel([A]) && SortedLevel([H, G])
  {
  }

  lemma LevelContents()
    ensures forall l :: 0 <= l < NUM_LEVELS ==>
              FilesContent(STORE.levels[l]) == if l == 2 then {UPPER} else if l == 3 then {LOWER, MARKER, BURIED} else {}
  {
    assert FilesContent([]) == {};
    assert FilesContent([A]) == {UPPER} by {
      assert A in [A] && UPPER in A.entries;
    }
    assert FilesContent([H, G]) == {LOWER, MARKER, BURIED} by {
      assert H in [H, G] && G in [H, G];
      assert LOWER in H.entries && MARKER in H.entries && BURIED in G.entries;
    }
  }

  lemma StoredIsHistory()
    ensures AllContent(STORE.levels) == HISTORY && Stored(STORE) == HISTORY
  {
    LevelContents();
    forall e ensures e in AllContent(STORE.levels) <==> e in HISTORY {
      if e == UPPER { assert e in FilesContent(STORE.levels[2]); }
      if e in {LOWER, MARKER, BURIED} { assert e in FilesContent(STORE.levels[3]); }
    }
    assert Content(STORE.mem) == {} && Content(ImmRun(STORE)) == {};
  }

  lemma HistoryIsUnique()
    ensures UniqueEntries(HISTORY) && NewerFor({UPPER}, {LOWER, MARKER, BURIED})
  {
  }

  lemma AllFiles(l: nat, f: File)
    requires l < NUM_LEVELS && f in STORE.levels[l]
    ensures (l == 2 && f == A) || (l == 3 && (f == H || f == G))
  {
  }

  lemma NumbersAreOk()
    ensures NumbersUnique(STORE.levels) && NumbersAllocated(STORE)
  {
    forall l, f | 0 <= l < NUM_LEVELS && f in STORE.levels[l]
      ensures (l == 2 && f == A) || (l == 3 && (f == H || f == G))
    {
      AllFiles(l, f);
    }
  }

  lemma TwoLevelsOk(levels: Levels, up: seq<File>, low: seq<File>)
    requires levels[2] == up && levels[3] == low && forall l :: 0 <= l < NUM_LEVELS && l != 2 && l != 3 ==> levels[l] == []
    requires SortedLevel(up) && SortedLevel(low) && NewerFor(FilesContent(up), FilesContent(low))
    ensures LevelsOk(levels)
  {
    assert FilesContent([]) == {};
  }

  lemma LevelsAreOk()
    ensures LevelsOk(STORE.levels)
  {
    FilesAreOk();
    HistoryIsUnique();
    LevelContents();
    assert FilesContent(STORE.levels[2]) == {UPPER} && FilesContent(STORE.levels[3]) == {LOWER, MARKER, BURIED};
    TwoLevelsOk(STORE.levels, [A], [H, G]);
  }

  lemma VersionIsOk()
    ensures VersionOk(STORE.levels)
  {
    LevelsAreOk();
    NumbersAreOk();
    assert UniqueEntries(AllContent(STORE.levels)) by {
      HistoryIsUnique();
      StoredIsHistory();
    }
  }

  lemma StoreIsOk()
    ensures StoreOk(STORE, HISTORY)
  {
    VersionIsOk();
    NumbersAreOk();
    MemoryIsOk();
    HistoryIsOk();
  }

  lemma HistoryIsOk()
    ensures HistoryOk(STORE, HISTORY)
  {
    HistoryIsUnique();
    StoredIsHistory();
  }

  lemma StoreIsFaithful()
    ensures Faithful(STORE, HISTORY)
  {
    StoredIsHistory();
  }

  lemma MemoryIsOk()
    ensures MemoryOk(STORE)
  {
    assert Content([]) == {};
  }

  /** Whatever SetupOtherInputs starts from at level 2, it takes H without G. */
  lemma EveryChoiceSplitsTheKey(in0: seq<File>, in1: seq<File>)
    requires InputsOk(STORE.levels, 2, in0, in1)
    ensures in1 == [H] && !LowerClosed(STORE.levels, 2, in1)
    ensures InputContent(in0, in1) == {UPPER, LOWER, MARKER}
  {
    var below := STORE.levels[3];
    assert in0[0] in STORE.levels[2];
    var first, last := RangeIsTight(in0);
    assert in0[first] in STORE.levels[2] && in0[last] in STORE.levels[2];
    FilterOfInterval(below, Some(1.0), Some(1.0), 0, 1);
    assert below[0..1] == [H];
    SmallestBoundaryIsLeast(below, MARKER.key);
    assert IsBoundary(below[1], MARKER.key);
    assert FilesContent(in0) == {UPPER} by {
      assert forall f :: f in in0 ==> f == A;
      assert A in in0 && UPPER in A.entries;
    }
    assert FilesContent([H]) == {LOWER, MARKER} by {
      assert H in [H] && LOWER in H.entries && MARKER in H.entries;
    }
  }

  lemma OthersAre()
    ensures Others(STORE, 2, [A], [H]) == {BURIED}
  {
    var rest := RestContent(STORE.levels, 2, [A], [H]);
    assert rest == {BURIED} by {
      ChoiceIsOk();
      EveryChoiceSplitsTheKey([A], [H]);
      InputsAreInputs(STORE.levels, 2, [A], [H]);
      LevelsAreOk();
      ContentSplits(STORE.levels, 2, [A], [H]);
      StoredIsHistory();
      Remainder(InputContent([A], [H]), rest);
    }
    assert Content([]) == {};
  }

  lemma Remainder(inputs: set<Entry>, rest: set<Entry>)
    requires inputs == {UPPER, LOWER, MARKER} && inputs + rest == HISTORY && inputs !! rest
    ensures rest == {BURIED}
  {
    assert BURIED !in inputs && BURIED in inputs + rest;
    forall e | e in rest ensures e == BURIED {
      assert e in inputs + rest && e !in inputs;
    }
  }

  /** The compaction can run, its inputs are the code's own choice, and afterwards a deleted key reads as present. */
  lemma DeletedKeyComesBack()
    ensures StoreOk(STORE, HISTORY) && Faithful(STORE, HISTORY)
    ensures CanCompact(STORE, 2, [A], [H], [OUT])
    ensures Read(Stored(STORE), 2.0, 5) == None
    ensures Read(Stored(AfterCompact(STORE, 2, [A], [H], [OUT])), 2.0, 5) == Some([9])
  {
    StoreIsOk();
    StoreIsFaithful();
    CompactionCanRun();
    assert Stored(STORE) == HISTORY by { StoredIsHistory(); }
    AfterContent();
    ReadsDiffer();
  }

  /** A sound store on which the compaction can run. */
  ghost predicate Compacts(st: Store, history: set<Entry>, level: nat, in0: seq<File>, in1: seq<File>, outs: seq<File>) {
    exists s :: s == st && StoreOk(s, history) && CanCompact(s, level, in0, in1, outs)
  }

  lemma AfterIs(st: Store, history: set<Entry>, level: nat, in0: seq<File>, in1: seq<File>, outs: seq<File>,
                kept: set<Entry>, others: set<Entry>, both: set<Entry>)
    requires Compacts(st, history, level, in0, in1, outs)
    requires FilesContent(outs) == kept && Others(st, level, in0, in1) == others && both == kept + others
    ensures level + 1 < NUM_LEVELS && Stored(AfterCompact(st, level, in0, in1, outs)) == both
  {
    CompactStored(st, history, level, in0, in1, outs);
  }

  lemma CompactionCanRun()
    ensures CanCompact(STORE, 2, [A], [H], [OUT]) && Compacts(STORE, HISTORY, 2, [A], [H], [OUT])
  {
    StoreIsOk();
    ChoiceIsOk();
    SurvivorsAre();
  }

  lemma TwoLeft()
    ensures {UPPER, BURIED} == {UPPER} + {BURIED}
  {
  }

  lemma AfterContent()
    ensures Stored(AfterCompact(STORE, 2, [A], [H], [OUT])) == {UPPER, BURIED}
  {
    CompactionCanRun();
    OthersAre();
    OutContent();
    TwoLeft();
    AfterIs(STORE, HISTORY, 2, [A], [H], [OUT], {UPPER}, {BURIED}, {UPPER, BURIED});
  }

  lemma OutContent()
    ensures FilesContent([OUT]) == {UPPER}
  {
    assert OUT in [OUT] && UPPER in OUT.entries;
  }

  lemma ReadsDiffer()
    ensures Read(HISTORY, 2.0, 5) == None && Read({UPPER, BURIED}, 2.0, 5) == Some([9])
    ensures !SameReads({UPPER, BURIED}, HISTORY, 2.0, 5)
  {
    HistoryIsUnique();
    assert Newest(HISTORY, 2.0, 5, MARKER);
    ReadIsNewest(HISTORY, 2.0, 5, MARKER);
    assert Newest({UPPER, BURIED}, 2.0, 5, BURIED);
    ReadIsNewest({UPPER, BURIED}, 2.0, 5, BURIED);
  }

  lemma ChoiceIsOk()
    ensures InputsOk(STORE.levels, 2, [A], [H])
  {
    var below := STORE.levels[3];
    FilterOfInterval(below, Some(1.0), Some(1.0), 0, 1);
    assert below[0..1] == [H];
  }

  lemma OnlyUpperSurvives(levels: Levels)
    requires BaseLevelForKey(levels, 2, 2.0)
    ensures Survivors({UPPER, LOWER, MARKER}, 5, levels, 2) == {UPPER}
  {
    var inputs := {UPPER, LOWER, MARKER};
    assert Hidden(inputs, LOWER, 5) by { assert UPPER in inputs; }
    assert Obsolete(MARKER, 5, true);
    assert !Hidden(inputs, UPPER, 5);
  }

  lemma SurvivorsAre()
    ensures OutputsFor(STORE, 2, [A], [H], [OUT])
  {
    ChoiceIsOk();
    EveryChoiceSplitsTheKey([A], [H]);
    OnlyUpperSurvives(STORE.levels);
    OutContent();
  }

  // ------------------------------------------------------------------ how a database gets there

  const GONE := Entry(InternalKey(3.0, 2, Deletion), [])
  const FIRST := File(3, 1, LOWER.key, GONE.key, [LOWER, MARKER, BURIED, GONE])

  const S0 := EmptyStore(3)
  const S1 := S0.(mem := [BURIED], lastSequence := 1)
  const S2 := S0.(mem := [BURIED, GONE], lastSequence := 2)
  const S3 := S2.(snapshots := [2])
  const S4 := S3.(mem := [MARKER, BURIED, GONE], lastSequence := 3)
  const S5 := S3.(mem := [LOWER, MARKER, BURIED, GONE], lastSequence := 4)
  const S6 := S5.(mem := [], imm := Some(S5.mem))
  const S7 := S6.(imm := None, nextFile := 4, levels := [[], [], [FIRST], [], [], [], []])
  const S8 := S7.(nextFile := 6, levels := [[], [], [], [H, G], [], [], []])
  const S9 := S8.(snapshots := [])
  const S10 := S9.(mem := [UPPER], lastSequence := 5)
  const S11 := S9.(mem := [], imm := Some([UPPER]), lastSequence := 5)

  /** Two writes, a snapshot between them and two more; the memtable goes to level 2 and a compaction, which the snapshot
      forces to keep both entries of user key 2.0, splits it in two files; the snapshot goes, and a newer write reaches
      level 2. */
  const EVENTS: seq<Event> := [
    Write([Op(2.0, Value, [9])]), Write([Op(3.0, Deletion, [])]), TakeSnapshot, Write([Op(2.0, Deletion, [])]),
    Write([Op(1.0, Value, [6])]), SwitchMemtable, FlushMemtable(2, 1), Compact(2, [FIRST], [], [H, G]), ReleaseSnapshot(0),
    Write([Op(1.0, Value, [7])]), SwitchMemtable, FlushMemtable(2, 1)]

  const STATES := [S0, S1, S2, S3, S4, S5, S6, S7, S8, S9, S10, S11, STORE]

  lemma WriteOne(st: Store, op: Op, r: nat, e: Entry)
    requires r <= |st.mem| && st.lastSequence + 1 < MAX_SEQUENCE
    requires e == Entry(InternalKey(op.user, st.lastSequence + 1, op.kind), op.value)
    requires forall i :: 0 <= i < r ==> Less(st.mem[i].key, e.key)
    requires r < |st.mem| ==> !Less(st.mem[r].key, e.key)
    requires Sorted(st.mem)
    ensures AfterWrite(st, [op]) == st.(mem := st.mem[..r] + [e] + st.mem[r..], lastSequence := st.lastSequence + 1)
  {
    var batch := BatchEntries([op], st.lastSequence + 1);
    assert batch == [e] && batch[..|batch| - 1] == [];
    LowerBoundUnique(st.mem, e.key, r);
    assert InsertAll(st.mem, batch) == Insert(st.mem, e);
  }

  lemma WriteBuried()
    ensures AfterWrite(S0, [Op(2.0, Value, [9])]) == S1
  {
    WriteOne(S0, Op(2.0, Value, [9]), 0, BURIED);
  }

  lemma WriteGone()
    ensures AfterWrite(S1, [Op(3.0, Deletion, [])]) == S2
  {
    WriteOne(S1, Op(3.0, Deletion, []), 1, GONE);
  }

  lemma WriteMarker()
    ensures AfterWrite(S3, [Op(2.0, Deletion, [])]) == S4
  {
    WriteOne(S3, Op(2.0, Deletion, []), 0, MARKER);
  }

  lemma WriteLower()
    ensures AfterWrite(S4, [Op(1.0, Value, [6])]) == S5
  {
    WriteOne(S4, Op(1.0, Value, [6]), 0, LOWER);
  }

  lemma WriteUpper()
    ensures AfterWrite(S9, [Op(1.0, Value, [7])]) == S10
  {
    WriteOne(S9, Op(1.0, Value, [7]), 0, UPPER);
  }

  /** Any flush of a memtable to an empty level 2. */
  lemma FlushAlone(st: Store, run: seq<Entry>, f: File)
    requires st.imm == Some(run) && run != [] && f == TableOf(run, st.nextFile, 1)
    requires st.levels[0] == [] && st.levels[1] == [] && st.levels[2] == []
    ensures CanFlush(st, 2, 1)
    ensures AfterFlush(st, 2, 1) == st.(imm := None, nextFile := st.nextFile + 1, levels := st.levels[2 := [f]])
  {
    assert [f][1..] == [] && Undeleted([f], {}) == [f];
    assert SaveLevel([], [f], {}) == Undeleted([f], {}) + SaveLevel([], [], {});
  }

  lemma FirstChoiceIsOk()
    ensures InputsOk(S7.levels, 2, [FIRST], [])
  {
    assert [FIRST][0] == FIRST;
  }

  lemma FirstContents()
    ensures FilesContent([FIRST]) == {LOWER, MARKER, BURIED, GONE} && FilesContent([]) == {}
    ensures FilesContent([H, G]) == {LOWER, MARKER, BURIED}
  {
    assert FIRST in [FIRST] && LOWER in FIRST.entries && MARKER in FIRST.entries && BURIED in FIRST.entries && GONE in FIRST.entries;
    assert H in [H, G] && G in [H, G] && LOWER in H.entries && MARKER in H.entries && BURIED in G.entries;
  }

  /** The snapshot at 2 keeps the buried value, and nothing keeps the marker of user key 3.0. */
  lemma FirstSurvivors(levels: Levels)
    requires BaseLevelForKey(levels, 2, 3.0)
    ensures Survivors({LOWER, MARKER, BURIED, GONE}, 2, levels, 2) == {LOWER, MARKER, BURIED}
  {
    var inputs := {LOWER, MARKER, BURIED, GONE};
    assert !Hidden(inputs, LOWER, 2) && !Hidden(inputs, MARKER, 2) && !Hidden(inputs, BURIED, 2);
    assert Obsolete(GONE, 2, true);
  }

  lemma FirstInput()
    ensures InputContent([FIRST], []) == {LOWER, MARKER, BURIED, GONE}
  {
    FirstContents();
  }

  lemma FirstOutputs()
    ensures FilesContent([H, G]) == Survivors(InputContent([FIRST], []), SmallestSnapshot(S7), S7.levels, 2)
  {
    FirstInput();
    FirstContents();
    FirstSurvivors(S7.levels);
  }

  lemma OutputsAre(st: Store, level: nat, in0: seq<File>, in1: seq<File>, a: File, b: File)
    requires SortedLevel([a, b]) && a.number == st.nextFile && b.number == st.nextFile + 1
    requires FilesContent([a, b]) == Survivors(InputContent(in0, in1), SmallestSnapshot(st), st.levels, level)
    ensures OutputsFor(st, level, in0, in1, [a, b])
  {
  }

  lemma FirstCompaction()
    ensures CanCompact(S7, 2, [FIRST], [], [H, G])
  {
    FirstChoiceIsOk();
    FilesAreOk();
    FirstOutputs();
    OutputsAre(S7, 2, [FIRST], [], H, G);
  }

  lemma OnlyAdded(a: File, b: File)
    ensures SaveLevel([], [a, b], {}) == [a, b]
  {
    NothingDeleted([a]);
    NothingDeleted([b]);
    assert [a, b][1..] == [b] && [b][1..] == [];
    assert SaveLevel([], [b], {}) == Undeleted([b], {}) + SaveLevel([], [], {});
    assert SaveLevel([], [a, b], {}) == Undeleted([a], {}) + SaveLevel([], [b], {});
  }

  lemma OnlyDeleted(f: File, deleted: set<nat>)
    requires f.number in deleted
    ensures SaveLevel([f], [], deleted) == []
  {
    assert [f][1..] == [] && Undeleted([], deleted) == [];
    assert Undeleted([f], deleted) == [] + Undeleted([f][1..], deleted);
    assert SaveLevel([f], [], deleted) == Undeleted([f], deleted);
  }

  lemma CompactOnly(st: Store, f: File, a: File, b: File)
    requires st.levels[2] == [f] && st.levels[3] == []
    ensures AfterCompact(st, 2, [f], [], [a, b]) == st.(levels := st.levels[2 := []][3 := [a, b]], nextFile := st.nextFile + 2)
  {
    assert f in [f] && f.number in Numbers([f]) && Numbers([]) == {};
    OnlyDeleted(f, Numbers([f]));
    OnlyAdded(a, b);
  }

  lemma FirstInstalled()
    ensures AfterCompact(S7, 2, [FIRST], [], [H, G]) == S8
  {
    CompactOnly(S7, FIRST, H, G);
  }

  lemma {:induction false} Chain(states: seq<Store>, events: seq<Event>)
    requires |states| == |events| + 1
    requires forall i :: 0 <= i < |events| ==> Enabled(states[i], events[i]) && Apply(states[i], events[i]) == states[i + 1]
    ensures RunEnabled(states[0], events) && EndOfRun(states[0], events) == states[|events|]
  {
    if events != [] {
      forall i | 0 <= i < |events| - 1
        ensures Enabled(states[1..][i], events[1..][i]) && Apply(states[1..][i], events[1..][i]) == states[1..][i + 1]
      {
        assert Enabled(states[i + 1], events[i + 1]);
      }
      Chain(states[1..], events[1..]);
    }
  }

  lemma EarlyStep(i: nat)
    requires i < 6
    ensures Enabled(STATES[i], EVENTS[i]) && Apply(STATES[i], EVENTS[i]) == STATES[i + 1]
  {
    if i == 0 { WriteBuried(); }
    else if i == 1 { WriteGone(); }
    else if i == 3 { WriteMarker(); }
    else if i == 4 { WriteLower(); }
  }

  lemma LateStep(i: nat)
    requires 6 <= i < |EVENTS|
    ensures Enabled(STATES[i], EVENTS[i]) && Apply(STATES[i], EVENTS[i]) == STATES[i + 1]
  {
    if i == 6 { FlushAlone(S6, S5.mem, FIRST); }
    else if i == 7 { FirstCompaction(); FirstInstalled(); }
    else if i == 9 { WriteUpper(); }
    else if i == 11 { FlushAlone(S11, [UPPER], A); }
  }

  /** A run from the empty database, with the levels PickLevelForMemTableOutput picks, ends in the store on which the
      deleted key comes back. */
  lemma StoreIsReached()
    ensures RunEnabled(EmptyStore(3), EVENTS) && EndOfRun(EmptyStore(3), EVENTS) == STORE
  {
    forall i | 0 <= i < |EVENTS| ensures Enabled(STATES[i], EVENTS[i]) && Apply(STATES[i], EVENTS[i]) == STATES[i + 1] {
      if i < 6 { EarlyStep(i); } else { LateStep(i); }
    }
    Chain(STATES, EVENTS);
  }
}
