/** DBImpl::NewIterator: a cursor over everything the store holds, read at one sequence number (db/db_impl.cc,
    db/version_set.cc). */
module NewIterator {
  import opened Common
  import opened Keys
  import opened Version
  import opened Compaction
  import opened Install
  import opened Merger
  import opened LsmStore
  import opened Db
  import opened DbIter

  // ------------------------------------------------------------------ the runs under the merging iterator

  /** A sorted level read file after file, as its two-level iterator does. */
  function Concat(files: seq<File>): seq<Entry> {
    if files == [] then [] else Concat(files[..|files| - 1]) + files[|files| - 1].entries
  }

  /** The levels from 1 up to `upto`, one run each. */
  function LevelRuns(levels: Levels, upto: nat): seq<seq<Entry>>
    requires upto < NUM_LEVELS
  {
    if upto == 0 then [] else LevelRuns(levels, upto - 1) + [Concat(levels[upto])]
  }

  function ImmRuns(st: Store): seq<seq<Entry>> {
    if st.imm.Some? then [st.imm.value] else []
  }

  /** NewInternalIterator: the memtable, the immutable memtable, the files of level 0, the other levels. */
  function StoreRuns(st: Store): seq<seq<Entry>> {
    [st.mem] + ImmRuns(st) + Runs(st.levels[0]) + LevelRuns(st.levels, NUM_LEVELS - 1)
  }

  ghost function RunsContent(runs: seq<seq<Entry>>): set<Entry> {
    set i, e | 0 <= i < |runs| && e in runs[i] :: e
  }

  ghost predicate KeysApart(a: set<Entry>, b: set<Entry>) {
    forall x, y :: x in a && y in b ==> x.key != y.key
  }

  lemma NewerIsApart(a: set<Entry>, b: set<Entry>)
    requires NewerFor(a, b)
    ensures KeysApart(a, b)
  {
  }

  /** Sorted runs that share no key and together hold `content`. */
  ghost predicate RunsHold(runs: seq<seq<Entry>>, content: set<Entry>) {
    exists c :: c == content && DistinctRuns(runs) && HoldsExactly(runs, c)
  }

  ghost predicate HoldsExactly(runs: seq<seq<Entry>>, content: set<Entry>) {
    RunsContent(runs) == content
  }

  lemma AppendRuns(a: seq<seq<Entry>>, b: seq<seq<Entry>>, x: set<Entry>, y: set<Entry>)
    requires RunsHold(a, x) && RunsHold(b, y) && KeysApart(x, y)
    ensures RunsHold(a + b, x + y)
  {
    AppendDistinct(a, b);
    AppendContent(a, b);
    assert HoldsExactly(a + b, x + y);
  }

  lemma AppendDistinct(a: seq<seq<Entry>>, b: seq<seq<Entry>>)
    requires DistinctRuns(a) && DistinctRuns(b) && KeysApart(RunsContent(a), RunsContent(b))
    ensures DistinctRuns(a + b)
  {
    var all := a + b;
    forall i, j, x: Entry, y: Entry | 0 <= i < j < |all| && x in all[i] && y in all[j] ensures x.key != y.key {
      if i < |a| && j >= |a| {
        assert x in RunsContent(a) && all[j] == b[j - |a|] && y in RunsContent(b);
      }
    }
  }

  lemma AppendContent(a: seq<seq<Entry>>, b: seq<seq<Entry>>)
    ensures RunsContent(a + b) == RunsContent(a) + RunsContent(b)
  {
    var all := a + b;
    forall e | e in RunsContent(a) + RunsContent(b) ensures e in RunsContent(all) {
      if e in RunsContent(a) {
        var i :| 0 <= i < |a| && e in a[i];
        assert all[i] == a[i];
      } else {
        var i :| 0 <= i < |b| && e in b[i];
        assert all[|a| + i] == b[i];
      }
    }
  }

  lemma OneRun(run: seq<Entry>)
    requires Sorted(run)
    ensures RunsHold([run], Content(run))
  {
    forall e | e in Content(run) ensures e in RunsContent([run]) {
      assert e in [run][0];
    }
    assert HoldsExactly([run], Content(run));
  }

  lemma NoRun()
    ensures RunsHold([], {})
  {
    assert HoldsExactly([], {});
  }

  lemma {:induction false} ConcatMembers(files: seq<File>)
    ensures Content(Concat(files)) == FilesContent(files)
  {
    if files != [] {
      var n := |files| - 1;
      ConcatMembers(files[..n]);
      assert files == files[..n] + [files[n]];
      forall e ensures e in Content(Concat(files)) <==> e in FilesContent(files) {
        assert e in Content(Concat(files)) <==> e in Content(Concat(files[..n])) || e in files[n].entries;
      }
    }
  }

  lemma {:induction false} ConcatSorted(files: seq<File>)
    requires SortedLevel(files)
    ensures Sorted(Concat(files))
  {
    if files != [] {
      var n := |files| - 1;
      var front, last := files[..n], files[n];
      ConcatSorted(front);
      ConcatMembers(front);
      assert last in files && FileOk(last);
      forall x, y | x in Concat(front) && y in last.entries ensures Less(x.key, y.key) {
        assert x in FilesContent(front);
        var f :| f in front && x in f.entries;
        FileBefore(files, f, x, y);
      }
      JoinSorted(Concat(front), last.entries);
    }
  }

  /** Everything in a file sorts before everything in a later file. */
  lemma FileBefore(files: seq<File>, f: File, x: Entry, y: Entry)
    requires SortedLevel(files) && files != [] && f in files[..|files| - 1] && x in f.entries && y in files[|files| - 1].entries
    ensures Less(x.key, y.key)
  {
    var n := |files| - 1;
    var i :| 0 <= i < n && files[i] == f;
    assert f in files && files[n] in files;
    EntryWithinFile(f, x);
    EntryWithinFile(files[n], y);
    assert Less(f.largest, files[n].smallest);
  }

  lemma JoinSorted(a: seq<Entry>, b: seq<Entry>)
    requires Sorted(a) && Sorted(b) && forall x, y :: x in a && y in b ==> Less(x.key, y.key)
    ensures Sorted(a + b)
  {
  }

  /** The entries of the levels from 1 up to `upto`. */
  ghost function LevelsContent(levels: Levels, upto: nat): set<Entry>
    requires upto < NUM_LEVELS
  {
    if upto == 0 then {} else LevelsContent(levels, upto - 1) + FilesContent(levels[upto])
  }

  lemma {:induction false} LevelsApart(levels: Levels, upto: nat, m: nat)
    requires LevelsOk(levels) && upto < m < NUM_LEVELS
    ensures KeysApart(LevelsContent(levels, upto), FilesContent(levels[m]))
  {
    if upto > 0 {
      LevelsApart(levels, upto - 1, m);
      NewerIsApart(FilesContent(levels[upto]), FilesContent(levels[m]));
    }
  }

  lemma {:induction false} ZeroApart(levels: Levels, upto: nat)
    requires LevelsOk(levels) && upto < NUM_LEVELS
    ensures KeysApart(FilesContent(levels[0]), LevelsContent(levels, upto))
  {
    if upto > 0 {
      ZeroApart(levels, upto - 1);
      NewerIsApart(FilesContent(levels[0]), FilesContent(levels[upto]));
    }
  }

  lemma {:induction false} LevelRunsOk(levels: Levels, upto: nat)
    requires LevelsOk(levels) && upto < NUM_LEVELS
    ensures RunsHold(LevelRuns(levels, upto), LevelsContent(levels, upto))
  {
    if upto == 0 {
      NoRun();
    } else {
      LevelRunsOk(levels, upto - 1);
      ConcatSorted(levels[upto]);
      ConcatMembers(levels[upto]);
      OneRun(Concat(levels[upto]));
      LevelsApart(levels, upto - 1, upto);
      AppendRuns(LevelRuns(levels, upto - 1), [Concat(levels[upto])], LevelsContent(levels, upto - 1), FilesContent(levels[upto]));
    }
  }

  lemma LevelZeroRuns(levels: Levels)
    requires VersionOk(levels)
    ensures RunsHold(Runs(levels[0]), FilesContent(levels[0]))
  {
    var files := levels[0];
    forall i | 0 <= i < |files| ensures Sorted(Runs(files)[i]) { assert FileOk(files[i]); }
    forall i, j, a: Entry, b: Entry | 0 <= i < j < |files| && a in Runs(files)[i] && b in Runs(files)[j] ensures a.key != b.key {
      assert files[i].number != files[j].number;
      FilesShareNoKey(levels, 0, files[i], 0, files[j], a, b);
    }
    forall e | e in FilesContent(files) ensures e in RunsContent(Runs(files)) {
      var f :| f in files && e in f.entries;
      var i :| 0 <= i < |files| && files[i] == f;
      assert e in Runs(files)[i];
    }
    assert HoldsExactly(Runs(files), FilesContent(files));
  }

  lemma {:induction false} ContentByLevel(levels: Levels, upto: nat)
    requires upto < NUM_LEVELS
    ensures forall e :: e in LevelsContent(levels, upto) <==> exists l :: 1 <= l <= upto && e in FilesContent(levels[l])
  {
    if upto > 0 { ContentByLevel(levels, upto - 1); }
  }

  lemma VersionRuns(levels: Levels)
    requires VersionOk(levels)
    ensures RunsHold(Runs(levels[0]) + LevelRuns(levels, NUM_LEVELS - 1), AllContent(levels))
  {
    LevelZeroRuns(levels);
    LevelRunsOk(levels, NUM_LEVELS - 1);
    ZeroApart(levels, NUM_LEVELS - 1);
    ContentByLevel(levels, NUM_LEVELS - 1);
    assert AllContent(levels) == FilesContent(levels[0]) + LevelsContent(levels, NUM_LEVELS - 1);
    AppendRuns(Runs(levels[0]), LevelRuns(levels, NUM_LEVELS - 1), FilesContent(levels[0]), LevelsContent(levels, NUM_LEVELS - 1));
  }

  lemma MemoryRuns(st: Store)
    requires Sorted(ImmRun(st))
    ensures RunsHold(ImmRuns(st), Content(ImmRun(st)))
  {
    NoRun();
    OneRun(ImmRun(st));
  }

  /** The runs share no key, and together they hold what the store holds. */
  lemma StoreRunsOk(st: Store)
    requires VersionOk(st.levels) && MemoryOk(st)
    ensures RunsHold(StoreRuns(st), Stored(st))
  {
    var disk, imm, all := Runs(st.levels[0]) + LevelRuns(st.levels, NUM_LEVELS - 1), Content(ImmRun(st)), AllContent(st.levels);
    VersionRuns(st.levels);
    MemoryRuns(st);
    OneRun(st.mem);
    NewerIsApart(imm, all);
    AppendRuns(ImmRuns(st), disk, imm, all);
    NewerIsApart(Content(st.mem), imm + all);
    AppendRuns([st.mem], ImmRuns(st) + disk, Content(st.mem), imm + all);
    StoreRunsSplit(st, ImmRuns(st) + disk, imm + all);
  }

  lemma StoreRunsSplit(st: Store, older: seq<seq<Entry>>, rest: set<Entry>)
    requires older == ImmRuns(st) + (Runs(st.levels[0]) + LevelRuns(st.levels, NUM_LEVELS - 1))
    requires rest == Content(ImmRun(st)) + AllContent(st.levels)
    ensures StoreRuns(st) == [st.mem] + older && Stored(st) == Content(st.mem) + rest
  {
  }

  // ------------------------------------------------------------------ what the iterator shows

  lemma MergedIsStored(st: Store, history: set<Entry>, merged: seq<Entry>)
    requires StoreOk(st, history) && IsMerge(StoreRuns(st), merged)
    ensures Content(merged) == Stored(st) && RunOk(merged)
  {
    StoreRunsOk(st);
    forall e ensures e in merged <==> e in RunsContent(StoreRuns(st)) {
    }
    UniqueSubset(history, Stored(st));
  }

  /** An iterator at a sequence number some reader still holds shows, key by key, what the whole history says. */
  lemma IteratorIsFaithful(st: Store, history: set<Entry>, merged: seq<Entry>, s: SequenceNumber, user: UserKey)
    requires StoreOk(st, history) && Faithful(st, history) && IsMerge(StoreRuns(st), merged)
    requires SmallestSnapshot(st) <= s
    ensures RunOk(merged) && Read(Content(merged), user, s) == Read(history, user, s)
  {
    MergedIsStored(st, history, merged);
    assert SameReads(Stored(st), history, user, SmallestSnapshot(st));
  }

  method NewInternalIterator(st: Store, ghost history: set<Entry>) returns (internal: MergingIterator)
    requires StoreOk(st, history)
    ensures internal.Valid() && internal.current == -1 && IsMerge(StoreRuns(st), internal.merged)
    ensures Content(internal.merged) == Stored(st) && RunOk(internal.merged)
  {
    var runs := StoreRuns(st);
    StoreRunsOk(st);
    var children := MakeCursors(runs);
    MergeAllMerges(runs);
    internal := new MergingIterator(children, MergeAll(runs));
    MergedIsStored(st, history, internal.merged);
  }

  // ------------------------------------------------------------------ the merging iterator and a cursor on the union

  datatype Move = ToFirst | ToLast | To(target: InternalKey) | Forward | Backward

  /** A merging iterator and a cursor on the union of its children stand at the same entry. */
  ghost predicate InStep(internal: MergingIterator, cursor: Cursor)
    reads internal, internal.children, cursor
  {
    && internal.Valid() && cursor.Ok() && cursor !in internal.children && cursor.entries == internal.merged
    && internal.Pos() == cursor.pos
  }

  /** So both are valid or neither is, and both show the same key and value. */
  lemma InStepShowsTheSame(internal: MergingIterator, cursor: Cursor)
    requires InStep(internal, cursor)
    ensures internal.current >= 0 <==> cursor.IsValid()
    ensures cursor.IsValid() ==>
              var child := internal.children[internal.current];
              child.IsValid() && child.entries[child.pos] == cursor.entries[cursor.pos]
  {
    if internal.current >= 0 {
      internal.CurrentInUnion();
      assert internal.merged[internal.Pos()] == internal.children[internal.current].entries[internal.children[internal.current].pos];
    }
  }

  /** Whatever the database iterator asks of its cursor, the merging iterator does alike. */
  method MoveBoth(internal: MergingIterator, cursor: Cursor, move: Move)
    requires InStep(internal, cursor) && (move.Forward? || move.Backward? ==> cursor.IsValid())
    modifies internal, internal.children, cursor
    ensures InStep(internal, cursor)
  {
    InStepShowsTheSame(internal, cursor);
    match move
    case ToFirst => internal.SeekToFirst(); cursor.SeekToFirst();
    case ToLast => internal.SeekToLast(); cursor.SeekToLast();
    case To(target) => internal.Seek(target); cursor.Seek(target);
    case Forward => internal.Next(); cursor.Next();
    case Backward => internal.Prev(); cursor.Prev();
  }

  /** The iterator a caller gets, over a cursor on the union the merging iterator runs through: its view is the store's
      answer for every user key, and for a live snapshot the history's. */
  method Create(st: Store, s: SequenceNumber, ghost history: set<Entry>) returns (internal: MergingIterator, iter: DBIter)
    requires StoreOk(st, history)
    ensures InStep(internal, iter.iter) && IsMerge(StoreRuns(st), internal.merged)
    ensures iter.Valid() && !iter.valid && iter.sequence == s && iter.iter.entries == internal.merged
    ensures forall user: UserKey :: iter.View(user) == Read(Stored(st), user, s)
    ensures Faithful(st, history) && SmallestSnapshot(st) <= s ==> forall user: UserKey :: iter.View(user) == Read(history, user, s)
  {
    internal := NewInternalIterator(st, history);
    var union := MergeAll(StoreRuns(st));
    StoreRunsOk(st);
    MergeAllMerges(StoreRuns(st));
    MergedIsStored(st, history, union);
    MergeUnique(StoreRuns(st), union, internal.merged);
    var cursor := new Cursor(union);
    iter := new DBIter(cursor, s);
    if Faithful(st, history) && SmallestSnapshot(st) <= s {
      forall user: UserKey ensures iter.View(user) == Read(history, user, s) {
        IteratorIsFaithful(st, history, union, s, user);
      }
    }
  }

  /** A sorted run is determined by its entries. */
  lemma SortedUnique(a: seq<Entry>, b: seq<Entry>)
    requires Sorted(a) && Sorted(b) && forall e :: e in a <==> e in b
    ensures a == b
  {
    IncreasingUnique((d: Entry, e: Entry) => Less(d.key, e.key), a, b);
  }

  lemma MergeUnique(runs: seq<seq<Entry>>, a: seq<Entry>, b: seq<Entry>)
    requires IsMerge(runs, a) && IsMerge(runs, b)
    ensures a == b
  {
    SortedUnique(a, b);
  }
}
