/** DBImpl: the operations of the store as the code performs them, each tied to its step of the state machine
    (db/db_impl.cc). */
module Db {
  import opened Common
  import opened Keys
  import opened Version
  import opened Inputs
  import opened Compaction
  import opened CompactionJob
  import opened Builder
  import opened Install
  import opened Merger
  import opened LsmStore

  // ------------------------------------------------------------------ merging the input files of a compaction

  function Runs(files: seq<File>): seq<seq<Entry>> {
    seq(|files|, i requires 0 <= i < |files| => files[i].entries)
  }

  function MergeAll(runs: seq<seq<Entry>>): seq<Entry> {
    if runs == [] then []
    else InsertAll(MergeAll(runs[..|runs| - 1]), runs[|runs| - 1])
  }

  lemma {:induction false} InsertRun(run: seq<Entry>, batch: seq<Entry>)
    requires Sorted(run) && Sorted(batch)
    requires forall x, y :: x in run && y in batch ==> x.key != y.key
    ensures Sorted(InsertAll(run, batch)) && Content(InsertAll(run, batch)) == Content(run) + Content(batch)
  {
    if batch != [] {
      var n := |batch| - 1;
      var prefix, last := batch[..n], batch[n];
      FrontAndLast(batch);
      InsertRun(run, prefix);
      var sofar := InsertAll(run, prefix);
      forall x | x in sofar ensures x.key != last.key {
        assert x in Content(sofar);
        if x in prefix { LastIsApart(batch, x); }
      }
      InsertKeepsRun(sofar, last);
    }
  }

  lemma FrontAndLast(batch: seq<Entry>)
    requires Sorted(batch) && batch != []
    ensures var front, last := batch[..|batch| - 1], batch[|batch| - 1];
            Sorted(front) && Content(batch) == Content(front) + {last} && forall y :: y in front ==> y in batch
  {
    assert batch == batch[..|batch| - 1] + [batch[|batch| - 1]];
  }

  lemma LastIsApart(batch: seq<Entry>, x: Entry)
    requires Sorted(batch) && batch != [] && x in batch[..|batch| - 1]
    ensures x.key != batch[|batch| - 1].key
  {
    var n := |batch| - 1;
    var j :| 0 <= j < n && batch[j] == x;
    assert Less(batch[j].key, batch[n].key);
  }

  lemma {:induction false} MergeAllMerges(runs: seq<seq<Entry>>)
    requires DistinctRuns(runs)
    ensures IsMerge(runs, MergeAll(runs))
  {
    if runs != [] {
      var n := |runs| - 1;
      var front := runs[..n];
      MergeAllMerges(front);
      var sofar := MergeAll(front);
      forall x, y | x in sofar && y in runs[n] ensures x.key != y.key {
        var i :| 0 <= i < |front| && x in front[i];
        assert runs[i] == front[i];
      }
      InsertRun(sofar, runs[n]);
      MergeGrows(runs, sofar);
    }
  }

  lemma MergeGrows(runs: seq<seq<Entry>>, sofar: seq<Entry>)
    requires runs != [] && IsMerge(runs[..|runs| - 1], sofar)
    requires Sorted(InsertAll(sofar, runs[|runs| - 1]))
    requires Content(InsertAll(sofar, runs[|runs| - 1])) == Content(sofar) + Content(runs[|runs| - 1])
    ensures IsMerge(runs, InsertAll(sofar, runs[|runs| - 1]))
  {
    var n := |runs| - 1;
    var front, all := runs[..n], InsertAll(sofar, runs[n]);
    forall e ensures e in all <==> e in sofar || e in runs[n] {
      assert e in all <==> e in Content(all);
    }
    forall i, e | 0 <= i < |runs| && e in runs[i] ensures e in all {
      if i < n { assert front[i] == runs[i]; }
    }
    forall e | e in all ensures exists i :: 0 <= i < |runs| && e in runs[i] {
      if e in sofar {
        var i :| 0 <= i < |front| && e in front[i];
        assert runs[i] == front[i];
      }
    }
  }

  lemma FilesShareNoKey(levels: Levels, l: nat, f: File, m: nat, g: File, a: Entry, b: Entry)
    requires VersionOk(levels) && l < NUM_LEVELS && m < NUM_LEVELS && f in levels[l] && g in levels[m]
    requires a in f.entries && b in g.entries && !(l == m && f == g)
    ensures a.key != b.key
  {
    if a.key == b.key {
      assert a in FilesContent(levels[l]) && b in FilesContent(levels[m]);
      LevelInAll(levels);
      assert a == b;
      OneOwner(levels, l, f, m, g, a);
    }
  }

  /** Files of a version never share an internal key. */
  lemma FilesAreDistinctRuns(levels: Levels, level: nat, in0: seq<File>, in1: seq<File>)
    requires VersionOk(levels) && InputsOk(levels, level, in0, in1)
    ensures DistinctRuns(Runs(in0 + in1))
  {
    var files := in0 + in1;
    InputsAreInputs(levels, level, in0, in1);
    LowerInputsDistinct(levels, level, in0, in1);
    forall i | 0 <= i < |files| ensures files[i] in levels[if i < |in0| then level else level + 1] {
      if i < |in0| {
        assert files[i] == in0[i] && in0[i] in in0;
      } else {
        assert files[i] == in1[i - |in0|] && in1[i - |in0|] in in1;
      }
    }
    forall i | 0 <= i < |files| ensures Sorted(Runs(files)[i]) {
      assert FileOk(files[i]);
    }
    forall i, j, a, b | 0 <= i < j < |files| && a in Runs(files)[i] && b in Runs(files)[j] ensures a.key != b.key {
      var l, m := if i < |in0| then level else level + 1, if j < |in0| then level else level + 1;
      FilesShareNoKey(levels, l, files[i], m, files[j], a, b);
    }
  }

  method MakeCursors(runs: seq<seq<Entry>>) returns (children: seq<Cursor>)
    requires DistinctRuns(runs)
    ensures |children| == |runs| && forall i :: 0 <= i < |runs| ==> fresh(children[i]) && children[i].Ok()
    ensures forall i, j :: 0 <= i < j < |children| ==> children[i] != children[j]
    ensures EntriesOf(children) == runs
  {
    children := [];
    for i := 0 to |runs|
      invariant |children| == i
      invariant forall a :: 0 <= a < i ==> fresh(children[a]) && children[a].Ok() && children[a].entries == runs[a]
      invariant forall a, b :: 0 <= a < b < i ==> children[a] != children[b]
    {
      var c := new Cursor(runs[i]);
      children := children + [c];
    }
  }

  /** MakeInputIterator drained from SeekToFirst: the sorted union of the input files. */
  method MergeInputs(files: seq<File>) returns (input: seq<Entry>)
    requires DistinctRuns(Runs(files))
    ensures IsMerge(Runs(files), input)
  {
    var children := MakeCursors(Runs(files));
    MergeAllMerges(Runs(files));
    var iter := new MergingIterator(children, MergeAll(Runs(files)));
    input := Drain(iter);
  }

  method Drain(iter: MergingIterator) returns (input: seq<Entry>)
    requires iter.Valid()
    modifies iter, iter.children
    ensures input == iter.merged
  {
    input := [];
    iter.SeekToFirst();
    while iter.current >= 0
      invariant iter.Valid()
      invariant iter.Pos() <= |iter.merged| && input == iter.merged[..iter.Pos()]
      decreases |iter.merged| - iter.Pos()
    {
      iter.CurrentInUnion();
      var child := iter.children[iter.current];
      input := input + [child.entries[child.pos]];
      iter.Next();
    }
  }

  // ------------------------------------------------------------------ outputs as files

  /** One file for each output table, numbered in the order they were opened. */
  function OutputFiles(outputs: seq<seq<Entry>>, number: nat, fileSize: seq<Entry> -> nat): (files: seq<File>)
    requires forall k :: 0 <= k < |outputs| ==> outputs[k] != []
    ensures |files| == |outputs|
    ensures forall k :: 0 <= k < |outputs| ==> files[k].entries == outputs[k] && files[k].number == number + k
    ensures forall k :: 0 <= k < |outputs| ==> files[k].smallest == outputs[k][0].key
    ensures forall k :: 0 <= k < |outputs| ==> files[k].largest == outputs[k][|outputs[k]| - 1].key
  {
    if outputs == [] then []
    else
      var n := |outputs| - 1;
      OutputFiles(outputs[..n], number, fileSize) + [TableOf(outputs[n], number + n, fileSize(outputs[n]))]
  }

  lemma {:induction false} FlattenMembers(outputs: seq<seq<Entry>>)
    ensures forall e :: e in Flatten(outputs) <==> exists k :: 0 <= k < |outputs| && e in outputs[k]
  {
    if outputs != [] {
      var n := |outputs| - 1;
      FlattenMembers(outputs[..n]);
      forall e | e in Flatten(outputs) ensures exists k :: 0 <= k < |outputs| && e in outputs[k] {
        if e in Flatten(outputs[..n]) {
          var k :| 0 <= k < n && e in outputs[..n][k];
          assert e in outputs[k];
        }
      }
      forall e, k | 0 <= k < |outputs| && e in outputs[k] ensures e in Flatten(outputs) {
        if k < n { assert outputs[..n][k] == outputs[k]; }
      }
    }
  }

  lemma SortedParts(a: seq<Entry>, b: seq<Entry>)
    requires Sorted(a + b)
    ensures Sorted(a) && Sorted(b)
    ensures forall x, y :: x in a && y in b ==> Less(x.key, y.key)
  {
    var all := a + b;
    forall i, j | 0 <= i < j < |a| ensures Less(a[i].key, a[j].key) {
      assert all[i] == a[i] && all[j] == a[j];
    }
    forall i, j | 0 <= i < j < |b| ensures Less(b[i].key, b[j].key) {
      assert all[|a| + i] == b[i] && all[|a| + j] == b[j];
    }
    forall x, y | x in a && y in b ensures Less(x.key, y.key) {
      var i :| 0 <= i < |a| && a[i] == x;
      var j :| 0 <= j < |b| && b[j] == y;
      assert all[i] == x && all[|a| + j] == y;
    }
  }

  /** Cutting a sorted stream into outputs gives sorted outputs in order. */
  lemma {:induction false} FlattenOrder(outputs: seq<seq<Entry>>)
    requires Sorted(Flatten(outputs))
    ensures forall k :: 0 <= k < |outputs| ==> Sorted(outputs[k])
    ensures forall i, j, a, b :: 0 <= i < j < |outputs| && a in outputs[i] && b in outputs[j] ==> Less(a.key, b.key)
  {
    if outputs != [] {
      var n := |outputs| - 1;
      var front := outputs[..n];
      SortedParts(Flatten(front), outputs[n]);
      FlattenOrder(front);
      FlattenMembers(front);
      forall k | 0 <= k < |outputs| ensures Sorted(outputs[k]) {
        assert k < n ==> front[k] == outputs[k];
      }
      forall i, j, a, b | 0 <= i < j < |outputs| && a in outputs[i] && b in outputs[j] ensures Less(a.key, b.key) {
        assert front[i] == outputs[i];
        assert j < n ==> front[j] == outputs[j];
      }
    }
  }

  lemma OutputsContent(outputs: seq<seq<Entry>>, number: nat, fileSize: seq<Entry> -> nat)
    requires forall k :: 0 <= k < |outputs| ==> outputs[k] != []
    requires Sorted(Flatten(outputs))
    ensures FilesContent(OutputFiles(outputs, number, fileSize)) == Content(Flatten(outputs))
  {
    var files := OutputFiles(outputs, number, fileSize);
    FlattenMembers(outputs);
    forall e | e in Flatten(outputs) ensures e in FilesContent(files) {
      var k :| 0 <= k < |outputs| && e in outputs[k];
      assert files[k] in files && e in files[k].entries;
    }
    forall e | e in FilesContent(files) ensures e in Flatten(outputs) {
      var f :| f in files && e in f.entries;
      var k :| 0 <= k < |files| && files[k] == f;
      assert e in outputs[k];
    }
  }

  lemma OutputsAreLevel(outputs: seq<seq<Entry>>, number: nat, fileSize: seq<Entry> -> nat)
    requires forall k :: 0 <= k < |outputs| ==> outputs[k] != []
    requires Sorted(Flatten(outputs))
    ensures SortedLevel(OutputFiles(outputs, number, fileSize))
  {
    var files := OutputFiles(outputs, number, fileSize);
    FlattenOrder(outputs);
    forall i | 0 <= i < |files| ensures FileOk(files[i]) {
      assert files[i].entries == outputs[i];
    }
    RangesFollowFiles(files);
    forall i, j | 0 <= i < j < |files| ensures Less(files[i].largest, files[j].smallest) {
      assert outputs[i][|outputs[i]| - 1] in outputs[i] && outputs[j][0] in outputs[j];
    }
  }

  /** The merged stream of the inputs holds exactly the entries of the inputs. */
  lemma MergeIsInput(levels: Levels, level: nat, in0: seq<File>, in1: seq<File>, input: seq<Entry>)
    requires VersionOk(levels) && InputsOk(levels, level, in0, in1) && IsMerge(Runs(in0 + in1), input)
    ensures Content(input) == InputContent(in0, in1) && UniqueEntries(Content(input))
  {
    MergeContent(in0, in1, input);
    InputsAreInputs(levels, level, in0, in1);
    ContentSplits(levels, level, in0, in1);
    UniqueSubset(AllContent(levels), Content(input));
  }

  lemma MergeContent(in0: seq<File>, in1: seq<File>, input: seq<Entry>)
    requires IsMerge(Runs(in0 + in1), input)
    ensures Content(input) == InputContent(in0, in1)
  {
    var files := in0 + in1;
    forall e | e in input ensures e in InputContent(in0, in1) {
      var i :| 0 <= i < |files| && e in Runs(files)[i];
      assert files[i] in files;
      assert files[i] in in0 || files[i] in in1;
    }
    forall e | e in InputContent(in0, in1) ensures e in input {
      var f :| f in files && e in f.entries;
      var i :| 0 <= i < |files| && files[i] == f;
      assert e in Runs(files)[i];
    }
  }

  /** What asks for a compaction: a level over its size, with the level's compaction pointer, or a caller's range. */
  datatype Request =
    | Automatic(level: nat, pointer: Option<InternalKey>)
    | Manual(level: nat, begin: Option<InternalKey>, end: Option<InternalKey>)

  method PickStart(levels: Levels, request: Request, maxFileSize: nat) returns (start: seq<File>)
    requires LevelsOk(levels) && request.level + 1 < NUM_LEVELS
    requires request.Automatic? ==> levels[request.level] != []
    ensures start != [] ==> StartOk(levels[request.level], request.level, start)
    ensures start == [] <==> request.Manual? && !SomeOverlap(levels[request.level], UserOf(request.begin), UserOf(request.end))
  {
    match request
    case Automatic(level, pointer) =>
      start := PickCompactionStart(levels, level, pointer);
    case Manual(level, begin, end) =>
      start := CompactRangeStart(levels, level, begin, end, maxFileSize);
  }

  /** SetupOtherInputs, then the files two levels down that the outputs must not overlap too much. */
  method ChooseInputs(levels: Levels, level: nat, start: seq<File>, maxFileSize: nat)
    returns (in0: seq<File>, in1: seq<File>, grandparents: seq<File>)
    requires VersionOk(levels) && level + 1 < NUM_LEVELS && StartOk(levels[level], level, start)
    ensures InputsOk(levels, level, in0, in1)
    ensures forall f :: f in start ==> f in in0
    ensures level + 2 < NUM_LEVELS ==>
              grandparents == OverlapFilter(levels[level + 2], Some(SmallestKey(in0 + in1).user), Some(LargestKey(in0 + in1).user))
  {
    VersionLevelsUnique(levels);
    in0, in1 := SetupOtherInputs(levels, level, start, maxFileSize);
    grandparents := [];
    if level + 2 < NUM_LEVELS {
      var allStart, allLimit := GetRange(in0 + in1);
      var below, _, _ := GetOverlappingInputs(levels, level + 2, Some(allStart), Some(allLimit));
      grandparents := below;
    }
  }

  /** DoCompactionWork from the input files to the output files. */
  method WriteOutputs(levels: Levels, level: nat, in0: seq<File>, in1: seq<File>, grandparents: seq<File>,
                      maxFileSize: nat, snapshot: SequenceNumber, number: nat, fileSize: seq<Entry> -> nat)
    returns (files: seq<File>)
    requires VersionOk(levels) && InputsOk(levels, level, in0, in1) && snapshot < MAX_SEQUENCE
    ensures SortedLevel(files)
    ensures FilesContent(files) == Survivors(InputContent(in0, in1), snapshot, levels, level)
    ensures forall k :: 0 <= k < |files| ==> files[k].number == number + k
  {
    FilesAreDistinctRuns(levels, level, in0, in1);
    var input := MergeInputs(in0 + in1);
    MergeIsInput(levels, level, in0, in1, input);
    var outputs := RunJob(levels, level, grandparents, maxFileSize, input, snapshot, fileSize);
    files := OutputFiles(outputs, number, fileSize);
    OutputsContent(outputs, number, fileSize);
    OutputsAreLevel(outputs, number, fileSize);
  }

  method RunJob(levels: Levels, level: nat, grandparents: seq<File>, maxFileSize: nat, input: seq<Entry>,
                snapshot: SequenceNumber, fileSize: seq<Entry> -> nat) returns (outputs: seq<seq<Entry>>)
    requires forall l :: 1 <= l < NUM_LEVELS ==> DisjointRanges(levels[l])
    requires Sorted(input) && UniqueEntries(Content(input)) && snapshot < MAX_SEQUENCE
    ensures Sorted(Flatten(outputs)) && forall k :: 0 <= k < |outputs| ==> outputs[k] != []
    ensures Content(Flatten(outputs)) == Survivors(Content(input), snapshot, levels, level)
  {
    var job := new Job(levels, level, grandparents, maxFileSize);
    outputs := job.DoCompactionWork(input, snapshot, fileSize);
  }

  /** AddInputDeletions and AddFile for each output, then LogAndApply: both levels saved as new file lists. */
  method ApplyEdit(levels: Levels, level: nat, in0: seq<File>, in1: seq<File>, outs: seq<File>) returns (after: Levels)
    requires VersionOk(levels) && level + 1 < NUM_LEVELS
    ensures after == InstallEdit(levels, level, in0, in1, outs)
  {
    if level > 0 { DisjointIsOrdered(levels[level]); }
    DisjointIsOrdered(levels[level + 1]);
    var upper := SaveToLevel(levels[level], [], Numbers(in0));
    var lower := SaveToLevel(levels[level + 1], outs, Numbers(in1));
    after := levels[level := upper][level + 1 := lower];
  }

  // ------------------------------------------------------------------ the database object

  /** MemTableInserter: the operations of a batch get consecutive sequence numbers from `first`. */
  method InsertInto(mem: seq<Entry>, ops: seq<Op>, first: nat) returns (r: seq<Entry>)
    requires first + |ops| <= MAX_SEQUENCE + 1
    ensures r == InsertAll(mem, BatchEntries(ops, first))
  {
    ghost var batch := BatchEntries(ops, first);
    r := mem;
    var sequence := first;
    for i := 0 to |ops|
      invariant sequence == first + i
      invariant r == InsertAll(mem, batch[..i])
    {
      assert batch[..i + 1][..i] == batch[..i];
      r := Insert(r, Entry(InternalKey(ops[i].user, sequence, ops[i].kind), ops[i].value));
      sequence := sequence + 1;
    }
    assert batch[..|ops|] == batch;
  }

  /** WriteLevel0Table and LogAndApply: pick the level for the new table and save the version with it. */
  method WriteLevel0Table(levels: Levels, f: File, maxFileSize: nat) returns (level: nat, after: Levels)
    requires VersionOk(levels)
    ensures level <= MAX_MEM_COMPACT_LEVEL && after == FlushEdit(levels, level, f)
    ensures level > 0 ==>
              forall l :: 0 <= l <= level ==> !SomeOverlap(levels[l], Some(f.smallest.user), Some(f.largest.user))
  {
    level := PickLevelForMemTableOutput(levels, f.smallest.user, f.largest.user, maxFileSize);
    if level > 0 { DisjointIsOrdered(levels[level]); }
    var files := SaveToLevel(levels[level], [f], {});
    after := levels[level := files];
  }

  class DBImpl {
    const maxFileSize: nat
    var mem: seq<Entry>
    var imm: Option<seq<Entry>>
    var levels: Levels
    var lastSequence: SequenceNumber
    var snapshots: seq<SequenceNumber>
    var nextFile: nat
    ghost var history: set<Entry>

    function State(): Store
      reads this
    {
      Store(mem, imm, levels, lastSequence, snapshots, nextFile)
    }

    ghost predicate Valid()
      reads this
    {
      StoreOk(State(), history)
    }

    constructor (maxFileSize: nat, nextFile: nat)
      ensures Valid() && State() == EmptyStore(nextFile) && history == {}
    {
      this.maxFileSize := maxFileSize;
      mem, imm, levels, lastSequence, snapshots, this.nextFile := [], None, EMPTY_LEVELS, 0, [], nextFile;
      history := {};
      new;
      EmptyStoreOk(nextFile);
    }

    /** Write of one batch by the writer at the head of the queue; the last sequence number is published only when
        the whole batch is in the memtable. */
    method Write(ops: seq<Op>)
      requires Valid() && lastSequence + |ops| < MAX_SEQUENCE
      modifies `mem, `lastSequence, `history
      ensures Valid()
      ensures State() == AfterWrite(old(State()), ops) && history == old(history) + WrittenBy(old(State()), ops)
    {
      ghost var before, written := State(), history;
      InsertBatch(ops);
      WriteKeeps(before, written, ops);
      history := history + WrittenBy(before, ops);
    }

    /** The part of Write after MakeRoomForWrite and the log record. */
    method InsertBatch(ops: seq<Op>)
      requires lastSequence + |ops| < MAX_SEQUENCE
      modifies `mem, `lastSequence
      ensures State() == AfterWrite(old(State()), ops)
    {
      mem := InsertInto(mem, ops, lastSequence + 1);
      lastSequence := lastSequence + |ops|;
    }

    /** The switch in MakeRoomForWrite; refused while the previous memtable is still being flushed. */
    method SwitchMemtable() returns (switched: bool)
      requires Valid()
      modifies `mem, `imm
      ensures Valid()
      ensures switched == (old(imm) == None)
      ensures State() == if switched then AfterSwitch(old(State())) else old(State())
    {
      if imm != None {
        return false;
      }
      SwitchKeeps(State(), history);
      mem, imm := [], Some(mem);
      return true;
    }

    /** CompactMemTable: the immutable memtable becomes a table and the new version replaces it. */
    method CompactMemTable(size: nat) returns (ghost level: nat)
      requires Valid() && imm.Some?
      modifies `imm, `levels, `nextFile
      ensures Valid()
      ensures CanFlush(old(State()), level, size) && State() == AfterFlush(old(State()), level, size)
    {
      level := 0;
      ghost var before := State();
      if imm.value != [] {
        var picked, after := WriteLevel0Table(levels, TableOf(imm.value, nextFile, size), maxFileSize);
        level, levels := picked, after;
      }
      nextFile := nextFile + 1;
      imm := None;
      assert State() == AfterFlush(before, level, size);
      FlushKeeps(before, history, level, size);
    }

    /** DoCompactionWork and InstallCompactionResults. */
    method CompactFiles(level: nat, in0: seq<File>, in1: seq<File>, grandparents: seq<File>, fileSize: seq<Entry> -> nat)
      returns (ghost outs: seq<File>)
      requires Valid() && InputsOk(levels, level, in0, in1)
      modifies `levels, `nextFile
      ensures Valid() && CanCompact(old(State()), level, in0, in1, outs)
      ensures State() == AfterCompact(old(State()), level, in0, in1, outs)
    {
      ghost var before := State();
      var snapshot := if snapshots == [] then lastSequence else snapshots[0];
      var files := WriteOutputs(levels, level, in0, in1, grandparents, maxFileSize, snapshot, nextFile, fileSize);
      outs := files;
      assert CanCompact(before, level, in0, in1, outs);
      CompactKeeps(before, history, level, in0, in1, outs);
      InstallOutputs(level, in0, in1, files);
    }

    /** InstallCompactionResults. */
    method InstallOutputs(level: nat, in0: seq<File>, in1: seq<File>, files: seq<File>)
      requires VersionOk(levels) && level + 1 < NUM_LEVELS
      modifies `levels, `nextFile
      ensures State() == AfterCompact(old(State()), level, in0, in1, files)
    {
      levels := ApplyEdit(levels, level, in0, in1, files);
      nextFile := nextFile + |files|;
    }

    /** A trivial move: the one input file changes its level and nothing is rewritten. */
    method MoveFile(level: nat, file: File)
      requires Valid() && InputsOk(levels, level, [file], [])
      modifies `levels
      ensures Valid() && State() == AfterMove(old(State()), level, file)
    {
      ghost var before := State();
      levels := ApplyEdit(levels, level, [file], [], [file]);
      assert State() == AfterMove(before, level, file);
      MoveKeeps(before, history, level, file);
    }

    /** BackgroundCompaction: flushing a waiting memtable comes first; otherwise the requested files are moved down
        or compacted. Whatever it does is one step of the state machine. */
    method BackgroundCompaction(request: Request, size: nat, fileSize: seq<Entry> -> nat) returns (ghost step: Option<Event>)
      requires Valid() && request.level + 1 < NUM_LEVELS
      requires request.Automatic? ==> levels[request.level] != []
      modifies `imm, `levels, `nextFile
      ensures Valid()
      ensures step == None ==> State() == old(State())
      ensures step.Some? ==> Enabled(old(State()), step.value) && State() == Apply(old(State()), step.value)
      ensures old(imm).Some? <==> step.Some? && step.value.FlushMemtable?
      ensures step == None <==>
                (old(imm) == None && request.Manual?
                 && !SomeOverlap(old(levels)[request.level], UserOf(request.begin), UserOf(request.end)))
    {
      if imm.Some? {
        var level := CompactMemTable(size);
        step := Some(FlushMemtable(level, size));
        return;
      }
      step := CompactRequest(request, fileSize);
    }

    /** The part of BackgroundCompaction below the memtable: nothing, a trivial move or a compaction. */
    method CompactRequest(request: Request, fileSize: seq<Entry> -> nat) returns (ghost step: Option<Event>)
      requires Valid() && request.level + 1 < NUM_LEVELS && imm == None
      requires request.Automatic? ==> levels[request.level] != []
      modifies `imm, `levels, `nextFile
      ensures Valid()
      ensures step == None ==> State() == old(State())
      ensures step.Some? ==> !step.value.FlushMemtable? && Enabled(old(State()), step.value)
                             && State() == Apply(old(State()), step.value)
      ensures step == None <==>
                request.Manual? && !SomeOverlap(old(levels)[request.level], UserOf(request.begin), UserOf(request.end))
    {
      var level := request.level;
      var start := PickStart(levels, request, maxFileSize);
      if start == [] {
        step := None;
        return;
      }
      var in0, in1, grandparents := ChooseInputs(levels, level, start, maxFileSize);
      if request.Automatic? && |in0| == 1 && |in1| == 0 && TotalFileSize(grandparents) <= 10 * maxFileSize {
        assert in0 == [in0[0]] && in1 == [];
        MoveFile(level, in0[0]);
        step := Some(TrivialMove(level, in0[0]));
      } else {
        var outs := CompactFiles(level, in0, in1, grandparents, fileSize);
        step := Some(Compact(level, in0, in1, outs));
      }
    }

    method GetSnapshot() returns (s: SequenceNumber)
      requires Valid()
      modifies `snapshots
      ensures Valid() && s == lastSequence && State() == AfterTakeSnapshot(old(State()))
    {
      SnapshotKeeps(State(), history);
      s := lastSequence;
      snapshots := snapshots + [s];
    }

    method ReleaseSnapshot(index: nat)
      requires Valid() && index < |snapshots|
      modifies `snapshots
      ensures Valid() && State() == AfterRelease(old(State()), index)
    {
      ReleaseKeeps(State(), history, index);
      snapshots := snapshots[..index] + snapshots[index + 1..];
    }

    /** Get: the memtable, then the immutable memtable, then the files. */
    method Get(user: UserKey, snapshot: Option<SequenceNumber>) returns (r: Option<Bytes>)
      requires Valid()
      ensures r == Read(Stored(State()), user, if snapshot.Some? then snapshot.value else lastSequence)
    {
      var s := if snapshot.Some? then snapshot.value else lastSequence;
      var found := SearchRun(mem, user, s);
      SeekFindsNewest(mem, user, s);
      if found.Some? {
        FoundInMemory(State(), history, user, s, found.value, false);
        return Outcome(found.value);
      }
      if imm.Some? {
        found := SearchRun(imm.value, user, s);
        SeekFindsNewest(imm.value, user, s);
        if found.Some? {
          FoundInMemory(State(), history, user, s, found.value, true);
          return Outcome(found.value);
        }
      }
      r := Version.Get(levels, user, s);
      NotInMemory(State(), user, s);
    }
  }

  lemma FoundInMemory(st: Store, history: set<Entry>, user: UserKey, s: SequenceNumber, e: Entry, inImm: bool)
    requires StoreOk(st, history)
    requires inImm ==> NoneVisible(Content(st.mem), user, s)
    requires Newest(if inImm then Content(ImmRun(st)) else Content(st.mem), user, s, e)
    ensures Read(Stored(st), user, s) == Outcome(e)
  {
    UniqueSubset(history, Stored(st));
    assert Newest(Stored(st), user, s, e);
    ReadIsNewest(Stored(st), user, s, e);
  }

  lemma NotInMemory(st: Store, user: UserKey, s: SequenceNumber)
    requires UniqueEntries(AllContent(st.levels))
    requires NoneVisible(Content(st.mem), user, s) && NoneVisible(Content(ImmRun(st)), user, s)
    ensures Read(Stored(st), user, s) == Read(AllContent(st.levels), user, s)
  {
    InvisibleAddition(AllContent(st.levels), Content(st.mem) + Content(ImmRun(st)), user, s);
    assert Stored(st) == AllContent(st.levels) + (Content(st.mem) + Content(ImmRun(st)));
  }
}
