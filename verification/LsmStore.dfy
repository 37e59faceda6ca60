/** The whole store as a state machine: writes, memtable switches, flushes, moves, compactions and snapshots, and what
    every reader may rely on over any run of them (db/db_impl.cc, db/version_set.cc, db/snapshot.h). */
module LsmStore {
  import opened Common
  import opened Keys
  import opened Version
  import opened Inputs
  import opened Compaction
  import opened Builder
  import opened Install

  datatype Op = Op(user: UserKey, kind: ValueType, value: Bytes)

  datatype Store = Store(mem: seq<Entry>, imm: Option<seq<Entry>>, levels: Levels,
                         lastSequence: SequenceNumber, snapshots: seq<SequenceNumber>, nextFile: nat)

  /** One atomic step of the store; a flush, move or compaction carries the choices the code makes for it. */
  datatype Event =
    | Write(ops: seq<Op>)
    | SwitchMemtable
    | FlushMemtable(level: nat, size: nat)
    | TrivialMove(level: nat, file: File)
    | Compact(level: nat, in0: seq<File>, in1: seq<File>, outs: seq<File>)
    | TakeSnapshot
    | ReleaseSnapshot(index: nat)

  // ------------------------------------------------------------------ what a store holds

  function ImmRun(st: Store): seq<Entry> {
    if st.imm.Some? then st.imm.value else []
  }

  ghost function Stored(st: Store): set<Entry> {
    Content(st.mem) + Content(ImmRun(st)) + AllContent(st.levels)
  }

  /** smallest_snapshot of a compaction; also the oldest sequence number anyone can still read at. */
  function SmallestSnapshot(st: Store): SequenceNumber {
    if st.snapshots == [] then st.lastSequence else st.snapshots[0]
  }

  ghost predicate SnapshotsOk(st: Store) {
    && (forall i, j :: 0 <= i < j < |st.snapshots| ==> st.snapshots[i] <= st.snapshots[j])
    && forall i :: 0 <= i < |st.snapshots| ==> st.snapshots[i] <= st.lastSequence
  }

  /** The memtables are sorted runs, and memory is newer than disk. */
  ghost predicate MemoryOk(st: Store) {
    && Sorted(st.mem) && Sorted(ImmRun(st))
    && NewerFor(Content(st.mem), Content(ImmRun(st)) + AllContent(st.levels))
    && NewerFor(Content(ImmRun(st)), AllContent(st.levels))
  }

  ghost predicate HistoryOk(st: Store, history: set<Entry>) {
    && UniqueEntries(history) && Stored(st) <= history
    && (forall e :: e in history ==> e.key.seqno <= st.lastSequence)
  }

  ghost predicate NumbersAllocated(st: Store) {
    forall l, f :: 0 <= l < NUM_LEVELS && f in st.levels[l] ==> f.number < st.nextFile
  }

  /** The invariant of the store; `history` holds every entry ever written. */
  ghost predicate StoreOk(st: Store, history: set<Entry>) {
    && VersionOk(st.levels) && MemoryOk(st) && HistoryOk(st, history)
    && st.lastSequence < MAX_SEQUENCE && SnapshotsOk(st) && NumbersAllocated(st)
  }

  /** Every reader the store still has to serve gets what the full history says. */
  ghost predicate Faithful(st: Store, history: set<Entry>) {
    forall user: UserKey :: SameReads(Stored(st), history, user, SmallestSnapshot(st))
  }

  // ------------------------------------------------------------------ the steps

  function BatchEntries(ops: seq<Op>, first: nat): seq<Entry>
    requires first + |ops| <= MAX_SEQUENCE + 1
  {
    seq(|ops|, i requires 0 <= i < |ops| => Entry(InternalKey(ops[i].user, first + i, ops[i].kind), ops[i].value))
  }

  function TableOf(run: seq<Entry>, number: nat, size: nat): File
    requires run != []
  {
    File(number, size, run[0].key, run[|run| - 1].key, run)
  }

  ghost predicate OutputsFor(st: Store, level: nat, in0: seq<File>, in1: seq<File>, outs: seq<File>) {
    && SortedLevel(outs)
    && FilesContent(outs) == Survivors(InputContent(in0, in1), SmallestSnapshot(st), st.levels, level)
    && forall i :: 0 <= i < |outs| ==> outs[i].number == st.nextFile + i
  }

  ghost predicate CanFlush(st: Store, level: nat, size: nat) {
    && st.imm.Some? && level <= MAX_MEM_COMPACT_LEVEL
    && (st.imm.value != [] && level > 0 ==>
          var f := TableOf(st.imm.value, st.nextFile, size);
          forall l :: 0 <= l <= level ==> !SomeOverlap(st.levels[l], Some(f.smallest.user), Some(f.largest.user)))
  }

  ghost predicate CanCompact(st: Store, level: nat, in0: seq<File>, in1: seq<File>, outs: seq<File>) {
    InputsOk(st.levels, level, in0, in1) && OutputsFor(st, level, in0, in1, outs)
  }

  ghost predicate Enabled(st: Store, ev: Event) {
    match ev
    case Write(ops) => st.lastSequence + |ops| < MAX_SEQUENCE
    case SwitchMemtable => st.imm == None
    case FlushMemtable(level, size) => CanFlush(st, level, size)
    case TrivialMove(level, file) => InputsOk(st.levels, level, [file], [])
    case Compact(level, in0, in1, outs) => CanCompact(st, level, in0, in1, outs)
    case TakeSnapshot => true
    case ReleaseSnapshot(index) => index < |st.snapshots|
  }

  function AfterWrite(st: Store, ops: seq<Op>): Store
    requires st.lastSequence + |ops| < MAX_SEQUENCE
  {
    st.(mem := InsertAll(st.mem, BatchEntries(ops, st.lastSequence + 1)), lastSequence := st.lastSequence + |ops|)
  }

  function AfterSwitch(st: Store): Store {
    st.(mem := [], imm := Some(st.mem))
  }

  function AfterFlush(st: Store, level: nat, size: nat): Store
    requires st.imm.Some? && level < NUM_LEVELS
  {
    st.(imm := None, nextFile := st.nextFile + 1,
        levels := if st.imm.value == [] then st.levels
                  else FlushEdit(st.levels, level, TableOf(st.imm.value, st.nextFile, size)))
  }

  function AfterMove(st: Store, level: nat, file: File): Store
    requires level + 1 < NUM_LEVELS
  {
    st.(levels := InstallEdit(st.levels, level, [file], [], [file]))
  }

  function AfterCompact(st: Store, level: nat, in0: seq<File>, in1: seq<File>, outs: seq<File>): Store
    requires level + 1 < NUM_LEVELS
  {
    st.(levels := InstallEdit(st.levels, level, in0, in1, outs), nextFile := st.nextFile + |outs|)
  }

  function AfterTakeSnapshot(st: Store): Store {
    st.(snapshots := st.snapshots + [st.lastSequence])
  }

  function AfterRelease(st: Store, index: nat): Store
    requires index < |st.snapshots|
  {
    st.(snapshots := st.snapshots[..index] + st.snapshots[index + 1..])
  }

  ghost function Apply(st: Store, ev: Event): Store
    requires Enabled(st, ev)
  {
    match ev
    case Write(ops) => AfterWrite(st, ops)
    case SwitchMemtable => AfterSwitch(st)
    case FlushMemtable(level, size) => AfterFlush(st, level, size)
    case TrivialMove(level, file) => AfterMove(st, level, file)
    case Compact(level, in0, in1, outs) => AfterCompact(st, level, in0, in1, outs)
    case TakeSnapshot => AfterTakeSnapshot(st)
    case ReleaseSnapshot(index) => AfterRelease(st, index)
  }

  ghost function WrittenBy(st: Store, ops: seq<Op>): set<Entry>
    requires st.lastSequence + |ops| < MAX_SEQUENCE
  {
    Content(BatchEntries(ops, st.lastSequence + 1))
  }

  ghost function HistoryAfter(st: Store, history: set<Entry>, ev: Event): set<Entry>
    requires Enabled(st, ev)
  {
    if ev.Write? then history + WrittenBy(st, ev.ops) else history
  }

  // ------------------------------------------------------------------ writes

  lemma {:induction false} InsertAllKeepsRun(run: seq<Entry>, batch: seq<Entry>, last: nat)
    requires Sorted(run) && forall x :: x in run ==> x.key.seqno <= last
    requires forall i :: 0 <= i < |batch| ==> batch[i].key.seqno == last + 1 + i
    ensures Sorted(InsertAll(run, batch)) && Content(InsertAll(run, batch)) == Content(run) + Content(batch)
  {
    if batch != [] {
      var n := |batch| - 1;
      var prefix := batch[..n];
      InsertAllKeepsRun(run, prefix, last);
      var sofar := InsertAll(run, prefix);
      forall x | x in sofar ensures x.key != batch[n].key {
        assert x in Content(run) + Content(prefix);
      }
      InsertKeepsRun(sofar, batch[n]);
      assert batch == prefix + [batch[n]];
    }
  }

  lemma BatchIsFresh(ops: seq<Op>, last: nat)
    requires last + |ops| <= MAX_SEQUENCE
    ensures UniqueEntries(Content(BatchEntries(ops, last + 1)))
    ensures forall e :: e in BatchEntries(ops, last + 1) ==> last < e.key.seqno <= last + |ops|
  {
  }

  lemma FreshIsNewer(batch: set<Entry>, history: set<Entry>, last: nat)
    requires forall e :: e in batch ==> last < e.key.seqno
    requires forall e :: e in history ==> e.key.seqno <= last
    ensures NewerFor(batch, history)
  {
  }

  lemma NewerSubset(a: set<Entry>, b: set<Entry>, c: set<Entry>)
    requires NewerFor(a, b) && c <= b
    ensures NewerFor(a, c)
  {
  }

  lemma WriteMem(mem: seq<Entry>, batch: seq<Entry>, last: nat)
    requires Sorted(mem) && forall e :: e in Content(mem) ==> e.key.seqno <= last
    requires forall i :: 0 <= i < |batch| ==> batch[i].key.seqno == last + 1 + i
    ensures Sorted(InsertAll(mem, batch)) && Content(InsertAll(mem, batch)) == Content(mem) + Content(batch)
  {
    forall x | x in mem ensures x.key.seqno <= last {
      assert x in Content(mem);
    }
    InsertAllKeepsRun(mem, batch, last);
  }

  lemma WriteKeepsMemory(st: Store, history: set<Entry>, ops: seq<Op>)
    requires MemoryOk(st) && HistoryOk(st, history) && st.lastSequence + |ops| < MAX_SEQUENCE
    ensures Sorted(AfterWrite(st, ops).mem)
    ensures Content(AfterWrite(st, ops).mem) == Content(st.mem) + WrittenBy(st, ops)
    ensures Stored(AfterWrite(st, ops)) == Stored(st) + WrittenBy(st, ops)
  {
    assert Content(st.mem) <= Stored(st);
    WriteMem(st.mem, BatchEntries(ops, st.lastSequence + 1), st.lastSequence);
    SetShuffle(Content(st.mem), Content(ImmRun(st)), AllContent(st.levels), WrittenBy(st, ops));
  }

  lemma WriteIsFresh(st: Store, history: set<Entry>, ops: seq<Op>)
    requires HistoryOk(st, history) && st.lastSequence + |ops| < MAX_SEQUENCE
    ensures NewerFor(WrittenBy(st, ops), history) && UniqueEntries(WrittenBy(st, ops))
  {
    BatchIsFresh(ops, st.lastSequence);
    FreshIsNewer(WrittenBy(st, ops), history, st.lastSequence);
  }

  lemma WriteKeepsOrder(st: Store, history: set<Entry>, ops: seq<Op>)
    requires MemoryOk(st) && HistoryOk(st, history) && st.lastSequence + |ops| < MAX_SEQUENCE
    ensures MemoryOk(AfterWrite(st, ops))
  {
    var disk := Content(ImmRun(st)) + AllContent(st.levels);
    var batch := WrittenBy(st, ops);
    assert NewerFor(batch, disk) by {
      WriteIsFresh(st, history, ops);
      assert disk <= Stored(st);
      NewerSubset(batch, history, disk);
    }
    assert NewerFor(Content(st.mem) + batch, disk) by {
      NewerUnion(Content(st.mem), disk, batch);
    }
    WriteKeepsMemory(st, history, ops);
  }

  lemma SetShuffle(a: set<Entry>, b: set<Entry>, c: set<Entry>, d: set<Entry>)
    ensures (a + d) + b + c == (a + b + c) + d
  {
  }

  lemma WriteKeeps(st: Store, history: set<Entry>, ops: seq<Op>)
    requires StoreOk(st, history) && st.lastSequence + |ops| < MAX_SEQUENCE
    ensures StoreOk(AfterWrite(st, ops), history + WrittenBy(st, ops))
  {
    WriteKeepsOrder(st, history, ops);
    WriteKeepsMemory(st, history, ops);
    WriteIsFresh(st, history, ops);
    BatchIsFresh(ops, st.lastSequence);
    UniqueUnion(WrittenBy(st, ops), history);
  }

  lemma WriteFaithful(st: Store, history: set<Entry>, ops: seq<Op>)
    requires StoreOk(st, history) && st.lastSequence + |ops| < MAX_SEQUENCE && Faithful(st, history)
    ensures Faithful(AfterWrite(st, ops), history + WrittenBy(st, ops))
  {
    var after, batch := AfterWrite(st, ops), WrittenBy(st, ops);
    WriteIsFresh(st, history, ops);
    WriteKeepsMemory(st, history, ops);
    UniqueUnion(batch, history);
    forall user: UserKey ensures SameReads(Stored(after), history + batch, user, SmallestSnapshot(after)) {
      WriteReads(Stored(st), history, batch, user, SmallestSnapshot(st));
    }
  }

  /** Fresh entries are newer than everything, so adding them to two stores that agree leaves them agreeing. */
  lemma WriteReads(a: set<Entry>, b: set<Entry>, written: set<Entry>, user: UserKey, snapshot: nat)
    requires a <= b && UniqueEntries(b + written) && NewerFor(written, b)
    requires SameReads(a, b, user, snapshot)
    ensures SameReads(a + written, b + written, user, snapshot)
  {
    forall s: nat | snapshot <= s ensures Read(a + written, user, s) == Read(b + written, user, s) {
      assert Read(a, user, s) == Read(b, user, s);
      if w :| w in written && VisibleAt(w, user, s) {
        var n := NewestExists(written, user, s, w);
        assert Newest(a + written, user, s, n) && Newest(b + written, user, s, n);
        assert UniqueEntries(a + written);
        ReadIsNewest(a + written, user, s, n);
        ReadIsNewest(b + written, user, s, n);
      } else {
        InvisibleAddition(a, written, user, s);
        InvisibleAddition(b, written, user, s);
      }
    }
  }

  lemma InvisibleAddition(a: set<Entry>, more: set<Entry>, user: UserKey, s: nat)
    requires UniqueEntries(a) && NoneVisible(more, user, s)
    ensures Read(a + more, user, s) == Read(a, user, s)
  {
    forall e ensures Newest(a + more, user, s, e) <==> Newest(a, user, s, e) {
    }
    if e :| Newest(a, user, s, e) {
      ReadIsNewest(a, user, s, e);
      forall d | Newest(a + more, user, s, d) ensures d == e {
        assert Newest(a, user, s, d) && d in a;
      }
    }
  }

  // ------------------------------------------------------------------ switching and flushing

  lemma SwitchKeeps(st: Store, history: set<Entry>)
    requires StoreOk(st, history) && st.imm == None
    ensures StoreOk(AfterSwitch(st), history) && Stored(AfterSwitch(st)) == Stored(st)
  {
    assert ImmRun(AfterSwitch(st)) == st.mem;
  }

  lemma RunIsTable(st: Store, history: set<Entry>, size: nat)
    requires StoreOk(st, history) && st.imm.Some? && st.imm.value != []
    ensures FileOk(TableOf(st.imm.value, st.nextFile, size))
    ensures UniqueEntries(Content(st.imm.value))
  {
    assert Content(st.imm.value) <= Stored(st);
    UniqueSubset(history, Content(st.imm.value));
  }

  lemma FlushIsEdit(st: Store, history: set<Entry>, level: nat, size: nat) returns (f: File)
    requires StoreOk(st, history) && CanFlush(st, level, size) && st.imm.value != []
    ensures f == TableOf(st.imm.value, st.nextFile, size) && FlushOk(st.levels, level, f)
    ensures AfterFlush(st, level, size).levels == FlushEdit(st.levels, level, f)
  {
    f := TableOf(st.imm.value, st.nextFile, size);
    RunIsTable(st, history, size);
  }

  lemma FlushAllocates(levels: Levels, level: nat, f: File, next: nat)
    requires VersionOk(levels) && FlushOk(levels, level, f) && f.number < next
    ensures forall l, g :: 0 <= l < NUM_LEVELS && g in FlushEdit(levels, level, f)[l] ==> g.number < next
  {
    FlushMembers(levels, level, f);
  }

  lemma FlushDisk(st: Store, history: set<Entry>, level: nat, size: nat)
    requires StoreOk(st, history) && CanFlush(st, level, size) && st.imm.value != []
    ensures VersionOk(AfterFlush(st, level, size).levels) && NumbersAllocated(AfterFlush(st, level, size))
    ensures AllContent(AfterFlush(st, level, size).levels) == AllContent(st.levels) + Content(st.imm.value)
  {
    var f := FlushIsEdit(st, history, level, size);
    FlushKeepsVersion(st.levels, level, f);
    FlushAllocates(st.levels, level, f, st.nextFile + 1);
  }

  lemma FlushKeeps(st: Store, history: set<Entry>, level: nat, size: nat)
    requires StoreOk(st, history) && CanFlush(st, level, size)
    ensures StoreOk(AfterFlush(st, level, size), history) && Stored(AfterFlush(st, level, size)) == Stored(st)
  {
    if st.imm.value != [] {
      FlushDisk(st, history, level, size);
    }
  }

  // ------------------------------------------------------------------ moving and compacting

  lemma MoveIsInstall(levels: Levels, level: nat, file: File)
    requires VersionOk(levels) && InputsOk(levels, level, [file], [])
    ensures OutputsOk([file], [], [file]) && OutputNumbersOk(levels, level, [file], [file])
    ensures Installed(levels, InstallEdit(levels, level, [file], [], [file]), level, [file], [], [file])
  {
    assert [file][0] in levels[level];
    assert FileOk(file);
    RangesFollowFiles([file]);
    DisjointIsOrdered([file]);
    InputsAreInputs(levels, level, [file], []);
    InstallEditInstalls(levels, level, [file], [], [file]);
  }

  lemma MoveDisk(levels: Levels, level: nat, file: File)
    requires VersionOk(levels) && InputsOk(levels, level, [file], [])
    ensures VersionOk(InstallEdit(levels, level, [file], [], [file]))
    ensures AllContent(InstallEdit(levels, level, [file], [], [file])) == AllContent(levels)
  {
    MoveIsInstall(levels, level, file);
    InstallKeepsVersion(levels, level, [file], [], [file]);
    assert FilesContent([file]) == InputContent([file], []);
  }

  lemma MoveAllocates(st: Store, level: nat, file: File)
    requires NumbersAllocated(st) && VersionOk(st.levels) && InputsOk(st.levels, level, [file], [])
    ensures NumbersAllocated(AfterMove(st, level, file))
  {
    MoveIsInstall(st.levels, level, file);
    assert [file][0] in st.levels[level];
  }

  lemma MoveKeeps(st: Store, history: set<Entry>, level: nat, file: File)
    requires StoreOk(st, history) && InputsOk(st.levels, level, [file], [])
    ensures StoreOk(AfterMove(st, level, file), history) && Stored(AfterMove(st, level, file)) == Stored(st)
  {
    MoveAllocates(st, level, file);
    MoveDisk(st.levels, level, file);
    SameContent(st, AfterMove(st, level, file), history);
  }

  /** New file lists with the same entries change nothing else. */
  lemma SameContent(st: Store, after: Store, history: set<Entry>)
    requires StoreOk(st, history) && after == st.(levels := after.levels)
    requires VersionOk(after.levels) && AllContent(after.levels) == AllContent(st.levels) && NumbersAllocated(after)
    ensures StoreOk(after, history) && Stored(after) == Stored(st)
  {
  }

  /** What is stored outside the inputs of a compaction: the memtables and every other file. */
  ghost function Others(st: Store, level: nat, in0: seq<File>, in1: seq<File>): set<Entry> {
    Content(st.mem) + Content(ImmRun(st)) + RestContent(st.levels, level, in0, in1)
  }

  lemma CompactDisk(st: Store, history: set<Entry>, level: nat, in0: seq<File>, in1: seq<File>, outs: seq<File>)
    requires StoreOk(st, history) && CanCompact(st, level, in0, in1, outs)
    ensures VersionOk(AfterCompact(st, level, in0, in1, outs).levels)
    ensures AllContent(st.levels) == InputContent(in0, in1) + RestContent(st.levels, level, in0, in1)
    ensures InputContent(in0, in1) !! RestContent(st.levels, level, in0, in1)
    ensures AllContent(AfterCompact(st, level, in0, in1, outs).levels) ==
              Survivors(InputContent(in0, in1), SmallestSnapshot(st), st.levels, level)
              + RestContent(st.levels, level, in0, in1)
  {
    assert OutputNumbersOk(st.levels, level, in0, outs);
    InstallKeepsVersion(st.levels, level, in0, in1, outs);
  }

  lemma CompactStored(st: Store, history: set<Entry>, level: nat, in0: seq<File>, in1: seq<File>, outs: seq<File>)
    requires StoreOk(st, history) && CanCompact(st, level, in0, in1, outs)
    ensures Stored(st) == InputContent(in0, in1) + Others(st, level, in0, in1)
    ensures InputContent(in0, in1) !! Others(st, level, in0, in1)
    ensures Stored(AfterCompact(st, level, in0, in1, outs)) ==
              Survivors(InputContent(in0, in1), SmallestSnapshot(st), st.levels, level) + Others(st, level, in0, in1)
    ensures AllContent(AfterCompact(st, level, in0, in1, outs).levels) <= AllContent(st.levels)
    ensures VersionOk(AfterCompact(st, level, in0, in1, outs).levels)
  {
    var memory := Content(st.mem) + Content(ImmRun(st));
    var inputs, rest := InputContent(in0, in1), RestContent(st.levels, level, in0, in1);
    var after, kept := AfterCompact(st, level, in0, in1, outs), Survivors(inputs, SmallestSnapshot(st), st.levels, level);
    CompactDisk(st, history, level, in0, in1, outs);
    Apart(memory, AllContent(st.levels));
    MemoryAside(memory, AllContent(st.levels), inputs, rest, AllContent(after.levels), kept);
  }

  lemma MemoryAside(memory: set<Entry>, all: set<Entry>, inputs: set<Entry>, rest: set<Entry>, after: set<Entry>, kept: set<Entry>)
    requires all == inputs + rest && inputs !! rest && after == kept + rest && kept <= inputs && memory !! all
    ensures memory + all == inputs + (memory + rest) && inputs !! memory + rest
    ensures memory + after == kept + (memory + rest) && after <= all
  {
  }

  lemma CompactKeeps(st: Store, history: set<Entry>, level: nat, in0: seq<File>, in1: seq<File>, outs: seq<File>)
    requires StoreOk(st, history) && CanCompact(st, level, in0, in1, outs)
    ensures StoreOk(AfterCompact(st, level, in0, in1, outs), history)
  {
    var after := AfterCompact(st, level, in0, in1, outs);
    CompactStored(st, history, level, in0, in1, outs);
    CompactAllocates(st, history, level, in0, in1, outs);
    CompactKeepsMemory(st, after);
  }

  lemma CompactAllocates(st: Store, history: set<Entry>, level: nat, in0: seq<File>, in1: seq<File>, outs: seq<File>)
    requires StoreOk(st, history) && CanCompact(st, level, in0, in1, outs)
    ensures NumbersAllocated(AfterCompact(st, level, in0, in1, outs))
  {
    assert OutputNumbersOk(st.levels, level, in0, outs);
    InputsAreInputs(st.levels, level, in0, in1);
    DisjointIsOrdered(outs);
    InstallEditInstalls(st.levels, level, in0, in1, outs);
    CompactNumbers(st, AfterCompact(st, level, in0, in1, outs), level, in0, in1, outs);
  }

  lemma CompactNumbers(st: Store, after: Store, level: nat, in0: seq<File>, in1: seq<File>, outs: seq<File>)
    requires NumbersAllocated(st) && Installed(st.levels, after.levels, level, in0, in1, outs)
    requires forall i :: 0 <= i < |outs| ==> outs[i].number == st.nextFile + i
    requires after.nextFile == st.nextFile + |outs|
    ensures NumbersAllocated(after)
  {
    forall l, f | 0 <= l < NUM_LEVELS && f in after.levels[l] ensures f.number < after.nextFile {
      if l == level + 1 && f in outs {
        var i :| 0 <= i < |outs| && outs[i] == f;
      } else {
        assert f in st.levels[l];
      }
    }
  }

  lemma Apart(newer: set<Entry>, older: set<Entry>)
    requires NewerFor(newer, older)
    ensures newer !! older
  {
    forall e | e in newer ensures e !in older {
    }
  }

  lemma CompactKeepsMemory(st: Store, after: Store)
    requires MemoryOk(st) && after.mem == st.mem && after.imm == st.imm
    requires AllContent(after.levels) <= AllContent(st.levels)
    ensures MemoryOk(after)
  {
  }

  /** No dropped deletion marker lets an older value of its user key resurface. */
  ghost predicate Harmless(st: Store, level: nat, in0: seq<File>, in1: seq<File>) {
    forall user: UserKey :: !Resurfaces(InputContent(in0, in1), Others(st, level, in0, in1), SmallestSnapshot(st),
                                        BaseLevelForKey(st.levels, level, user), user)
  }

  /** A compaction keeps every live reader's answer if and only if it is harmless in the sense above. */
  lemma CompactFaithfulIff(st: Store, history: set<Entry>, level: nat, in0: seq<File>, in1: seq<File>, outs: seq<File>)
    requires StoreOk(st, history) && Faithful(st, history) && CanCompact(st, level, in0, in1, outs)
    ensures Faithful(AfterCompact(st, level, in0, in1, outs), history) <==> Harmless(st, level, in0, in1)
  {
    var after := AfterCompact(st, level, in0, in1, outs);
    var inputs, others, m := InputContent(in0, in1), Others(st, level, in0, in1), SmallestSnapshot(st);
    CompactKeeps(st, history, level, in0, in1, outs);
    CompactStored(st, history, level, in0, in1, outs);
    assert UniqueEntries(inputs + others) by {
      UniqueSubset(history, Stored(st));
    }
    if Faithful(after, history) {
      forall user: UserKey ensures !Resurfaces(inputs, others, m, BaseLevelForKey(st.levels, level, user), user) {
        assert SameReads(Stored(after), history, user, SmallestSnapshot(after));
        assert SameReads(Stored(st), history, user, m);
        FaithfulForKey(st, after, history, inputs, others, level, user);
      }
    }
    if Harmless(st, level, in0, in1) {
      forall user: UserKey ensures SameReads(Stored(after), history, user, m) {
        FaithfulForKey(st, after, history, inputs, others, level, user);
      }
    }
  }

  lemma FaithfulForKey(st: Store, after: Store, history: set<Entry>, inputs: set<Entry>, others: set<Entry>, level: nat, user: UserKey)
    requires Stored(st) == inputs + others && UniqueEntries(inputs + others) && inputs !! others
    requires Stored(after) == Survivors(inputs, SmallestSnapshot(st), st.levels, level) + others
    requires SameReads(Stored(st), history, user, SmallestSnapshot(st))
    ensures SameReads(Stored(after), history, user, SmallestSnapshot(st)) <==>
              !Resurfaces(inputs, others, SmallestSnapshot(st), BaseLevelForKey(st.levels, level, user), user)
  {
    CompactionInvisibleIff(inputs, others, SmallestSnapshot(st), st.levels, level, user);
    SameReadsChain(Stored(after), Stored(st), history, user, SmallestSnapshot(st));
  }

  lemma SameReadsChain(a: set<Entry>, b: set<Entry>, c: set<Entry>, user: UserKey, m: nat)
    requires SameReads(b, c, user, m)
    ensures SameReads(a, b, user, m) <==> SameReads(a, c, user, m)
  {
    if SameReads(a, b, user, m) {
      forall s: nat | m <= s ensures Read(a, user, s) == Read(c, user, s) {
        assert Read(a, user, s) == Read(b, user, s);
      }
    }
    if SameReads(a, c, user, m) {
      forall s: nat | m <= s ensures Read(a, user, s) == Read(b, user, s) {
        assert Read(b, user, s) == Read(c, user, s);
      }
    }
  }

  // ------------------------------------------------------------------ when a compaction is harmless

  /** The check SetupOtherInputs makes at the upper level but not at the lower one: no file left behind there
      continues the last user key of the lower inputs. */
  predicate LowerClosed(levels: Levels, level: nat, in1: seq<File>)
    requires level + 1 < NUM_LEVELS
  {
    in1 == [] || SmallestBoundary(levels[level + 1], LargestKey(in1)) == None
  }

  lemma LowerOlderClosed(levels: Levels, level: nat, in0: seq<File>, in1: seq<File>)
    requires VersionOk(levels) && InputsOk(levels, level, in0, in1) && LowerClosed(levels, level, in1)
    ensures OlderClosed(levels[level + 1], in1)
  {
    var below := levels[level + 1];
    if in1 != [] {
      var a, b := FilterIsSlice(below, Some(SmallestKey(in0).user), Some(LargestKey(in0).user));
      SliceRange(below, a, b);
      NextBoundary(below, b);
      VersionLevelsUnique(levels);
      SliceOlderClosed(below, a, b);
    }
  }

  /** The lower inputs can split no user key but the one they end with. */
  lemma SliceNewer(files: seq<File>, a: nat, b: nat, g: File, t: Entry, f: File, v: Entry)
    requires SortedLevel(files) && UniqueEntries(FilesContent(files)) && a < b <= |files|
    requires g in files[a..b] && t in g.entries && f in files && f !in files[a..b] && v in f.entries
    requires t.key.user == v.key.user != files[b - 1].largest.user
    ensures v.key.seqno > t.key.seqno
  {
    var i :| a <= i < b && files[i] == g;
    var j :| 0 <= j < |files| && files[j] == f;
    if j < a {
      EarlierFileIsNewer(files, f, g);
      assert t in Content(g.entries) && v in Content(f.entries);
    } else {
      RangesInOrder(files, i, b - 1, j);
      EntryWithinFile(g, t);
      EntryWithinFile(f, v);
    }
  }

  lemma RangesInOrder(files: seq<File>, i: nat, k: nat, j: nat)
    requires DisjointRanges(files) && i <= k < j < |files|
    ensures files[i].largest.user <= files[k].largest.user <= files[j].smallest.user
  {
    assert Less(files[k].largest, files[j].smallest);
    assert i < k ==> Less(files[i].largest, files[k].smallest);
  }

  lemma LowerFileIsNewer(levels: Levels, level: nat, in0: seq<File>, in1: seq<File>, g: File, t: Entry, f: File, v: Entry)
    requires VersionOk(levels) && InputsOk(levels, level, in0, in1) && in1 != []
    requires LowerClosed(levels, level, in1) || t.key.user != LargestKey(in1).user
    requires g in in1 && t in g.entries && f in levels[level + 1] && f !in in1 && v in f.entries && t.key.user == v.key.user
    ensures v.key.seqno > t.key.seqno
  {
    var below := levels[level + 1];
    if LowerClosed(levels, level, in1) {
      LowerOlderClosed(levels, level, in0, in1);
      SameLevelIsNewer(below, in1, f, v, g, t);
    } else {
      var a, b := FilterIsSlice(below, Some(SmallestKey(in0).user), Some(LargestKey(in0).user));
      SliceRange(below, a, b);
      VersionLevelsUnique(levels);
      SliceNewer(below, a, b, g, t, f, v);
    }
  }

  /** Unless the user key is one the lower inputs end with and continue below, nothing outside the inputs is older than an
      input of the same user key, or it lies below the two compacted levels. */
  lemma OthersAreNewer(levels: Levels, level: nat, in0: seq<File>, in1: seq<File>, t: Entry, v: Entry)
    requires VersionOk(levels) && InputsOk(levels, level, in0, in1)
    requires in1 == [] || LowerClosed(levels, level, in1) || t.key.user != LargestKey(in1).user
    requires t in InputContent(in0, in1) && v in RestContent(levels, level, in0, in1)
    requires t.key.user == v.key.user && BaseLevelForKey(levels, level, t.key.user)
    ensures v.key.seqno > t.key.seqno
  {
    InputsAreInputs(levels, level, in0, in1);
    var m, g := OwnerOf(levels, level, in0, in1, t);
    var l, f :| 0 <= l < NUM_LEVELS && f in levels[l] && Outside(level, in0, in1, l, f) && v in f.entries;
    if l < level + 1 || level + 1 < l {
      OtherFileIsNewer(levels, level, in0, in1, m, g, t, l, f, v);
    } else if m == level {
      assert t in FilesContent(in0);
      UpperInputCoversLower(levels, level, in0, in1, t, f, v);
    } else {
      LowerFileIsNewer(levels, level, in0, in1, g, t, f, v);
    }
  }

  lemma OtherFileIsNewer(levels: Levels, level: nat, in0: seq<File>, in1: seq<File>, m: nat, g: File, t: Entry, l: nat, f: File, v: Entry)
    requires LevelsOk(levels) && level + 1 < NUM_LEVELS && OlderClosed(levels[level], in0)
    requires (m == level && g in in0) || (m == level + 1 && g in in1)
    requires g in levels[m] && t in g.entries
    requires l < NUM_LEVELS && l != level + 1 && f in levels[l] && Outside(level, in0, in1, l, f) && v in f.entries
    requires t.key.user == v.key.user && BaseLevelForKey(levels, level, t.key.user)
    ensures v.key.seqno > t.key.seqno
  {
    if l >= level + 2 {
      NotAtBaseLevel(levels, level, l, f, v);
    } else if l < m {
      ShallowerIsNewer(levels, l, f, v, m, g, t);
    } else {
      SameLevelIsNewer(levels[level], in0, f, v, g, t);
    }
  }

  lemma ShallowerIsNewer(levels: Levels, l: nat, f: File, v: Entry, m: nat, g: File, t: Entry)
    requires LevelsOk(levels) && l < m < NUM_LEVELS && f in levels[l] && g in levels[m]
    requires v in f.entries && t in g.entries && t.key.user == v.key.user
    ensures v.key.seqno > t.key.seqno
  {
    assert v in FilesContent(levels[l]) && t in FilesContent(levels[m]);
  }

  lemma SameLevelIsNewer(files: seq<File>, chosen: seq<File>, f: File, v: Entry, g: File, t: Entry)
    requires OlderClosed(files, chosen) && g in chosen && f in files && f !in chosen
    requires v in f.entries && t in g.entries && t.key.user == v.key.user
    ensures v.key.seqno > t.key.seqno
  {
    assert NewerFor(Content(f.entries), Content(g.entries));
    assert v in Content(f.entries) && t in Content(g.entries);
  }

  lemma NotAtBaseLevel(levels: Levels, level: nat, l: nat, f: File, v: Entry)
    requires level + 2 <= l < NUM_LEVELS && f in levels[l] && SortedLevel(levels[l]) && v in f.entries
    ensures !BaseLevelForKey(levels, level, v.key.user)
  {
    EntryWithinFile(f, v);
    var i :| 0 <= i < |levels[l]| && levels[l][i] == f;
  }

  lemma UpperInputCoversLower(levels: Levels, level: nat, in0: seq<File>, in1: seq<File>, t: Entry, f: File, v: Entry)
    requires LevelsOk(levels) && InputsOk(levels, level, in0, in1)
    requires t in FilesContent(in0) && f in levels[level + 1] && v in f.entries && v.key.user == t.key.user
    ensures f in in1
  {
    InputWithinHull(levels, level, in0, t);
    assert FileOk(f);
    EntryWithinFile(f, v);
    FilterMembers(levels[level + 1], Some(SmallestKey(in0).user), Some(LargestKey(in0).user));
  }

  /** No user key resurfaces but the one the lower inputs end with, and that one only if it continues below. */
  lemma OthersDoNotResurface(st: Store, history: set<Entry>, level: nat, in0: seq<File>, in1: seq<File>, user: UserKey)
    requires StoreOk(st, history) && InputsOk(st.levels, level, in0, in1)
    requires in1 == [] || LowerClosed(st.levels, level, in1) || user != LargestKey(in1).user
    ensures !Resurfaces(InputContent(in0, in1), Others(st, level, in0, in1), SmallestSnapshot(st), BaseLevelForKey(st.levels, level, user), user)
  {
    forall t, v |
      t in InputContent(in0, in1) && v in Others(st, level, in0, in1) && t.key.user == user && v.key.user == user
      && BaseLevelForKey(st.levels, level, user)
      ensures v.key.seqno > t.key.seqno
    {
      if v in RestContent(st.levels, level, in0, in1) {
        OthersAreNewer(st.levels, level, in0, in1, t, v);
      } else {
        InputsAreInputs(st.levels, level, in0, in1);
        ContentSplits(st.levels, level, in0, in1);
        assert t in AllContent(st.levels);
      }
    }
  }

  lemma LowerClosedIsHarmless(st: Store, history: set<Entry>, level: nat, in0: seq<File>, in1: seq<File>)
    requires StoreOk(st, history) && InputsOk(st.levels, level, in0, in1) && LowerClosed(st.levels, level, in1)
    ensures Harmless(st, level, in0, in1)
  {
    forall user: UserKey
      ensures !Resurfaces(InputContent(in0, in1), Others(st, level, in0, in1), SmallestSnapshot(st),
                          BaseLevelForKey(st.levels, level, user), user)
    {
      OthersDoNotResurface(st, history, level, in0, in1, user);
    }
  }

  /** The last user key of the lower inputs comes back if its marker is dropped while an older value stays behind. */
  ghost predicate LastKeyResurfaces(st: Store, level: nat, in0: seq<File>, in1: seq<File>)
    requires in1 != []
  {
    var user := LargestKey(in1).user;
    Resurfaces(InputContent(in0, in1), Others(st, level, in0, in1), SmallestSnapshot(st), BaseLevelForKey(st.levels, level, user), user)
  }

  /** One user key decides whether a compaction is harmless. */
  lemma HarmlessIffLastKey(st: Store, history: set<Entry>, level: nat, in0: seq<File>, in1: seq<File>)
    requires StoreOk(st, history) && InputsOk(st.levels, level, in0, in1)
    ensures Harmless(st, level, in0, in1) <==> in1 == [] || !LastKeyResurfaces(st, level, in0, in1)
  {
    forall user: UserKey | in1 == [] || user != LargestKey(in1).user
      ensures !Resurfaces(InputContent(in0, in1), Others(st, level, in0, in1), SmallestSnapshot(st),
                          BaseLevelForKey(st.levels, level, user), user)
    {
      OthersDoNotResurface(st, history, level, in0, in1, user);
    }
  }

  // ------------------------------------------------------------------ snapshots

  lemma SnapshotKeeps(st: Store, history: set<Entry>)
    requires StoreOk(st, history)
    ensures StoreOk(AfterTakeSnapshot(st), history)
    ensures SmallestSnapshot(AfterTakeSnapshot(st)) == SmallestSnapshot(st)
  {
  }

  lemma ReleaseKeeps(st: Store, history: set<Entry>, index: nat)
    requires StoreOk(st, history) && index < |st.snapshots|
    ensures StoreOk(AfterRelease(st, index), history)
    ensures SmallestSnapshot(st) <= SmallestSnapshot(AfterRelease(st, index))
  {
  }

  lemma FaithfulLater(st: Store, after: Store, history: set<Entry>)
    requires Faithful(st, history) && Stored(after) == Stored(st)
    requires SmallestSnapshot(st) <= SmallestSnapshot(after)
    ensures Faithful(after, history)
  {
    forall user: UserKey ensures SameReads(Stored(after), history, user, SmallestSnapshot(after)) {
      assert SameReads(Stored(st), history, user, SmallestSnapshot(st));
    }
  }

  // ------------------------------------------------------------------ whole runs

  /** Every step of the store keeps its invariant, whatever choices are made. */
  lemma StepKeeps(st: Store, history: set<Entry>, ev: Event)
    requires StoreOk(st, history) && Enabled(st, ev)
    ensures StoreOk(Apply(st, ev), HistoryAfter(st, history, ev))
  {
    match ev
    case Write(ops) => WriteKeeps(st, history, ops);
    case SwitchMemtable => SwitchKeeps(st, history);
    case FlushMemtable(level, size) => FlushKeeps(st, history, level, size);
    case TrivialMove(level, file) => MoveKeeps(st, history, level, file);
    case Compact(level, in0, in1, outs) => CompactKeeps(st, history, level, in0, in1, outs);
    case TakeSnapshot => SnapshotKeeps(st, history);
    case ReleaseSnapshot(index) => ReleaseKeeps(st, history, index);
  }

  ghost predicate HarmlessStep(st: Store, ev: Event) {
    ev.Compact? ==> Harmless(st, ev.level, ev.in0, ev.in1)
  }

  /** A step of a store that answers faithfully leaves it so if and only if the step is harmless. */
  lemma StepFaithfulIff(st: Store, history: set<Entry>, ev: Event)
    requires StoreOk(st, history) && Faithful(st, history) && Enabled(st, ev)
    ensures Faithful(Apply(st, ev), HistoryAfter(st, history, ev)) <==> HarmlessStep(st, ev)
  {
    match ev
    case Write(ops) => WriteFaithful(st, history, ops);
    case SwitchMemtable => SwitchKeeps(st, history); FaithfulLater(st, AfterSwitch(st), history);
    case FlushMemtable(level, size) => FlushKeeps(st, history, level, size); FaithfulLater(st, AfterFlush(st, level, size), history);
    case TrivialMove(level, file) => MoveKeeps(st, history, level, file); FaithfulLater(st, AfterMove(st, level, file), history);
    case Compact(level, in0, in1, outs) => CompactFaithfulIff(st, history, level, in0, in1, outs);
    case TakeSnapshot => SnapshotKeeps(st, history); FaithfulLater(st, AfterTakeSnapshot(st), history);
    case ReleaseSnapshot(index) => ReleaseKeeps(st, history, index); FaithfulLater(st, AfterRelease(st, index), history);
  }

  ghost predicate RunEnabled(st: Store, events: seq<Event>)
    decreases events
  {
    events != [] ==> Enabled(st, events[0]) && RunEnabled(Apply(st, events[0]), events[1..])
  }

  ghost function EndOfRun(st: Store, events: seq<Event>): Store
    requires RunEnabled(st, events)
    decreases events
  {
    if events == [] then st else EndOfRun(Apply(st, events[0]), events[1..])
  }

  ghost predicate RunHarmless(st: Store, events: seq<Event>)
    requires RunEnabled(st, events)
    decreases events
  {
    events != [] ==> HarmlessStep(st, events[0]) && RunHarmless(Apply(st, events[0]), events[1..])
  }

  /** In every state of the run, the invariant holds and every live reader gets what the history says. */
  ghost predicate RunFaithful(st: Store, history: set<Entry>, events: seq<Event>)
    requires RunEnabled(st, events)
    decreases events
  {
    && StoreOk(st, history) && Faithful(st, history)
    && (events != [] ==> RunFaithful(Apply(st, events[0]), HistoryAfter(st, history, events[0]), events[1..]))
  }

  /** Over any run, all states answer faithfully if and only if no compaction of the run lets a value resurface. */
  lemma {:induction false} RunFaithfulIff(st: Store, history: set<Entry>, events: seq<Event>)
    requires StoreOk(st, history) && Faithful(st, history) && RunEnabled(st, events)
    ensures RunFaithful(st, history, events) <==> RunHarmless(st, events)
    decreases events
  {
    if events != [] {
      var ev := events[0];
      StepKeeps(st, history, ev);
      StepFaithfulIff(st, history, ev);
      if HarmlessStep(st, ev) {
        RunFaithfulIff(Apply(st, ev), HistoryAfter(st, history, ev), events[1..]);
      } else {
        FirstStateFaithful(Apply(st, ev), HistoryAfter(st, history, ev), events[1..]);
      }
    }
  }

  lemma FirstStateFaithful(st: Store, history: set<Entry>, events: seq<Event>)
    requires RunEnabled(st, events)
    ensures RunFaithful(st, history, events) ==> Faithful(st, history)
  {
  }

  /** Every compaction of the run takes lower inputs that do not stop in the middle of a user key. */
  ghost predicate RunLowerClosed(st: Store, events: seq<Event>)
    requires RunEnabled(st, events)
    decreases events
  {
    events != [] ==>
      && (events[0].Compact? ==> LowerClosed(st.levels, events[0].level, events[0].in1))
      && RunLowerClosed(Apply(st, events[0]), events[1..])
  }

  /** The guarantee in terms of the check a compaction could make before it starts. */
  lemma {:induction false} LowerClosedRunsAreFaithful(st: Store, history: set<Entry>, events: seq<Event>)
    requires StoreOk(st, history) && Faithful(st, history) && RunEnabled(st, events) && RunLowerClosed(st, events)
    ensures RunFaithful(st, history, events)
    decreases events
  {
    if events != [] {
      var ev := events[0];
      if ev.Compact? {
        LowerClosedIsHarmless(st, history, ev.level, ev.in0, ev.in1);
      }
      StepKeeps(st, history, ev);
      StepFaithfulIff(st, history, ev);
      LowerClosedRunsAreFaithful(Apply(st, ev), HistoryAfter(st, history, ev), events[1..]);
    }
  }

  const EMPTY_LEVELS: Levels := [[], [], [], [], [], [], []]

  function EmptyStore(nextFile: nat): Store {
    Store([], None, EMPTY_LEVELS, 0, [], nextFile)
  }

  lemma NoFilesOk(levels: Levels)
    requires forall l :: 0 <= l < NUM_LEVELS ==> levels[l] == []
    ensures VersionOk(levels) && AllContent(levels) == {}
  {
  }

  lemma EmptyStoreOk(nextFile: nat)
    ensures StoreOk(EmptyStore(nextFile), {}) && Faithful(EmptyStore(nextFile), {})
  {
    EmptyLevels();
    NoFilesOk(EMPTY_LEVELS);
    NothingStored(EmptyStore(nextFile));
  }

  lemma EmptyLevels()
    ensures forall l :: 0 <= l < NUM_LEVELS ==> EMPTY_LEVELS[l] == []
  {
  }

  lemma NothingStored(st: Store)
    requires VersionOk(st.levels) && AllContent(st.levels) == {} && st.mem == [] && st.imm == None && st.snapshots == []
    requires st.lastSequence == 0 && NumbersAllocated(st)
    ensures StoreOk(st, {}) && Faithful(st, {})
  {
    assert Stored(st) == {};
  }

  // ------------------------------------------------------------------ what the history means to users

  /** The last operation of a batch on `user`, or -1. */
  function LastIndex(ops: seq<Op>, user: UserKey): (i: int)
    ensures -1 <= i < |ops|
    ensures i >= 0 ==> ops[i].user == user
    ensures forall j :: i < j < |ops| ==> ops[j].user != user
  {
    if ops == [] then -1
    else
      var n := |ops| - 1;
      if ops[n].user == user then n else LastIndex(ops[..n], user)
  }

  lemma LastIsNewest(ops: seq<Op>, last: nat, user: UserKey)
    requires last + |ops| <= MAX_SEQUENCE
    ensures var batch := BatchEntries(ops, last + 1);
            var i := LastIndex(ops, user);
            if i >= 0 then Newest(Content(batch), user, last + |ops|, batch[i])
            else NoneVisible(Content(batch), user, last + |ops|)
  {
    var batch, i := BatchEntries(ops, last + 1), LastIndex(ops, user);
    forall x | x in batch && VisibleAt(x, user, last + |ops|) ensures i >= 0 && x.key.seqno <= batch[i].key.seqno {
      var j :| 0 <= j < |batch| && batch[j] == x;
      assert ops[j].user == user;
    }
  }

  /** Put and Delete as users see them: after a write, the last operation of the batch on a key wins and every other
      key reads as before. */
  lemma WriteIsVisible(history: set<Entry>, last: nat, ops: seq<Op>, user: UserKey)
    requires last + |ops| < MAX_SEQUENCE
    requires UniqueEntries(history) && forall e :: e in history ==> e.key.seqno <= last
    ensures var i := LastIndex(ops, user);
            Read(history + Content(BatchEntries(ops, last + 1)), user, last + |ops|) ==
              if i < 0 then Read(history, user, last)
              else if ops[i].kind.Value? then Some(ops[i].value) else None
  {
    if LastIndex(ops, user) >= 0 {
      LastIsRead(history, last, ops, user);
    } else {
      UntouchedReads(history, last, ops, user);
    }
  }

  lemma UntouchedReads(history: set<Entry>, last: nat, ops: seq<Op>, user: UserKey)
    requires last + |ops| < MAX_SEQUENCE && LastIndex(ops, user) < 0
    requires UniqueEntries(history) && forall e :: e in history ==> e.key.seqno <= last
    ensures Read(history + Content(BatchEntries(ops, last + 1)), user, last + |ops|) == Read(history, user, last)
  {
    var batch, now := Content(BatchEntries(ops, last + 1)), last + |ops|;
    LastIsNewest(ops, last, user);
    InvisibleAddition(history, batch, user, now);
    EverythingVisible(history, user, last, now);
    assert Read(history + batch, user, now) == Read(history, user, now) == Read(history, user, last);
  }

  lemma LastIsRead(history: set<Entry>, last: nat, ops: seq<Op>, user: UserKey)
    requires last + |ops| < MAX_SEQUENCE && LastIndex(ops, user) >= 0
    requires UniqueEntries(history) && forall e :: e in history ==> e.key.seqno <= last
    ensures var op := ops[LastIndex(ops, user)];
            Read(history + Content(BatchEntries(ops, last + 1)), user, last + |ops|) == if op.kind.Value? then Some(op.value) else None
  {
    var entries := BatchEntries(ops, last + 1);
    var batch := Content(entries);
    LastIsNewest(ops, last, user);
    BatchIsFresh(ops, last);
    FreshIsNewer(batch, history, last);
    UniqueUnion(batch, history);
    assert history + batch == batch + history;
    NewestOnTop(history, batch, user, last + |ops|, entries[LastIndex(ops, user)], last);
  }

  lemma NewestOnTop(history: set<Entry>, batch: set<Entry>, user: UserKey, now: nat, n: Entry, last: nat)
    requires UniqueEntries(history + batch) && Newest(batch, user, now, n) && n.key.seqno > last
    requires forall e :: e in history ==> e.key.seqno <= last
    ensures Read(history + batch, user, now) == Outcome(n)
  {
    assert Newest(history + batch, user, now, n);
    ReadIsNewest(history + batch, user, now, n);
  }

  /** Snapshot isolation: a write changes nothing for readers at earlier sequence numbers. */
  lemma WriteKeepsOldViews(history: set<Entry>, last: nat, ops: seq<Op>, user: UserKey, s: nat)
    requires last + |ops| < MAX_SEQUENCE && s <= last && UniqueEntries(history)
    ensures Read(history + Content(BatchEntries(ops, last + 1)), user, s) == Read(history, user, s)
  {
    BatchIsFresh(ops, last);
    InvisibleAddition(history, Content(BatchEntries(ops, last + 1)), user, s);
  }

  lemma EverythingVisible(history: set<Entry>, user: UserKey, last: nat, now: nat)
    requires last <= now && UniqueEntries(history) && forall e :: e in history ==> e.key.seqno <= last
    ensures Read(history, user, now) == Read(history, user, last)
  {
    forall e ensures Newest(history, user, now, e) <==> Newest(history, user, last, e) {
    }
    if e :| Newest(history, user, last, e) {
      ReadIsNewest(history, user, last, e);
      ReadIsNewest(history, user, now, e);
    }
  }
}
