/** Crashes and recovery: what is on disk while the store runs, what a crash may take away, and what opening the
    database rebuilds (db/db_impl.cc, db/version_set.cc). */
module Recovery {
  import opened Common
  import opened Keys
  import opened Bytewise
  import opened Version
  import opened Compaction
  import opened Install
  import opened LsmStore
  import opened Batches

  // ------------------------------------------------------------------ what a log file holds

  datatype Batch = Batch(first: SequenceNumber, ops: seq<BatchOp>)

  /** A log file: the batches appended to it, how many of its bytes are there, and how many of them are synced. */
  datatype DiskLog = DiskLog(number: nat, batches: seq<Batch>, cut: nat, synced: nat)

  function OpOf(op: BatchOp): Op {
    match op
    case Put(key, value) => Op(Rank(key), Value, value)
    case Delete(key) => Op(Rank(key), Deletion, [])
  }

  function OpsOf(ops: seq<BatchOp>): seq<Op> {
    seq(|ops|, i requires 0 <= i < |ops| => OpOf(ops[i]))
  }

  function EndOf(b: Batch): nat {
    b.first + |b.ops|
  }

  predicate BatchOk(b: Batch) {
    OpsFit(b.ops) && EndOf(b) <= MAX_SEQUENCE
  }

  ghost function EntriesOf(b: Batch): set<Entry> {
    if EndOf(b) <= MAX_SEQUENCE then Content(BatchEntries(OpsOf(b.ops), b.first)) else {}
  }

  ghost function EntriesIn(batches: seq<Batch>): set<Entry> {
    set b, e | b in batches && e in EntriesOf(b) :: e
  }

  predicate BatchesOk(batches: seq<Batch>) {
    && (forall i :: 0 <= i < |batches| ==> BatchOk(batches[i]))
    && forall i, j :: 0 <= i < j < |batches| ==> EndOf(batches[i]) <= batches[j].first
  }

  /** How many bytes a log of these batches takes. All that matters here is that every batch adds some. */
  type Size = seq<Batch> -> nat

  ghost predicate Growing(size: Size) {
    && size([]) == 0
    && forall batches {:trigger BatchesOk(batches)} :: BatchesOk(batches) && batches != [] ==> size(batches[..|batches| - 1]) < size(batches)
  }

  predicate LogOk(size: Size, l: DiskLog) {
    BatchesOk(l.batches) && l.synced <= l.cut <= size(l.batches)
  }

  /** The first `m` batches, and no more, lie entirely within the first `cut` bytes. */
  predicate IntactBatches(size: Size, batches: seq<Batch>, cut: nat, m: nat) {
    m <= |batches| && size(batches[..m]) <= cut && (m < |batches| ==> cut < size(batches[..m + 1]))
  }

  /** How many batches lie entirely within the first `cut` bytes, looking no further than `upto`. */
  function CountWithin(size: Size, batches: seq<Batch>, cut: nat, upto: nat): (m: nat)
    requires upto <= |batches|
    ensures m <= upto
  {
    if upto == 0 || size(batches[..upto]) <= cut then upto else CountWithin(size, batches, cut, upto - 1)
  }

  function IntactCount(size: Size, batches: seq<Batch>, cut: nat): (m: nat)
    ensures m <= |batches|
  {
    CountWithin(size, batches, cut, |batches|)
  }

  function Surviving(size: Size, l: DiskLog): seq<Batch> {
    l.batches[..IntactCount(size, l.batches, l.cut)]
  }

  function Synced(size: Size, l: DiskLog): seq<Batch> {
    l.batches[..IntactCount(size, l.batches, l.synced)]
  }

  lemma {:induction false} CountIsIntact(size: Size, batches: seq<Batch>, cut: nat, upto: nat)
    requires size([]) == 0 && upto <= |batches| && (upto < |batches| ==> cut < size(batches[..upto + 1]))
    ensures IntactBatches(size, batches, cut, CountWithin(size, batches, cut, upto))
  {
    if upto == 0 {
      assert batches[..0] == [];
    } else if size(batches[..upto]) > cut {
      CountIsIntact(size, batches, cut, upto - 1);
    }
  }

  lemma PrefixGrows(size: Size, batches: seq<Batch>, m: nat)
    requires Growing(size) && BatchesOk(batches) && 0 < m <= |batches|
    ensures size(batches[..m - 1]) < size(batches[..m])
  {
    var prefix := batches[..m];
    assert BatchesOk(prefix) && prefix[..m - 1] == batches[..m - 1];
  }

  lemma {:induction false} SizeMonotone(size: Size, batches: seq<Batch>, k: nat, m: nat)
    requires Growing(size) && BatchesOk(batches) && k <= m <= |batches|
    ensures size(batches[..k]) <= size(batches[..m])
    decreases m - k
  {
    if k < m {
      SizeMonotone(size, batches, k, m - 1);
      PrefixGrows(size, batches, m);
    }
  }

  lemma NotBothIntact(size: Size, batches: seq<Batch>, cut: nat, m: nat, k: nat)
    requires Growing(size) && BatchesOk(batches) && m < k <= |batches|
    requires size(batches[..k]) <= cut
    ensures size(batches[..m + 1]) <= cut
  {
    SizeMonotone(size, batches, m + 1, k);
  }

  lemma IntactUnique(size: Size, batches: seq<Batch>, cut: nat, m: nat)
    requires Growing(size) && BatchesOk(batches) && IntactBatches(size, batches, cut, m)
    ensures m == IntactCount(size, batches, cut)
  {
    CountIsIntact(size, batches, cut, |batches|);
    var k := IntactCount(size, batches, cut);
    if m < k { NotBothIntact(size, batches, cut, m, k); }
    if k < m { NotBothIntact(size, batches, cut, k, m); }
  }

  /** Cutting off more leaves no more. */
  lemma {:induction false} CountMonotone(size: Size, batches: seq<Batch>, a: nat, b: nat, upto: nat)
    requires a <= b && upto <= |batches|
    ensures CountWithin(size, batches, a, upto) <= CountWithin(size, batches, b, upto)
  {
    if upto > 0 && size(batches[..upto]) > b { CountMonotone(size, batches, a, b, upto - 1); }
  }

  lemma WholeIsIntact(size: Size, batches: seq<Batch>)
    ensures IntactCount(size, batches, size(batches)) == |batches|
  {
    assert batches[..|batches|] == batches;
  }

  // ------------------------------------------------------------------ appending to a log

  lemma AppendOk(batches: seq<Batch>, b: Batch)
    requires BatchesOk(batches) && BatchOk(b) && forall i :: 0 <= i < |batches| ==> EndOf(batches[i]) <= b.first
    ensures BatchesOk(batches + [b])
  {
  }

  lemma SizeGrows(size: Size, batches: seq<Batch>, b: Batch)
    requires Growing(size) && BatchesOk(batches + [b])
    ensures size(batches) < size(batches + [b])
  {
    assert (batches + [b])[..|batches|] == batches;
  }

  /** What an earlier cut leaves of a log does not depend on what is appended later. */
  lemma IntactAppend(size: Size, batches: seq<Batch>, b: Batch, cut: nat)
    requires Growing(size) && BatchesOk(batches + [b]) && BatchesOk(batches) && cut <= size(batches)
    ensures IntactCount(size, batches + [b], cut) == IntactCount(size, batches, cut)
  {
    var n, m := |batches|, IntactCount(size, batches, cut);
    CountIsIntact(size, batches, cut, n);
    SizeGrows(size, batches, b);
    assert (batches + [b])[..m] == batches[..m];
    assert m < n ==> (batches + [b])[..m + 1] == batches[..m + 1];
    assert m == n ==> (batches + [b])[..m + 1] == batches + [b];
    IntactUnique(size, batches + [b], cut, m);
  }

  lemma EntriesAppend(batches: seq<Batch>, b: Batch)
    ensures EntriesIn(batches + [b]) == EntriesIn(batches) + EntriesOf(b)
  {
    forall e | e in EntriesIn(batches) + EntriesOf(b) ensures e in EntriesIn(batches + [b]) {
      if e in EntriesIn(batches) {
        var c :| c in batches && e in EntriesOf(c);
        assert c in batches + [b];
      } else {
        assert b in batches + [b];
      }
    }
  }

  lemma EntriesPrefix(batches: seq<Batch>, k: nat, m: nat)
    requires k <= m <= |batches|
    ensures EntriesIn(batches[..k]) <= EntriesIn(batches[..m])
  {
    forall e | e in EntriesIn(batches[..k]) ensures e in EntriesIn(batches[..m]) {
      var b :| b in batches[..k] && e in EntriesOf(b);
      assert b in batches[..m];
    }
  }

  /** The sequence numbers a batch uses. */
  lemma EntriesBounds(b: Batch, e: Entry)
    requires e in EntriesOf(b)
    ensures b.first <= e.key.seqno < EndOf(b)
  {
  }

  // ------------------------------------------------------------------ the disk

  /** `logs` are the log files of the directory in the order of their numbers. */
  datatype Disk = Disk(levels: Levels, lastSequence: SequenceNumber, nextFile: nat, logNumber: nat, logs: seq<DiskLog>)

  /** One way to look at a log file: some of its batches. */
  datatype View = View(number: nat, batches: seq<Batch>)

  predicate AllOk(size: Size, logs: seq<DiskLog>) {
    && (forall i :: 0 <= i < |logs| ==> LogOk(size, logs[i]))
    && forall i, j :: 0 <= i < j < |logs| ==> logs[i].number < logs[j].number
  }

  function WrittenTo(logs: seq<DiskLog>): seq<View> {
    seq(|logs|, i requires 0 <= i < |logs| => View(logs[i].number, logs[i].batches))
  }

  ghost function SurvivingIn(size: Size, logs: seq<DiskLog>): seq<View>
  {
    seq(|logs|, i requires 0 <= i < |logs| => View(logs[i].number, Surviving(size, logs[i])))
  }

  ghost function SyncedIn(size: Size, logs: seq<DiskLog>): seq<View>
  {
    seq(|logs|, i requires 0 <= i < |logs| => View(logs[i].number, Synced(size, logs[i])))
  }

  /** The entries in the logs recovery reads: those with numbers from `lo` on. */
  ghost function ViewEntries(lo: nat, views: seq<View>): set<Entry> {
    if views == [] then {}
    else
      var n := |views| - 1;
      ViewEntries(lo, views[..n]) + if lo <= views[n].number then EntriesIn(views[n].batches) else {}
  }

  /** What recovery will find in the live logs. */
  ghost function Logged(size: Size, disk: Disk): set<Entry>
  {
    ViewEntries(disk.logNumber, SurvivingIn(size, disk.logs))
  }

  /** What no crash can take out of the live logs. */
  ghost function LoggedSynced(size: Size, disk: Disk): set<Entry>
  {
    ViewEntries(disk.logNumber, SyncedIn(size, disk.logs))
  }

  predicate Precedes(a: seq<Batch>, b: seq<Batch>) {
    forall i, j :: 0 <= i < |a| && 0 <= j < |b| ==> EndOf(a[i]) <= b[j].first
  }

  predicate Between(mark: nat, batches: seq<Batch>, last: nat) {
    forall i :: 0 <= i < |batches| ==> mark < batches[i].first && EndOf(batches[i]) <= last + 1
  }

  /** The live logs are newer than `mark`, and a log is newer than the logs before it. */
  predicate ViewsOk(lo: nat, views: seq<View>, mark: nat, last: nat) {
    && (forall i :: 0 <= i < |views| && lo <= views[i].number ==> Between(mark, views[i].batches, last))
    && forall i, j :: 0 <= i < j < |views| && lo <= views[i].number ==> Precedes(views[i].batches, views[j].batches)
  }

  predicate LogsOk(size: Size, lo: nat, logs: seq<DiskLog>, mark: nat, last: nat) {
    AllOk(size, logs) && ViewsOk(lo, WrittenTo(logs), mark, last)
  }

  /** The store the manifest alone describes. */
  function Committed(disk: Disk): Store {
    Store([], None, disk.levels, disk.lastSequence, [], disk.nextFile)
  }

  predicate Bounded(flushed: set<Entry>, mark: nat) {
    forall e :: e in flushed ==> e.key.seqno <= mark
  }

  /** `flushed` holds every entry ever handed to a table and `mark` bounds their sequence numbers; everything in a live
      log is newer. */
  ghost predicate DiskOk(size: Size, disk: Disk, flushed: set<Entry>, mark: nat) {
    && StoreOk(Committed(disk), flushed)
    && Bounded(flushed, mark) && mark <= disk.lastSequence && disk.logNumber < disk.nextFile
    && LogsOk(size, disk.logNumber, disk.logs, mark, MAX_SEQUENCE - 1)
    && UniqueEntries(flushed + Logged(size, disk))
  }

  // ------------------------------------------------------------------ the running database

  datatype Db = Up(st: Store, disk: Disk) | Down(disk: Disk)

  /** Only the files of a store. */
  function OnDisk(st: Store): Store {
    st.(mem := [], imm := None)
  }

  predicate Uncut(size: Size, lo: nat, logs: seq<DiskLog>)
  {
    forall i :: 0 <= i < |logs| && lo <= logs[i].number ==> logs[i].cut == size(logs[i].batches)
  }

  /** Nothing is cut off the live logs, and the last log is the one being written. */
  predicate Writing(size: Size, lo: nat, logs: seq<DiskLog>, nextFile: nat)
  {
    logs != [] && lo <= logs[|logs| - 1].number < nextFile && Uncut(size, lo, logs)
  }

  /** The memtable holds what the last log holds, the immutable memtable what the live logs before it hold. */
  ghost predicate Mirrors(mem: set<Entry>, imm: set<Entry>, lo: nat, views: seq<View>) {
    && views != [] && mem == EntriesIn(views[|views| - 1].batches)
    && imm == ViewEntries(lo, views[..|views| - 1])
  }

  /** Without an immutable memtable, only the last log is live. */
  predicate OneLog(st: Store, disk: Disk) {
    st.imm == None ==> disk.logs != [] && disk.logNumber == disk.logs[|disk.logs| - 1].number
  }

  /** The running store against its logs. */
  ghost predicate LogsHold(size: Size, st: Store, disk: Disk, mark: nat) {
    exists last, mem, imm ::
      && mark <= last == st.lastSequence && mem == Content(st.mem) && imm == Content(ImmRun(st))
      && LogsOk(size, disk.logNumber, disk.logs, mark, last) && Writing(size, disk.logNumber, disk.logs, st.nextFile)
      && Mirrors(mem, imm, disk.logNumber, WrittenTo(disk.logs)) && OneLog(st, disk)
  }

  ghost predicate FilesBelow(levels: Levels, n: nat) {
    forall l, f :: 0 <= l < NUM_LEVELS && f in levels[l] ==> f.number < n
  }

  /** The files of the running store are the ones in the manifest, which is never ahead of the store, and nothing newer
      than `mark` is in them. */
  ghost predicate FilesHold(st: Store, disk: Disk, flushed: set<Entry>, mark: nat) {
    exists content ::
      && content == AllContent(st.levels) && content <= flushed && Bounded(flushed, mark)
      && st.levels == disk.levels && mark <= disk.lastSequence <= st.lastSequence && disk.nextFile <= st.nextFile
      && FilesBelow(st.levels, disk.nextFile) && disk.logNumber < disk.nextFile
  }

  /** The running store is sound for everything flushed and logged. */
  ghost predicate StoreHolds(st: Store, flushed: set<Entry>, logged: set<Entry>) {
    exists history :: history == flushed + logged && StoreOk(st, history)
  }

  ghost predicate UpOkAt(size: Size, st: Store, disk: Disk, flushed: set<Entry>, mark: nat) {
    FilesHold(st, disk, flushed, mark) && LogsHold(size, st, disk, mark) && StoreHolds(st, flushed, Logged(size, disk))
  }

  ghost predicate DbOkAt(size: Size, db: Db, flushed: set<Entry>, mark: nat) {
    match db
    case Up(st, disk) => UpOkAt(size, st, disk, flushed, mark)
    case Down(disk) => DiskOk(size, disk, flushed, mark)
  }

  /** The invariant of the database: for some bound between what is flushed and what is logged. */
  ghost predicate DbOk(size: Size, db: Db, flushed: set<Entry>) {
    exists mark :: DbOkAt(size, db, flushed, mark)
  }

  /** The part of the database a crash leaves: the files of a running one, what the manifest describes of one that is
      down. */
  function FilesOf(db: Db): Store {
    match db
    case Up(st, disk) => OnDisk(st)
    case Down(disk) => Committed(disk)
  }

  /** The files alone answer every live reader as everything handed to tables says. */
  ghost predicate Answers(db: Db, flushed: set<Entry>) {
    Faithful(FilesOf(db), flushed)
  }

  // ------------------------------------------------------------------ views

  /** Views that show the same of every live log show the same entries. */
  lemma {:induction false} SameViews(lo: nat, a: seq<View>, b: seq<View>)
    requires |a| == |b| && forall i :: 0 <= i < |a| ==> a[i].number == b[i].number
    requires forall i :: 0 <= i < |a| && lo <= a[i].number ==> a[i].batches == b[i].batches
    ensures ViewEntries(lo, a) == ViewEntries(lo, b)
  {
    if a != [] {
      SameViews(lo, a[..|a| - 1], b[..|b| - 1]);
    }
  }

  /** A view that shows less of every live log shows no more entries. */
  lemma {:induction false} SmallerViews(lo: nat, a: seq<View>, b: seq<View>)
    requires |a| == |b| && forall i :: 0 <= i < |a| ==> a[i].number == b[i].number && a[i].batches <= b[i].batches
    ensures ViewEntries(lo, a) <= ViewEntries(lo, b)
  {
    if a != [] {
      var n := |a| - 1;
      SmallerViews(lo, a[..n], b[..n]);
      var m := |a[n].batches|;
      EntriesPrefix(b[n].batches, m, |b[n].batches|);
      assert b[n].batches[..m] == a[n].batches && b[n].batches[..|b[n].batches|] == b[n].batches;
    }
  }

  lemma {:induction false} ViewBounds(lo: nat, views: seq<View>, mark: nat, last: nat)
    requires forall i :: 0 <= i < |views| && lo <= views[i].number ==> Between(mark, views[i].batches, last)
    ensures forall e :: e in ViewEntries(lo, views) ==> mark < e.key.seqno <= last
  {
    if views != [] {
      var n := |views| - 1;
      ViewBounds(lo, views[..n], mark, last);
      if lo <= views[n].number { BatchBounds(views[n].batches, mark, last); }
    }
  }

  lemma BatchBounds(batches: seq<Batch>, mark: nat, last: nat)
    requires Between(mark, batches, last)
    ensures forall e :: e in EntriesIn(batches) ==> mark < e.key.seqno <= last
  {
    forall e | e in EntriesIn(batches) ensures mark < e.key.seqno <= last {
      var b :| b in batches && e in EntriesOf(b);
      var i :| 0 <= i < |batches| && batches[i] == b;
      EntriesBounds(b, e);
    }
  }

  lemma FullLogSurvives(size: Size, l: DiskLog)
    requires LogOk(size, l) && l.cut == size(l.batches)
    ensures Surviving(size, l) == l.batches
  {
    WholeIsIntact(size, l.batches);
  }

  lemma UncutSurvives(size: Size, lo: nat, logs: seq<DiskLog>)
    requires AllOk(size, logs) && Uncut(size, lo, logs)
    ensures ViewEntries(lo, SurvivingIn(size, logs)) == ViewEntries(lo, WrittenTo(logs))
  {
    var a, b := SurvivingIn(size, logs), WrittenTo(logs);
    forall i | 0 <= i < |a| && lo <= a[i].number ensures a[i].batches == b[i].batches {
      FullLogSurvives(size, logs[i]);
    }
    SameViews(lo, a, b);
  }

  /** A running store has everything logged in memory. */
  lemma LoggedIsMemory(size: Size, st: Store, disk: Disk, mark: nat)
    requires LogsHold(size, st, disk, mark)
    ensures Logged(size, disk) == Content(st.mem) + Content(ImmRun(st))
    ensures st.levels == disk.levels ==> Stored(st) == AllContent(disk.levels) + Logged(size, disk)
  {
    UncutSurvives(size, disk.logNumber, disk.logs);
  }

  lemma HeldIsNewer(size: Size, st: Store, disk: Disk, flushed: set<Entry>, mark: nat)
    requires LogsHold(size, st, disk, mark) && Bounded(flushed, mark)
    ensures NewerFor(Logged(size, disk), flushed)
  {
    LoggedIsNewer(size, disk, flushed, mark, st.lastSequence);
  }

  lemma LoggedBounds(size: Size, disk: Disk, mark: nat, last: nat)
    requires LogsOk(size, disk.logNumber, disk.logs, mark, last)
    ensures forall e :: e in Logged(size, disk) ==> mark < e.key.seqno <= last
  {
    var a, b := SurvivingIn(size, disk.logs), WrittenTo(disk.logs);
    SmallerViews(disk.logNumber, a, b);
    ViewBounds(disk.logNumber, b, mark, last);
  }

  /** Everything logged is newer than everything flushed. */
  lemma LoggedIsNewer(size: Size, disk: Disk, flushed: set<Entry>, mark: nat, last: nat)
    requires Bounded(flushed, mark) && LogsOk(size, disk.logNumber, disk.logs, mark, last)
    ensures NewerFor(Logged(size, disk), flushed)
  {
    LoggedBounds(size, disk, mark, last);
    FreshIsNewer(Logged(size, disk), flushed, mark);
  }

  lemma LoggedReads(levels: set<Entry>, flushed: set<Entry>, logged: set<Entry>, stored: set<Entry>, m: nat)
    requires levels <= flushed && UniqueEntries(flushed + logged) && NewerFor(logged, flushed) && stored == levels + logged
    requires forall user: UserKey :: SameReads(levels, flushed, user, m)
    ensures forall user: UserKey :: SameReads(stored, flushed + logged, user, m)
  {
    forall user: UserKey ensures SameReads(stored, flushed + logged, user, m) {
      WriteReads(levels, flushed, logged, user, m);
    }
  }

  lemma HeldIsUnique(st: Store, flushed: set<Entry>, logged: set<Entry>)
    requires StoreHolds(st, flushed, logged)
    ensures UniqueEntries(flushed + logged)
  {
  }

  lemma FilesFlushed(st: Store, disk: Disk, flushed: set<Entry>, mark: nat)
    requires FilesHold(st, disk, flushed, mark)
    ensures AllContent(st.levels) <= flushed && Bounded(flushed, mark) && st.levels == disk.levels
  {
  }

  lemma FilesAnswer(st: Store, flushed: set<Entry>)
    requires Faithful(OnDisk(st), flushed)
    ensures forall user: UserKey :: SameReads(AllContent(st.levels), flushed, user, SmallestSnapshot(st))
  {
    forall user: UserKey ensures SameReads(AllContent(st.levels), flushed, user, SmallestSnapshot(st)) {
      assert Stored(OnDisk(st)) == AllContent(st.levels);
      assert SameReads(Stored(OnDisk(st)), flushed, user, SmallestSnapshot(OnDisk(st)));
    }
  }

  /** What users need: if the files answer for everything flushed, every live reader of the running store gets what the
      flushed and logged entries together say. */
  lemma UpIsFaithful(size: Size, st: Store, disk: Disk, flushed: set<Entry>)
    requires DbOk(size, Up(st, disk), flushed) && Answers(Up(st, disk), flushed)
    ensures Faithful(st, flushed + Logged(size, disk))
  {
    var mark :| DbOkAt(size, Up(st, disk), flushed, mark);
    FilesFlushed(st, disk, flushed, mark);
    FilesAnswer(st, flushed);
    LoggedIsMemory(size, st, disk, mark);
    HeldIsNewer(size, st, disk, flushed, mark);
    HeldIsUnique(st, flushed, Logged(size, disk));
    LoggedReads(AllContent(st.levels), flushed, Logged(size, disk), Stored(st), SmallestSnapshot(st));
  }

  // ------------------------------------------------------------------ the steps

  /** One atomic step: a committed write batch, the steps of the running store, numbers taken and files deleted, a
      crash that leaves `cuts[i]` bytes of the i-th log, an interrupted recovery, a recovery. */
  datatype DbEvent =
    | Commit(ops: seq<BatchOp>, sync: bool)
    | Switch
    | Flush(level: nat, bytes: nat)
    | Rearrange(change: Event)
    | Snapshots(change: Event)
    | AllocateFile
    | DeleteLog(index: nat)
    | Crash(cuts: seq<nat>)
    | AbandonLog(number: nat)
    | Recover(st: Store, disk: Disk)

  function LastLogOf(disk: Disk): DiskLog
    requires disk.logs != []
  {
    disk.logs[|disk.logs| - 1]
  }

  /** log_->AddRecord and, for a sync write, logfile_->Sync. */
  function Appended(size: Size, l: DiskLog, b: Batch, sync: bool): DiskLog
    requires BatchesOk(l.batches + [b])
  {
    var n := size(l.batches + [b]);
    DiskLog(l.number, l.batches + [b], n, if sync then n else l.synced)
  }

  function AppendedLogs(size: Size, logs: seq<DiskLog>, b: Batch, sync: bool): seq<DiskLog>
    requires logs != [] && BatchesOk(logs[|logs| - 1].batches + [b])
  {
    logs[..|logs| - 1] + [Appended(size, logs[|logs| - 1], b, sync)]
  }

  ghost predicate Committing(size: Size, st: Store, disk: Disk, ops: seq<BatchOp>, sync: bool, after: Db) {
    exists b :: st.lastSequence + |ops| < MAX_SEQUENCE && b == Batch(st.lastSequence + 1, ops)
      && OpsFit(ops) && disk.logs != [] && BatchesOk(LastLogOf(disk).batches + [b])
      && after == Up(AfterWrite(st, OpsOf(ops)), CommittedDisk(size, disk, b, sync))
  }

  /** LogAndApply: the version, the last sequence number and the next file number of the store go to the manifest. */
  function Manifest(st: Store, disk: Disk): Disk {
    disk.(levels := st.levels, lastSequence := st.lastSequence, nextFile := st.nextFile)
  }

  ghost predicate Rearranging(st: Store, disk: Disk, change: Event, after: Db) {
    && (change.TrivialMove? || change.Compact?)
    && Enabled(st, change) && after == Up(Apply(st, change), Manifest(Apply(st, change), disk))
  }

  predicate Cuttable(logs: seq<DiskLog>, cuts: seq<nat>) {
    |cuts| == |logs| && forall i :: 0 <= i < |logs| ==> logs[i].synced <= cuts[i] <= logs[i].cut
  }

  function CutLogs(logs: seq<DiskLog>, cuts: seq<nat>): seq<DiskLog>
    requires |cuts| == |logs|
  {
    seq(|logs|, i requires 0 <= i < |logs| => logs[i].(cut := cuts[i]))
  }

  /** What opening the database leaves: every surviving batch in a table, numbers above everything in use, and the
      manifest pointing at a new, empty log. */
  ghost predicate Recovered(size: Size, disk: Disk, st: Store, after: Disk)
  {
    && VersionOk(st.levels) && AllContent(st.levels) == AllContent(disk.levels) + Logged(size, disk)
    && st.mem == [] && st.imm == None && st.snapshots == []
    && disk.lastSequence <= st.lastSequence < MAX_SEQUENCE && (forall e :: e in Logged(size, disk) ==> e.key.seqno <= st.lastSequence)
    && NumbersAllocated(st) && disk.nextFile < st.nextFile && after.logNumber < st.nextFile
    && (forall i :: 0 <= i < |disk.logs| ==> disk.logs[i].number < after.logNumber)
    && after == Manifest(st, disk).(logNumber := after.logNumber, logs := disk.logs + [EmptyLog(after.logNumber)])
  }

  ghost predicate Moves(size: Size, db: Db, ev: DbEvent, after: Db) {
    var disk := db.disk;
    match ev
    case Commit(ops, sync) => db.Up? && Committing(size, db.st, disk, ops, sync, after)
    case Switch =>
      && db.Up? && db.st.imm == None
      && after == Up(SwitchedStore(db.st), SwitchedDisk(db.st, disk))
    case Flush(level, bytes) =>
      && db.Up? && CanFlush(db.st, level, bytes) && disk.logs != []
      && after == Up(AfterFlush(db.st, level, bytes), FlushedDisk(db.st, disk, level, bytes))
    case Rearrange(change) => db.Up? && Rearranging(db.st, disk, change, after)
    case Snapshots(change) =>
      && db.Up? && (change.TakeSnapshot? || change.ReleaseSnapshot?) && Enabled(db.st, change)
      && after == Up(Apply(db.st, change), disk)
    case AllocateFile => db.Up? && after == db.(st := db.st.(nextFile := db.st.nextFile + 1))
    case DeleteLog(index) =>
      && db.Up? && index < |disk.logs| && disk.logs[index].number < disk.logNumber
      && after == Up(db.st, disk.(logs := Without(disk.logs, index)))
    case Crash(cuts) => Cuttable(disk.logs, cuts) && after == Down(disk.(logs := CutLogs(disk.logs, cuts)))
    case AbandonLog(number) =>
      && db.Down? && (forall i :: 0 <= i < |disk.logs| ==> disk.logs[i].number < number)
      && after == Down(disk.(logs := disk.logs + [EmptyLog(number)]))
    case Recover(st, recovered) => db.Down? && Recovered(size, disk, st, recovered) && after == Up(st, recovered)
  }

  /** `after` is what event `ev` makes of `db`. */
  ghost predicate Next(size: Size, db: Db, ev: DbEvent, after: Db) {
    exists before :: before == db && Moves(size, before, ev, after)
  }

  /** Everything the database still stands for. */
  ghost function History(size: Size, db: Db, flushed: set<Entry>): set<Entry>
  {
    flushed + Logged(size, db.disk)
  }

  /** Everything no crash can take away. */
  ghost function Durable(size: Size, db: Db, flushed: set<Entry>): set<Entry>
  {
    flushed + LoggedSynced(size, db.disk)
  }

  // ------------------------------------------------------------------ facts about stores

  /** A larger last sequence number or more file numbers taken change nothing that was promised. */
  lemma Raised(st: Store, after: Store, history: set<Entry>)
    requires StoreOk(st, history) && after == st.(lastSequence := after.lastSequence, nextFile := after.nextFile)
    requires st.lastSequence <= after.lastSequence < MAX_SEQUENCE && st.nextFile <= after.nextFile
    ensures StoreOk(after, history) && (Faithful(st, history) ==> Faithful(after, history))
  {
    if Faithful(st, history) { FaithfulLater(st, after, history); }
  }

  // ------------------------------------------------------------------ a committed batch

  lemma AppendedViewsOk(lo: nat, views: seq<View>, mark: nat, last: nat, now: nat, b: Batch)
    requires ViewsOk(lo, views, mark, last) && views != [] && lo <= views[|views| - 1].number
    requires b.first == last + 1 && mark <= last && now == last + |b.ops|
    ensures ViewsOk(lo, Extended(views, b), mark, now)
  {
    var n, after := |views| - 1, Extended(views, b);
    forall i | 0 <= i < |after| && lo <= after[i].number ensures Between(mark, after[i].batches, now) {
      assert Between(mark, views[i].batches, last);
    }
    forall i, j | 0 <= i < j < |after| && lo <= after[i].number ensures Precedes(after[i].batches, after[j].batches) {
      assert Between(mark, views[i].batches, last);
      assert Precedes(views[i].batches, views[j].batches);
    }
  }

  function Extended(views: seq<View>, b: Batch): seq<View>
    requires views != []
  {
    var n := |views| - 1;
    views[..n] + [View(views[n].number, views[n].batches + [b])]
  }

  lemma ExtendedEntries(lo: nat, views: seq<View>, b: Batch, mem: set<Entry>, imm: set<Entry>)
    requires Mirrors(mem, imm, lo, views) && lo <= views[|views| - 1].number
    ensures Mirrors(mem + EntriesOf(b), imm, lo, Extended(views, b))
    ensures ViewEntries(lo, Extended(views, b)) == ViewEntries(lo, views) + EntriesOf(b)
  {
    var n := |views| - 1;
    EntriesAppend(views[n].batches, b);
    assert Extended(views, b)[..n] == views[..n];
  }

  lemma AppendedLogOk(size: Size, l: DiskLog, b: Batch, sync: bool)
    requires Growing(size) && LogOk(size, l) && BatchesOk(l.batches + [b])
    ensures LogOk(size, Appended(size, l, b, sync))
    ensures Appended(size, l, b, sync).cut == size(Appended(size, l, b, sync).batches)
  {
    SizeGrows(size, l.batches, b);
  }

  lemma ReplaceLast(size: Size, lo: nat, logs: seq<DiskLog>, l: DiskLog)
    requires AllOk(size, logs) && logs != [] && LogOk(size, l) && l.number == logs[|logs| - 1].number
    ensures AllOk(size, logs[..|logs| - 1] + [l])
    ensures Uncut(size, lo, logs) && l.cut == size(l.batches) ==> Uncut(size, lo, logs[..|logs| - 1] + [l])
  {
    var after := logs[..|logs| - 1] + [l];
    assert forall i :: 0 <= i < |logs| - 1 ==> after[i] == logs[i];
  }

  lemma AppendedLogsOk(size: Size, lo: nat, logs: seq<DiskLog>, b: Batch, sync: bool)
    requires Growing(size) && AllOk(size, logs) && logs != [] && BatchesOk(logs[|logs| - 1].batches + [b])
    ensures AllOk(size, AppendedLogs(size, logs, b, sync))
    ensures Uncut(size, lo, logs) ==> Uncut(size, lo, AppendedLogs(size, logs, b, sync))
  {
    var l := logs[|logs| - 1];
    assert LogOk(size, l);
    AppendedLogOk(size, l, b, sync);
    ReplaceLast(size, lo, logs, Appended(size, l, b, sync));
  }

  lemma AppendedViews(size: Size, logs: seq<DiskLog>, b: Batch, sync: bool)
    requires logs != [] && BatchesOk(logs[|logs| - 1].batches + [b])
    ensures WrittenTo(AppendedLogs(size, logs, b, sync)) == Extended(WrittenTo(logs), b)
  {
    var n, after := |logs| - 1, AppendedLogs(size, logs, b, sync);
    forall i | 0 <= i < |logs| ensures WrittenTo(after)[i] == Extended(WrittenTo(logs), b)[i] {
      assert i < n ==> after[i] == logs[i];
    }
  }

  lemma CanAppend(batches: seq<Batch>, mark: nat, last: nat, b: Batch)
    requires BatchesOk(batches) && Between(mark, batches, last) && BatchOk(b) && b.first == last + 1
    ensures BatchesOk(batches + [b])
  {
    AppendOk(batches, b);
  }

  lemma LastCanAppend(size: Size, lo: nat, logs: seq<DiskLog>, mark: nat, last: nat, b: Batch)
    requires LogsOk(size, lo, logs, mark, last) && logs != [] && lo <= logs[|logs| - 1].number
    requires BatchOk(b) && b.first == last + 1
    ensures BatchesOk(logs[|logs| - 1].batches + [b])
  {
    var n := |logs| - 1;
    assert Between(mark, WrittenTo(logs)[n].batches, last);
    assert LogOk(size, logs[n]);
    CanAppend(logs[n].batches, mark, last, b);
  }

  lemma CommitLogs(size: Size, disk: Disk, mark: nat, last: nat, now: nat, b: Batch, sync: bool, mem: set<Entry>, imm: set<Entry>, nextFile: nat)
    requires Growing(size) && now == last + |b.ops| && LogsOk(size, disk.logNumber, disk.logs, mark, last)
    requires Writing(size, disk.logNumber, disk.logs, nextFile) && Mirrors(mem, imm, disk.logNumber, WrittenTo(disk.logs))
    requires BatchOk(b) && b.first == last + 1 && mark <= last
    ensures BatchesOk(LastLogOf(disk).batches + [b])
    ensures var logs := AppendedLogs(size, disk.logs, b, sync);
            && LogsOk(size, disk.logNumber, logs, mark, now) && Writing(size, disk.logNumber, logs, nextFile)
            && Mirrors(mem + EntriesOf(b), imm, disk.logNumber, WrittenTo(logs))
            && ViewEntries(disk.logNumber, WrittenTo(logs)) == ViewEntries(disk.logNumber, WrittenTo(disk.logs)) + EntriesOf(b)
  {
    LastCanAppend(size, disk.logNumber, disk.logs, mark, last, b);
    AppendedLogsOk(size, disk.logNumber, disk.logs, b, sync);
    AppendedViews(size, disk.logs, b, sync);
    AppendedViewsOk(disk.logNumber, WrittenTo(disk.logs), mark, last, now, b);
    ExtendedEntries(disk.logNumber, WrittenTo(disk.logs), b, mem, imm);
  }

  lemma CommitHold(size: Size, st: Store, disk: Disk, mark: nat, after: Store, b: Batch, sync: bool)
    requires Growing(size) && LogsHold(size, st, disk, mark)
    requires BatchOk(b) && b.first == st.lastSequence + 1 && after.lastSequence == st.lastSequence + |b.ops|
    requires Content(after.mem) == Content(st.mem) + EntriesOf(b) && after.imm == st.imm && after.nextFile == st.nextFile
    ensures disk.logs != [] && BatchesOk(LastLogOf(disk).batches + [b])
    ensures LogsHold(size, after, CommittedDisk(size, disk, b, sync), mark)
    ensures Logged(size, CommittedDisk(size, disk, b, sync)) == Logged(size, disk) + EntriesOf(b)
  {
    CommitLogs(size, disk, mark, st.lastSequence, after.lastSequence, b, sync, Content(st.mem), Content(ImmRun(st)), st.nextFile);
    UncutSurvives(size, disk.logNumber, disk.logs);
    UncutSurvives(size, disk.logNumber, AppendedLogs(size, disk.logs, b, sync));
  }

  lemma EntriesAreWritten(st: Store, ops: seq<BatchOp>)
    requires st.lastSequence + |ops| < MAX_SEQUENCE
    ensures EntriesOf(Batch(st.lastSequence + 1, ops)) == WrittenBy(st, OpsOf(ops))
  {
  }

  lemma CommitMemory(st: Store, hist: set<Entry>, ops: seq<BatchOp>)
    requires StoreOk(st, hist) && OpsFit(ops) && st.lastSequence + |ops| < MAX_SEQUENCE
    ensures Content(AfterWrite(st, OpsOf(ops)).mem) == Content(st.mem) + EntriesOf(Batch(st.lastSequence + 1, ops))
  {
    EntriesAreWritten(st, ops);
    WriteKeepsMemory(st, hist, OpsOf(ops));
  }

  lemma CommitStore(st: Store, flushed: set<Entry>, logged: set<Entry>, ops: seq<BatchOp>)
    requires StoreHolds(st, flushed, logged) && OpsFit(ops) && st.lastSequence + |ops| < MAX_SEQUENCE
    ensures var b, after := Batch(st.lastSequence + 1, ops), AfterWrite(st, OpsOf(ops));
            && Content(after.mem) == Content(st.mem) + EntriesOf(b) && EntriesOf(b) == WrittenBy(st, OpsOf(ops))
            && StoreHolds(after, flushed, logged + EntriesOf(b))
  {
    EntriesAreWritten(st, ops);
    CommitMemory(st, flushed + logged, ops);
    WriteKeeps(st, flushed + logged, OpsOf(ops));
    SetAssoc(flushed, logged, WrittenBy(st, OpsOf(ops)));
  }

  /** More writes and more numbers taken change nothing about the files. */
  lemma FilesStay(st: Store, disk: Disk, flushed: set<Entry>, mark: nat, after: Store, later: Disk)
    requires FilesHold(st, disk, flushed, mark) && Committed(later) == Committed(disk) && later.logNumber == disk.logNumber
    requires after.levels == st.levels && after.snapshots == st.snapshots
    requires st.lastSequence <= after.lastSequence && st.nextFile <= after.nextFile
    ensures FilesHold(after, later, flushed, mark)
  {
  }

  function CommittedDisk(size: Size, disk: Disk, b: Batch, sync: bool): Disk
    requires disk.logs != [] && BatchesOk(LastLogOf(disk).batches + [b])
  {
    disk.(logs := AppendedLogs(size, disk.logs, b, sync))
  }

  /** A committed batch adds exactly its entries to the log. */
  lemma CommitAdds(size: Size, st: Store, disk: Disk, ops: seq<BatchOp>, sync: bool, flushed: set<Entry>)
    requires Growing(size) && DbOk(size, Up(st, disk), flushed) && OpsFit(ops) && st.lastSequence + |ops| < MAX_SEQUENCE
    ensures disk.logs != [] && BatchesOk(LastLogOf(disk).batches + [Batch(st.lastSequence + 1, ops)])
    ensures Logged(size, CommittedDisk(size, disk, Batch(st.lastSequence + 1, ops), sync)) ==
              Logged(size, disk) + WrittenBy(st, OpsOf(ops))
  {
    var b, after := Batch(st.lastSequence + 1, ops), AfterWrite(st, OpsOf(ops));
    var mark :| DbOkAt(size, Up(st, disk), flushed, mark);
    CommitStore(st, flushed, Logged(size, disk), ops);
    CommitHold(size, st, disk, mark, after, b, sync);
  }

  /** Committing a batch, synced or not, keeps the invariant. */
  lemma CommitKeeps(size: Size, st: Store, disk: Disk, ops: seq<BatchOp>, sync: bool, flushed: set<Entry>)
    requires Growing(size) && DbOk(size, Up(st, disk), flushed) && OpsFit(ops) && st.lastSequence + |ops| < MAX_SEQUENCE
    requires disk.logs != [] && BatchesOk(LastLogOf(disk).batches + [Batch(st.lastSequence + 1, ops)])
    ensures DbOk(size, Up(AfterWrite(st, OpsOf(ops)), CommittedDisk(size, disk, Batch(st.lastSequence + 1, ops), sync)), flushed)
  {
    var b, after := Batch(st.lastSequence + 1, ops), AfterWrite(st, OpsOf(ops));
    var mark :| DbOkAt(size, Up(st, disk), flushed, mark);
    CommitStore(st, flushed, Logged(size, disk), ops);
    CommitHold(size, st, disk, mark, after, b, sync);
    FilesStay(st, disk, flushed, mark, after, CommittedDisk(size, disk, b, sync));
    var ok := DbOkAt(size, Up(after, CommittedDisk(size, disk, b, sync)), flushed, mark);
    assert ok;
  }

  lemma SetAssoc(a: set<Entry>, b: set<Entry>, c: set<Entry>)
    ensures a + b + c == a + (b + c)
  {
  }

  // ------------------------------------------------------------------ a new log

  lemma OldViews(lo: nat, views: seq<View>)
    requires forall i :: 0 <= i < |views| ==> views[i].number < lo
    ensures ViewEntries(lo, views) == {}
  {
  }

  function EmptyLog(number: nat): DiskLog {
    DiskLog(number, [], 0, 0)
  }

  lemma NewLogOk(size: Size, lo: nat, logs: seq<DiskLog>, mark: nat, last: nat, number: nat)
    requires LogsOk(size, lo, logs, mark, last) && forall i :: 0 <= i < |logs| ==> logs[i].number < number
    ensures LogsOk(size, lo, logs + [EmptyLog(number)], mark, last)
    ensures WrittenTo(logs + [EmptyLog(number)]) == WrittenTo(logs) + [View(number, [])]
  {
    var after, views := logs + [EmptyLog(number)], WrittenTo(logs) + [View(number, [])];
    assert AllOk(size, after) by {
      assert forall i :: 0 <= i < |logs| ==> after[i] == logs[i];
    }
    assert ViewsOk(lo, views, mark, last) by {
      assert ViewsOk(lo, WrittenTo(logs), mark, last);
    }
    assert WrittenTo(after) == views;
  }

  lemma NewLogEntries(size: Size, lo: nat, logs: seq<DiskLog>, number: nat)
    ensures ViewEntries(lo, SurvivingIn(size, logs + [EmptyLog(number)])) == ViewEntries(lo, SurvivingIn(size, logs))
    ensures ViewEntries(lo, SyncedIn(size, logs + [EmptyLog(number)])) == ViewEntries(lo, SyncedIn(size, logs))
  {
    var n, after := |logs|, logs + [EmptyLog(number)];
    assert SurvivingIn(size, after)[..n] == SurvivingIn(size, logs);
    assert SyncedIn(size, after)[..n] == SyncedIn(size, logs);
    assert EntriesIn([]) == {};
    assert Surviving(size, after[n]) == [] && Synced(size, after[n]) == [];
  }

  // ------------------------------------------------------------------ the switch to a new memtable

  function SwitchedStore(st: Store): Store {
    AfterSwitch(st).(nextFile := st.nextFile + 1)
  }

  function SwitchedDisk(st: Store, disk: Disk): Disk {
    disk.(logs := disk.logs + [EmptyLog(st.nextFile)])
  }

  lemma SwitchLogs(size: Size, disk: Disk, mark: nat, last: nat, number: nat, next: nat, mem: set<Entry>)
    requires size([]) == 0 && LogsOk(size, disk.logNumber, disk.logs, mark, last) && next == number + 1
    requires Writing(size, disk.logNumber, disk.logs, number) && Mirrors(mem, {}, disk.logNumber, WrittenTo(disk.logs))
    requires disk.logNumber == disk.logs[|disk.logs| - 1].number
    ensures var logs := disk.logs + [EmptyLog(number)];
            && LogsOk(size, disk.logNumber, logs, mark, last) && Writing(size, disk.logNumber, logs, next)
            && Mirrors({}, mem, disk.logNumber, WrittenTo(logs))
  {
    NewLogOk(size, disk.logNumber, disk.logs, mark, last, number);
    SwitchMirrors(mem, disk.logNumber, WrittenTo(disk.logs), number);
  }

  lemma SwitchHold(size: Size, st: Store, disk: Disk, mark: nat)
    requires size([]) == 0 && LogsHold(size, st, disk, mark) && st.imm == None
    ensures LogsHold(size, SwitchedStore(st), SwitchedDisk(st, disk), mark)
  {
    var after := SwitchedStore(st);
    SwitchLogs(size, disk, mark, st.lastSequence, st.nextFile, after.nextFile, Content(st.mem));
    assert Content(ImmRun(after)) == Content(st.mem) && Content(after.mem) == {};
  }

  lemma SwitchMirrors(mem: set<Entry>, lo: nat, views: seq<View>, number: nat)
    requires Mirrors(mem, {}, lo, views) && lo <= views[|views| - 1].number
    ensures Mirrors({}, mem, lo, views + [View(number, [])])
  {
    var after := views + [View(number, [])];
    assert after[..|views|] == views;
    assert EntriesIn([]) == {};
  }

  lemma SwitchStore(st: Store, flushed: set<Entry>, logged: set<Entry>)
    requires StoreHolds(st, flushed, logged) && st.imm == None
    ensures StoreHolds(SwitchedStore(st), flushed, logged)
  {
    SwitchKeeps(st, flushed + logged);
    Raised(AfterSwitch(st), SwitchedStore(st), flushed + logged);
  }

  /** Switching to a new memtable and log keeps the invariant and loses nothing. */
  lemma SwitchKeepsDb(size: Size, st: Store, disk: Disk, flushed: set<Entry>)
    requires size([]) == 0 && DbOk(size, Up(st, disk), flushed) && st.imm == None
    ensures DbOk(size, Up(SwitchedStore(st), SwitchedDisk(st, disk)), flushed)
    ensures Logged(size, SwitchedDisk(st, disk)) == Logged(size, disk)
    ensures LoggedSynced(size, SwitchedDisk(st, disk)) == LoggedSynced(size, disk)
  {
    var mark :| DbOkAt(size, Up(st, disk), flushed, mark);
    SwitchHold(size, st, disk, mark);
    NewLogEntries(size, disk.logNumber, disk.logs, st.nextFile);
    SwitchStore(st, flushed, Logged(size, disk));
    FilesStay(st, disk, flushed, mark, SwitchedStore(st), SwitchedDisk(st, disk));
    var ok := DbOkAt(size, Up(SwitchedStore(st), SwitchedDisk(st, disk)), flushed, mark);
    assert ok;
  }

  // ------------------------------------------------------------------ flushing the immutable memtable

  function FlushedDisk(st: Store, disk: Disk, level: nat, bytes: nat): Disk
    requires st.imm.Some? && level < NUM_LEVELS && disk.logs != []
  {
    Manifest(AfterFlush(st, level, bytes), disk).(logNumber := LastLogOf(disk).number)
  }

  /** A bound that separates what the immutable memtable holds from what the last log holds. */
  lemma SplitMark(lo: nat, views: seq<View>, mark: nat, last: nat, mem: set<Entry>, imm: set<Entry>) returns (next: nat)
    requires ViewsOk(lo, views, mark, last) && Mirrors(mem, imm, lo, views) && mark <= last
    requires lo <= views[|views| - 1].number && BatchesOk(views[|views| - 1].batches)
    ensures mark <= next <= last && (forall e :: e in imm ==> mark < e.key.seqno <= next)
    ensures Between(next, views[|views| - 1].batches, last)
  {
    var n := |views| - 1;
    var newest := views[n].batches;
    assert Between(mark, newest, last);
    next := if newest == [] then last else newest[0].first - 1;
    forall i | 0 <= i < n && lo <= views[i].number ensures Between(mark, views[i].batches, next) {
      assert Between(mark, views[i].batches, last) && Precedes(views[i].batches, newest);
    }
    ViewBounds(lo, views[..n], mark, next);
  }

  lemma FlushMirrors(mem: set<Entry>, imm: set<Entry>, lo: nat, views: seq<View>, number: nat)
    requires Mirrors(mem, imm, lo, views) && number == views[|views| - 1].number
    requires forall i :: 0 <= i < |views| - 1 ==> views[i].number < number
    ensures Mirrors(mem, {}, number, views)
  {
    OldViews(number, views[..|views| - 1]);
  }

  lemma FlushLogs(size: Size, logs: seq<DiskLog>, lo: nat, number: nat, mark: nat, next: nat, last: nat)
    requires LogsOk(size, lo, logs, mark, last) && logs != [] && number == logs[|logs| - 1].number
    requires Between(next, WrittenTo(logs)[|logs| - 1].batches, last)
    ensures LogsOk(size, number, logs, next, last)
  {
    forall i | 0 <= i < |logs| && number <= logs[i].number ensures i == |logs| - 1 {
    }
  }

  lemma FlushHold(size: Size, st: Store, disk: Disk, mark: nat, level: nat, bytes: nat) returns (next: nat)
    requires LogsHold(size, st, disk, mark) && st.imm.Some? && level < NUM_LEVELS
    ensures disk.logs != [] && LogsHold(size, AfterFlush(st, level, bytes), FlushedDisk(st, disk, level, bytes), next)
    ensures LastLogOf(disk).number < st.nextFile
    ensures mark <= next <= st.lastSequence && forall e :: e in Content(ImmRun(st)) ==> mark < e.key.seqno <= next
  {
    var views := WrittenTo(disk.logs);
    var number := views[|views| - 1].number;
    var mem, imm, after := Content(st.mem), Content(ImmRun(st)), AfterFlush(st, level, bytes);
    next := SplitMark(disk.logNumber, views, mark, st.lastSequence, mem, imm);
    FlushLogs(size, disk.logs, disk.logNumber, number, mark, next, st.lastSequence);
    FlushMirrors(mem, imm, disk.logNumber, views, number);
    assert Content(ImmRun(after)) == {};
  }

  lemma FlushLogged(size: Size, st: Store, disk: Disk, mark: nat, level: nat, bytes: nat, next: nat)
    requires LogsHold(size, st, disk, mark) && st.imm.Some? && level < NUM_LEVELS && disk.logs != []
    requires LogsHold(size, AfterFlush(st, level, bytes), FlushedDisk(st, disk, level, bytes), next)
    ensures Logged(size, disk) == Content(st.mem) + Content(ImmRun(st))
    ensures Logged(size, FlushedDisk(st, disk, level, bytes)) == Content(st.mem)
  {
    LoggedIsMemory(size, st, disk, mark);
    LoggedIsMemory(size, AfterFlush(st, level, bytes), FlushedDisk(st, disk, level, bytes), next);
  }

  lemma FlushStore(st: Store, flushed: set<Entry>, logged: set<Entry>, level: nat, bytes: nat)
    requires StoreHolds(st, flushed, logged) && CanFlush(st, level, bytes)
    requires logged == Content(st.mem) + Content(ImmRun(st))
    ensures StoreHolds(AfterFlush(st, level, bytes), flushed + Content(ImmRun(st)), Content(st.mem))
    ensures AllContent(AfterFlush(st, level, bytes).levels) == AllContent(st.levels) + Content(ImmRun(st))
    ensures NumbersAllocated(AfterFlush(st, level, bytes)) && UniqueEntries(flushed + Content(ImmRun(st)))
  {
    var hist := flushed + logged;
    FlushKeeps(st, hist, level, bytes);
    if st.imm.value != [] { FlushDisk(st, hist, level, bytes); }
    assert hist == flushed + Content(ImmRun(st)) + Content(st.mem);
  }

  lemma FlushFiles(st: Store, disk: Disk, flushed: set<Entry>, mark: nat, next: nat, after: Store, later: Disk, imm: set<Entry>)
    requires FilesHold(st, disk, flushed, mark) && mark <= next <= st.lastSequence
    requires forall e :: e in imm ==> mark < e.key.seqno <= next
    requires AllContent(after.levels) == AllContent(st.levels) + imm && after.lastSequence == st.lastSequence
    requires later.levels == after.levels && later.lastSequence == after.lastSequence && later.nextFile == after.nextFile
    requires NumbersAllocated(after) && later.logNumber < later.nextFile
    ensures FilesHold(after, later, flushed + imm, next)
  {
    FilesFlushed(st, disk, flushed, mark);
    var content := AllContent(after.levels);
    assert content <= flushed + imm && Bounded(flushed + imm, next) && FilesBelow(after.levels, later.nextFile);
  }

  /** Flushing hands the immutable memtable to the files; the invariant stays and nothing is lost. */
  lemma FlushKeepsDb(size: Size, st: Store, disk: Disk, flushed: set<Entry>, level: nat, bytes: nat)
    requires DbOk(size, Up(st, disk), flushed) && CanFlush(st, level, bytes)
    ensures disk.logs != []
    ensures DbOk(size, Up(AfterFlush(st, level, bytes), FlushedDisk(st, disk, level, bytes)), flushed + Content(ImmRun(st)))
  {
    var mark :| DbOkAt(size, Up(st, disk), flushed, mark);
    var imm, after := Content(ImmRun(st)), AfterFlush(st, level, bytes);
    var next := FlushHold(size, st, disk, mark, level, bytes);
    FlushLogged(size, st, disk, mark, level, bytes, next);
    FlushStore(st, flushed, Logged(size, disk), level, bytes);
    FlushFiles(st, disk, flushed, mark, next, after, FlushedDisk(st, disk, level, bytes), imm);
    var ok := DbOkAt(size, Up(after, FlushedDisk(st, disk, level, bytes)), flushed + imm, next);
    assert ok;
  }

  lemma FlushMovesLogged(size: Size, st: Store, disk: Disk, flushed: set<Entry>, level: nat, bytes: nat)
    requires DbOk(size, Up(st, disk), flushed) && CanFlush(st, level, bytes)
    ensures disk.logs != []
    ensures flushed + Content(ImmRun(st)) + Logged(size, FlushedDisk(st, disk, level, bytes)) == flushed + Logged(size, disk)
  {
    var mark :| DbOkAt(size, Up(st, disk), flushed, mark);
    var next := FlushHold(size, st, disk, mark, level, bytes);
    FlushLogged(size, st, disk, mark, level, bytes, next);
  }

  // ------------------------------------------------------------------ moves and compactions

  lemma OnDiskOk(st: Store, flushed: set<Entry>, history: set<Entry>)
    requires StoreOk(st, history) && AllContent(st.levels) <= flushed <= history
    ensures StoreOk(OnDisk(st), flushed)
  {
  }

  lemma RearrangeStore(st: Store, flushed: set<Entry>, logged: set<Entry>, change: Event)
    requires StoreHolds(st, flushed, logged) && AllContent(st.levels) <= flushed
    requires Enabled(st, change) && (change.TrivialMove? || change.Compact?)
    ensures StoreOk(OnDisk(st), flushed) && StoreHolds(Apply(st, change), flushed, logged)
  {
    OnDiskOk(st, flushed, flushed + logged);
    StepKeeps(st, flushed + logged, change);
  }

  lemma RearrangeContent(st: Store, flushed: set<Entry>, change: Event)
    requires StoreOk(OnDisk(st), flushed) && Enabled(st, change) && (change.TrivialMove? || change.Compact?)
    ensures AllContent(Apply(st, change).levels) <= flushed && NumbersAllocated(Apply(st, change))
  {
    var files := OnDisk(st);
    assert Enabled(files, change) && Apply(files, change) == OnDisk(Apply(st, change));
    StepKeeps(files, flushed, change);
    assert AllContent(Apply(st, change).levels) <= Stored(Apply(files, change));
  }

  lemma RearrangeHold(size: Size, st: Store, disk: Disk, flushed: set<Entry>, mark: nat, after: Store)
    requires FilesHold(st, disk, flushed, mark) && LogsHold(size, st, disk, mark)
    requires after == st.(levels := after.levels, nextFile := after.nextFile) && st.nextFile <= after.nextFile
    requires AllContent(after.levels) <= flushed && NumbersAllocated(after)
    ensures FilesHold(after, Manifest(after, disk), flushed, mark) && LogsHold(size, after, Manifest(after, disk), mark)
  {
    var content := AllContent(after.levels);
    assert content <= flushed && FilesBelow(after.levels, after.nextFile);
    assert FilesHold(after, Manifest(after, disk), flushed, mark);
    var later := Manifest(after, disk);
    assert Writing(size, later.logNumber, later.logs, after.nextFile);
    assert Mirrors(Content(after.mem), Content(ImmRun(after)), later.logNumber, WrittenTo(later.logs));
  }

  /** Moving or compacting files keeps the invariant; logs and history stay. */
  lemma RearrangeKeepsDb(size: Size, st: Store, disk: Disk, flushed: set<Entry>, change: Event)
    requires DbOk(size, Up(st, disk), flushed) && Enabled(st, change) && (change.TrivialMove? || change.Compact?)
    ensures DbOk(size, Up(Apply(st, change), Manifest(Apply(st, change), disk)), flushed)
  {
    var mark :| DbOkAt(size, Up(st, disk), flushed, mark);
    var after := Apply(st, change);
    FilesFlushed(st, disk, flushed, mark);
    RearrangeStore(st, flushed, Logged(size, disk), change);
    RearrangeContent(st, flushed, change);
    RearrangeHold(size, st, disk, flushed, mark, after);
    var ok := DbOkAt(size, Up(after, Manifest(after, disk)), flushed, mark);
    assert ok;
  }

  // ------------------------------------------------------------------ snapshots, numbers and obsolete logs

  lemma LogsUntouched(size: Size, st: Store, disk: Disk, mark: nat, after: Store)
    requires LogsHold(size, st, disk, mark)
    requires after.mem == st.mem && after.imm == st.imm && after.lastSequence == st.lastSequence && st.nextFile <= after.nextFile
    ensures LogsHold(size, after, disk, mark)
  {
    assert Writing(size, disk.logNumber, disk.logs, after.nextFile);
    assert Mirrors(Content(after.mem), Content(ImmRun(after)), disk.logNumber, WrittenTo(disk.logs));
  }

  lemma SnapshotStore(st: Store, flushed: set<Entry>, logged: set<Entry>, change: Event)
    requires StoreHolds(st, flushed, logged) && Enabled(st, change) && (change.TakeSnapshot? || change.ReleaseSnapshot?)
    ensures StoreHolds(Apply(st, change), flushed, logged)
    ensures SmallestSnapshot(st) <= SmallestSnapshot(Apply(st, change))
  {
    StepKeeps(st, flushed + logged, change);
    match change
    case TakeSnapshot => SnapshotKeeps(st, flushed + logged);
    case ReleaseSnapshot(index) => ReleaseKeeps(st, flushed + logged, index);
  }

  lemma FilesLater(st: Store, disk: Disk, flushed: set<Entry>, mark: nat, after: Store)
    requires FilesHold(st, disk, flushed, mark) && after.levels == st.levels
    requires after.lastSequence == st.lastSequence && st.nextFile <= after.nextFile
    ensures FilesHold(after, disk, flushed, mark)
  {
  }

  lemma SnapshotKeepsDb(size: Size, st: Store, disk: Disk, flushed: set<Entry>, change: Event)
    requires DbOk(size, Up(st, disk), flushed) && Enabled(st, change) && (change.TakeSnapshot? || change.ReleaseSnapshot?)
    ensures DbOk(size, Up(Apply(st, change), disk), flushed)
  {
    var mark :| DbOkAt(size, Up(st, disk), flushed, mark);
    var after := Apply(st, change);
    SnapshotStore(st, flushed, Logged(size, disk), change);
    FilesLater(st, disk, flushed, mark, after);
    LogsUntouched(size, st, disk, mark, after);
    var ok := DbOkAt(size, Up(after, disk), flushed, mark);
    assert ok;
  }

  lemma AllocateKeepsDb(size: Size, st: Store, disk: Disk, flushed: set<Entry>)
    requires DbOk(size, Up(st, disk), flushed)
    ensures DbOk(size, Up(st.(nextFile := st.nextFile + 1), disk), flushed)
  {
    var mark :| DbOkAt(size, Up(st, disk), flushed, mark);
    var after := st.(nextFile := st.nextFile + 1);
    AllocateStore(st, flushed, Logged(size, disk));
    FilesLater(st, disk, flushed, mark, after);
    LogsUntouched(size, st, disk, mark, after);
    var ok := DbOkAt(size, Up(after, disk), flushed, mark);
    assert ok;
  }

  lemma AllocateStore(st: Store, flushed: set<Entry>, logged: set<Entry>)
    requires StoreHolds(st, flushed, logged)
    ensures StoreHolds(st.(nextFile := st.nextFile + 1), flushed, logged)
  {
    Raised(st, st.(nextFile := st.nextFile + 1), flushed + logged);
  }

  function Without<T>(s: seq<T>, i: nat): seq<T>
    requires i < |s|
  {
    s[..i] + s[i + 1..]
  }

  lemma {:induction false} ViewsWithout(lo: nat, views: seq<View>, i: nat)
    requires i < |views| && views[i].number < lo
    ensures ViewEntries(lo, Without(views, i)) == ViewEntries(lo, views)
  {
    var n := |views| - 1;
    if i == n {
      assert Without(views, i) == views[..n];
    } else {
      ViewsWithout(lo, views[..n], i);
      assert Without(views, i)[..n - 1] == Without(views[..n], i);
    }
  }

  lemma WithoutElements<T>(s: seq<T>, i: nat)
    requires i < |s|
    ensures forall k :: 0 <= k < |s| - 1 ==> Without(s, i)[k] == s[if k < i then k else k + 1]
  {
  }

  lemma DeletedLogsOk(size: Size, lo: nat, logs: seq<DiskLog>, mark: nat, last: nat, i: nat)
    requires LogsOk(size, lo, logs, mark, last) && i < |logs|
    ensures LogsOk(size, lo, Without(logs, i), mark, last)
    ensures WrittenTo(Without(logs, i)) == Without(WrittenTo(logs), i)
  {
    WithoutElements(logs, i);
    WithoutElements(WrittenTo(logs), i);
    var views := Without(WrittenTo(logs), i);
    assert WrittenTo(Without(logs, i)) == views;
    assert ViewsOk(lo, views, mark, last) by {
      assert ViewsOk(lo, WrittenTo(logs), mark, last);
    }
  }

  lemma DeletedMirrors(mem: set<Entry>, imm: set<Entry>, lo: nat, views: seq<View>, i: nat)
    requires Mirrors(mem, imm, lo, views) && i < |views| - 1 && views[i].number < lo
    ensures Mirrors(mem, imm, lo, Without(views, i))
  {
    var n := |views| - 1;
    ViewsWithout(lo, views[..n], i);
    assert Without(views, i)[..n - 1] == Without(views[..n], i);
  }

  lemma DeleteHold(size: Size, st: Store, disk: Disk, mark: nat, i: nat)
    requires LogsHold(size, st, disk, mark) && i < |disk.logs| && disk.logs[i].number < disk.logNumber
    ensures LogsHold(size, st, disk.(logs := Without(disk.logs, i)), mark)
  {
    DeletedLogsOk(size, disk.logNumber, disk.logs, mark, st.lastSequence, i);
    DeletedMirrors(Content(st.mem), Content(ImmRun(st)), disk.logNumber, WrittenTo(disk.logs), i);
    StillWriting(size, disk.logNumber, disk.logs, st.nextFile, i);
  }

  lemma StillWriting(size: Size, lo: nat, logs: seq<DiskLog>, nextFile: nat, i: nat)
    requires Writing(size, lo, logs, nextFile) && i < |logs| && logs[i].number < lo
    ensures Writing(size, lo, Without(logs, i), nextFile)
    ensures Without(logs, i)[|logs| - 2] == logs[|logs| - 1]
  {
    WithoutElements(logs, i);
  }

  lemma DeletedEntries(size: Size, disk: Disk, i: nat)
    requires i < |disk.logs| && disk.logs[i].number < disk.logNumber
    ensures Logged(size, disk.(logs := Without(disk.logs, i))) == Logged(size, disk)
    ensures LoggedSynced(size, disk.(logs := Without(disk.logs, i))) == LoggedSynced(size, disk)
  {
    WithoutElements(disk.logs, i);
    assert SurvivingIn(size, Without(disk.logs, i)) == Without(SurvivingIn(size, disk.logs), i);
    assert SyncedIn(size, Without(disk.logs, i)) == Without(SyncedIn(size, disk.logs), i);
    ViewsWithout(disk.logNumber, SurvivingIn(size, disk.logs), i);
    ViewsWithout(disk.logNumber, SyncedIn(size, disk.logs), i);
  }

  /** DeleteObsoleteFiles: a log older than the manifest's log number can go. */
  lemma DeleteKeepsDb(size: Size, st: Store, disk: Disk, flushed: set<Entry>, i: nat)
    requires DbOk(size, Up(st, disk), flushed) && i < |disk.logs| && disk.logs[i].number < disk.logNumber
    ensures DbOk(size, Up(st, disk.(logs := Without(disk.logs, i))), flushed)
  {
    var mark :| DbOkAt(size, Up(st, disk), flushed, mark);
    var later := disk.(logs := Without(disk.logs, i));
    DeleteHold(size, st, disk, mark, i);
    DeletedEntries(size, disk, i);
    FilesStay(st, disk, flushed, mark, st, later);
    var ok := DbOkAt(size, Up(st, later), flushed, mark);
    assert ok;
  }

  // ------------------------------------------------------------------ crashes

  lemma {:induction false} CutEntries(size: Size, lo: nat, logs: seq<DiskLog>, cuts: seq<nat>)
    requires Cuttable(logs, cuts)
    ensures ViewEntries(lo, SyncedIn(size, logs)) <= ViewEntries(lo, SurvivingIn(size, CutLogs(logs, cuts)))
    ensures ViewEntries(lo, SurvivingIn(size, CutLogs(logs, cuts))) <= ViewEntries(lo, SurvivingIn(size, logs))
    ensures SyncedIn(size, CutLogs(logs, cuts)) == SyncedIn(size, logs)
  {
    var a, b, c := SyncedIn(size, logs), SurvivingIn(size, CutLogs(logs, cuts)), SurvivingIn(size, logs);
    forall i | 0 <= i < |logs| ensures a[i].batches <= b[i].batches <= c[i].batches {
      CutPrefixes(size, logs[i], cuts[i]);
    }
    SmallerViews(lo, a, b);
    SmallerViews(lo, b, c);
  }

  lemma CutPrefixes(size: Size, l: DiskLog, cut: nat)
    requires l.synced <= cut <= l.cut
    ensures Synced(size, l) <= Surviving(size, l.(cut := cut)) <= Surviving(size, l)
  {
    CountMonotone(size, l.batches, l.synced, cut, |l.batches|);
    CountMonotone(size, l.batches, cut, l.cut, |l.batches|);
  }

  lemma CutLogsOk(size: Size, lo: nat, logs: seq<DiskLog>, mark: nat, last: nat, cuts: seq<nat>)
    requires LogsOk(size, lo, logs, mark, last) && last < MAX_SEQUENCE && Cuttable(logs, cuts)
    ensures LogsOk(size, lo, CutLogs(logs, cuts), mark, MAX_SEQUENCE - 1)
  {
    assert WrittenTo(CutLogs(logs, cuts)) == WrittenTo(logs);
    forall i | 0 <= i < |logs| && lo <= logs[i].number
      ensures Between(mark, WrittenTo(logs)[i].batches, MAX_SEQUENCE - 1)
    {
      assert Between(mark, WrittenTo(logs)[i].batches, last);
    }
    forall i | 0 <= i < |logs| ensures LogOk(size, CutLogs(logs, cuts)[i]) {
      assert LogOk(size, logs[i]);
    }
  }

  /** The manifest alone answers as `flushed` does if the files did, even to readers older than the snapshots of the store
      that crashed. */
  lemma CommittedAnswers(st: Store, disk: Disk, flushed: set<Entry>, mark: nat)
    requires FilesHold(st, disk, flushed, mark) && UniqueEntries(flushed) && Faithful(OnDisk(st), flushed)
    ensures Faithful(Committed(disk), flushed)
  {
    FilesFlushed(st, disk, flushed, mark);
    FilesAnswer(st, flushed);
    var content := AllContent(disk.levels);
    assert Stored(Committed(disk)) == content;
    forall user: UserKey ensures SameReads(content, flushed, user, disk.lastSequence) {
      AllVisible(content, flushed, user, SmallestSnapshot(st), disk.lastSequence);
    }
  }

  lemma AllVisible(a: set<Entry>, b: set<Entry>, user: UserKey, m: nat, last: nat)
    requires a <= b && UniqueEntries(b) && (forall e :: e in b ==> e.key.seqno <= last) && SameReads(a, b, user, m)
    ensures SameReads(a, b, user, last)
  {
    forall s: nat | last <= s ensures Read(a, user, s) == Read(b, user, s) {
      var late := if s < m then m else s;
      EverythingVisible(a, user, last, s);
      EverythingVisible(b, user, last, s);
      EverythingVisible(a, user, last, late);
      EverythingVisible(b, user, last, late);
      assert Read(a, user, late) == Read(b, user, late);
    }
  }

  lemma CommittedStore(st: Store, disk: Disk, flushed: set<Entry>, mark: nat, logged: set<Entry>)
    requires FilesHold(st, disk, flushed, mark) && StoreHolds(st, flushed, logged)
    ensures StoreOk(Committed(disk), flushed) && UniqueEntries(flushed)
    ensures Bounded(flushed, mark) && mark <= disk.lastSequence && disk.logNumber < disk.nextFile
  {
    assert disk.levels == st.levels;
    assert Stored(Committed(disk)) == AllContent(disk.levels);
  }

  lemma HeldLogsOk(size: Size, st: Store, disk: Disk, mark: nat, logged: set<Entry>, flushed: set<Entry>)
    requires LogsHold(size, st, disk, mark) && StoreHolds(st, flushed, logged)
    ensures LogsOk(size, disk.logNumber, disk.logs, mark, st.lastSequence) && st.lastSequence < MAX_SEQUENCE
  {
  }

  /** A crash keeps the disk part of the invariant, everything synced, and nothing that was not there. */
  lemma CrashWhileUp(size: Size, st: Store, disk: Disk, flushed: set<Entry>, cuts: seq<nat>)
    requires DbOk(size, Up(st, disk), flushed) && Cuttable(disk.logs, cuts)
    ensures DbOk(size, Down(disk.(logs := CutLogs(disk.logs, cuts))), flushed)
  {
    var mark :| DbOkAt(size, Up(st, disk), flushed, mark);
    var logged, after := Logged(size, disk), disk.(logs := CutLogs(disk.logs, cuts));
    CommittedStore(st, disk, flushed, mark, logged);
    HeldLogsOk(size, st, disk, mark, logged, flushed);
    HeldIsUnique(st, flushed, logged);
    CutLogsOk(size, disk.logNumber, disk.logs, mark, st.lastSequence, cuts);
    CutEntries(size, disk.logNumber, disk.logs, cuts);
    UniqueSubset(flushed + logged, flushed + Logged(size, after));
    assert Committed(after) == Committed(disk);
    var ok := DbOkAt(size, Down(after), flushed, mark);
    assert ok;
  }

  lemma CrashWhileDown(size: Size, disk: Disk, flushed: set<Entry>, cuts: seq<nat>)
    requires DbOk(size, Down(disk), flushed) && Cuttable(disk.logs, cuts)
    ensures DbOk(size, Down(disk.(logs := CutLogs(disk.logs, cuts))), flushed)
  {
    var mark :| DbOkAt(size, Down(disk), flushed, mark);
    var after := disk.(logs := CutLogs(disk.logs, cuts));
    CutLogsOk(size, disk.logNumber, disk.logs, mark, MAX_SEQUENCE - 1, cuts);
    CutEntries(size, disk.logNumber, disk.logs, cuts);
    UniqueSubset(flushed + Logged(size, disk), flushed + Logged(size, after));
    assert Committed(after) == Committed(disk);
    var ok := DbOkAt(size, Down(after), flushed, mark);
    assert ok;
  }

  /** Opening the database may itself be interrupted after its new log file was created. */
  lemma AbandonKeepsDb(size: Size, disk: Disk, flushed: set<Entry>, number: nat)
    requires size([]) == 0 && DbOk(size, Down(disk), flushed) && forall i :: 0 <= i < |disk.logs| ==> disk.logs[i].number < number
    ensures DbOk(size, Down(disk.(logs := disk.logs + [EmptyLog(number)])), flushed)
  {
    var mark :| DbOkAt(size, Down(disk), flushed, mark);
    var after := disk.(logs := disk.logs + [EmptyLog(number)]);
    NewLogOk(size, disk.logNumber, disk.logs, mark, MAX_SEQUENCE - 1, number);
    NewLogEntries(size, disk.logNumber, disk.logs, number);
    assert Committed(after) == Committed(disk);
    var ok := DbOkAt(size, Down(after), flushed, mark);
    assert ok;
  }

  // ------------------------------------------------------------------ recovery

  lemma RecoveredLogs(size: Size, lo: nat, logs: seq<DiskLog>, mark: nat, last: nat, st: Store, after: Disk)
    requires size([]) == 0 && LogsOk(size, lo, logs, mark, last) && st.mem == [] && st.imm == None
    requires forall i :: 0 <= i < |logs| ==> logs[i].number < after.logNumber
    requires after.logs == logs + [EmptyLog(after.logNumber)] && after.logNumber < st.nextFile
    ensures LogsHold(size, st, after, st.lastSequence)
  {
    var number, views := after.logNumber, WrittenTo(logs);
    NewLogOk(size, lo, logs, mark, last, number);
    OnlyNewLog(number, views, st.lastSequence);
    assert Content(st.mem) == {} && Content(ImmRun(st)) == {};
    assert Writing(size, number, after.logs, st.nextFile);
    assert LogsOk(size, number, after.logs, st.lastSequence, st.lastSequence);
  }

  /** With every log before it obsolete, an empty log is all there is. */
  lemma OnlyNewLog(number: nat, views: seq<View>, last: nat)
    requires forall i :: 0 <= i < |views| ==> views[i].number < number
    ensures ViewsOk(number, views + [View(number, [])], last, last)
    ensures Mirrors({}, {}, number, views + [View(number, [])])
  {
    assert (views + [View(number, [])])[..|views|] == views;
    OldViews(number, views);
    assert EntriesIn([]) == {};
  }

  lemma RecoveredFiles(size: Size, disk: Disk, flushed: set<Entry>, mark: nat, st: Store, after: Disk)
    requires DiskOk(size, disk, flushed, mark) && Recovered(size, disk, st, after)
    ensures FilesHold(st, after, flushed + Logged(size, disk), st.lastSequence)
    ensures StoreHolds(st, flushed + Logged(size, disk), {})
  {
    var hist := flushed + Logged(size, disk);
    CommittedContent(disk, flushed);
    assert AllContent(st.levels) <= hist && Bounded(hist, st.lastSequence);
    RecoveredStore(st, hist);
    RecoveredManifest(st, after, hist);
  }

  lemma RecoveredManifest(st: Store, after: Disk, hist: set<Entry>)
    requires AllContent(st.levels) <= hist && Bounded(hist, st.lastSequence) && NumbersAllocated(st)
    requires after.levels == st.levels && after.lastSequence == st.lastSequence && after.nextFile == st.nextFile
    requires after.logNumber < after.nextFile
    ensures FilesHold(st, after, hist, st.lastSequence)
  {
    var content := AllContent(st.levels);
    assert content <= hist && FilesBelow(st.levels, after.nextFile);
  }

  lemma CommittedContent(disk: Disk, flushed: set<Entry>)
    requires StoreOk(Committed(disk), flushed)
    ensures AllContent(disk.levels) <= flushed
  {
    assert AllContent(disk.levels) <= Stored(Committed(disk));
  }

  lemma RecoveredStore(st: Store, hist: set<Entry>)
    requires VersionOk(st.levels) && AllContent(st.levels) <= hist && UniqueEntries(hist) && NumbersAllocated(st)
    requires st.mem == [] && st.imm == None && st.snapshots == [] && st.lastSequence < MAX_SEQUENCE
    requires Bounded(hist, st.lastSequence)
    ensures StoreHolds(st, hist, {})
  {
    assert Stored(st) == AllContent(st.levels);
    assert StoreOk(st, hist);
    assert hist == hist + {};
  }

  lemma RecoveredReads(disk: Disk, flushed: set<Entry>, logged: set<Entry>, st: Store)
    requires StoreOk(Committed(disk), flushed) && Faithful(Committed(disk), flushed) && UniqueEntries(flushed + logged)
    requires NewerFor(logged, flushed) && AllContent(st.levels) == AllContent(disk.levels) + logged
    requires st.mem == [] && st.imm == None && st.snapshots == [] && disk.lastSequence <= st.lastSequence
    ensures Faithful(st, flushed + logged)
  {
    var content := AllContent(disk.levels);
    assert Stored(Committed(disk)) == content && Stored(st) == AllContent(st.levels);
    forall user: UserKey ensures SameReads(content, flushed, user, disk.lastSequence) {
      assert SameReads(Stored(Committed(disk)), flushed, user, SmallestSnapshot(Committed(disk)));
    }
    LoggedReads(content, flushed, logged, AllContent(st.levels), disk.lastSequence);
    forall user: UserKey ensures SameReads(Stored(st), flushed + logged, user, SmallestSnapshot(st)) {
      assert SameReads(AllContent(st.levels), flushed + logged, user, disk.lastSequence);
    }
  }

  lemma NothingLogged(size: Size, disk: Disk, flushed: set<Entry>, st: Store, after: Disk)
    requires size([]) == 0 && DbOk(size, Down(disk), flushed) && Recovered(size, disk, st, after)
    ensures LogsHold(size, st, after, st.lastSequence) && Logged(size, after) == {}
  {
    var mark :| DbOkAt(size, Down(disk), flushed, mark);
    RecoveredLogs(size, disk.logNumber, disk.logs, mark, MAX_SEQUENCE - 1, st, after);
    LoggedIsMemory(size, st, after, st.lastSequence);
  }

  /** Recovery keeps the invariant and rebuilds exactly what was flushed or survived in the logs. */
  lemma RecoverKeepsDb(size: Size, disk: Disk, flushed: set<Entry>, st: Store, after: Disk)
    requires size([]) == 0 && DbOk(size, Down(disk), flushed) && Recovered(size, disk, st, after)
    ensures DbOk(size, Up(st, after), flushed + Logged(size, disk))
  {
    var mark :| DbOkAt(size, Down(disk), flushed, mark);
    NothingLogged(size, disk, flushed, st, after);
    RecoveredFiles(size, disk, flushed, mark, st, after);
    var ok := DbOkAt(size, Up(st, after), flushed + Logged(size, disk), st.lastSequence);
    assert ok;
  }

  // ------------------------------------------------------------------ one step

  lemma DurableIsHistory(size: Size, disk: Disk)
    requires forall i :: 0 <= i < |disk.logs| ==> disk.logs[i].synced <= disk.logs[i].cut
    ensures LoggedSynced(size, disk) <= Logged(size, disk)
  {
    var a, b := SyncedIn(size, disk.logs), SurvivingIn(size, disk.logs);
    forall i | 0 <= i < |disk.logs| ensures a[i].batches <= b[i].batches {
      CutPrefixes(size, disk.logs[i], disk.logs[i].cut);
    }
    SmallerViews(disk.logNumber, a, b);
  }

  lemma DbLogsOk(size: Size, db: Db, flushed: set<Entry>)
    requires DbOk(size, db, flushed)
    ensures AllOk(size, db.disk.logs)
  {
    match db
    case Up(st, disk) => var mark :| DbOkAt(size, Up(st, disk), flushed, mark);
    case Down(disk) => var mark :| DbOkAt(size, Down(disk), flushed, mark);
  }

  /** An unsynced append changes nothing about what is synced; a synced one makes the whole log durable. */
  lemma CommitSynced(size: Size, lo: nat, logs: seq<DiskLog>, b: Batch, sync: bool)
    requires Growing(size) && AllOk(size, logs) && logs != [] && BatchesOk(logs[|logs| - 1].batches + [b])
    requires lo <= logs[|logs| - 1].number
    ensures ViewEntries(lo, SyncedIn(size, logs)) <= ViewEntries(lo, SyncedIn(size, AppendedLogs(size, logs, b, sync)))
    ensures sync ==> EntriesOf(b) <= ViewEntries(lo, SyncedIn(size, AppendedLogs(size, logs, b, sync)))
  {
    var l, after := logs[|logs| - 1], AppendedLogs(size, logs, b, sync);
    SyncedAppend(size, l, b, sync);
    LastSynced(size, lo, logs, after);
    EntriesAppend(l.batches, b);
  }

  lemma LastSynced(size: Size, lo: nat, logs: seq<DiskLog>, after: seq<DiskLog>)
    requires logs != [] && |after| == |logs| && after[..|logs| - 1] == logs[..|logs| - 1]
    requires after[|logs| - 1].number == logs[|logs| - 1].number && lo <= logs[|logs| - 1].number
    requires Synced(size, logs[|logs| - 1]) <= Synced(size, after[|logs| - 1])
    ensures ViewEntries(lo, SyncedIn(size, logs)) <= ViewEntries(lo, SyncedIn(size, after))
    ensures EntriesIn(Synced(size, after[|logs| - 1])) <= ViewEntries(lo, SyncedIn(size, after))
  {
    var n := |logs| - 1;
    var a, b := SyncedIn(size, logs), SyncedIn(size, after);
    forall i | 0 <= i < n ensures a[i] == b[i] {
      assert after[..n][i] == logs[..n][i];
    }
    SmallerViews(lo, a, b);
  }

  lemma SyncedAppend(size: Size, l: DiskLog, b: Batch, sync: bool)
    requires Growing(size) && LogOk(size, l) && BatchesOk(l.batches + [b])
    ensures Synced(size, l) <= Synced(size, Appended(size, l, b, sync))
    ensures sync ==> Synced(size, Appended(size, l, b, sync)) == l.batches + [b]
  {
    if sync {
      WholeIsIntact(size, l.batches + [b]);
    } else {
      IntactAppend(size, l.batches, b, l.synced);
    }
  }

  /** Flushing an immutable memtable moves what was synced of its log into the tables. */
  lemma FlushSynced(size: Size, st: Store, disk: Disk, mark: nat, level: nat, bytes: nat)
    requires LogsHold(size, st, disk, mark) && st.imm.Some? && level < NUM_LEVELS
    ensures disk.logs != []
    ensures LoggedSynced(size, disk) <= Content(ImmRun(st)) + LoggedSynced(size, FlushedDisk(st, disk, level, bytes))
  {
    var n := |disk.logs| - 1;
    SyncedWithin(size, disk.logNumber, disk.logs, n);
    assert LastLogSynced(size, disk.logs) <= LoggedSynced(size, FlushedDisk(st, disk, level, bytes));
  }

  ghost function LastLogSynced(size: Size, logs: seq<DiskLog>): set<Entry>
    requires logs != []
  {
    EntriesIn(SyncedIn(size, logs)[|logs| - 1].batches)
  }

  lemma SyncedWithin(size: Size, lo: nat, logs: seq<DiskLog>, n: nat)
    requires n <= |logs|
    ensures ViewEntries(lo, SyncedIn(size, logs)[..n]) <= ViewEntries(lo, WrittenTo(logs)[..n])
  {
    SmallerViews(lo, SyncedIn(size, logs)[..n], WrittenTo(logs)[..n]);
  }

  /** The entries a step writes. */
  ghost function WrittenAt(db: Db, ev: DbEvent): set<Entry> {
    if db.Up? && ev.Commit? && db.st.lastSequence + |ev.ops| < MAX_SEQUENCE then WrittenBy(db.st, OpsOf(ev.ops)) else {}
  }

  ghost function SyncWrittenAt(db: Db, ev: DbEvent): set<Entry> {
    if ev.Commit? && ev.sync then WrittenAt(db, ev) else {}
  }

  /** What has been handed to tables after a step. */
  ghost function FlushedAfter(size: Size, db: Db, ev: DbEvent, flushed: set<Entry>): set<Entry> {
    if ev.Flush? && db.Up? then flushed + Content(ImmRun(db.st))
    else if ev.Recover? then flushed + Logged(size, db.disk)
    else flushed
  }

  lemma CommitDurable(size: Size, st: Store, disk: Disk, flushed: set<Entry>, ops: seq<BatchOp>, sync: bool)
    requires Growing(size) && DbOk(size, Up(st, disk), flushed) && OpsFit(ops) && st.lastSequence + |ops| < MAX_SEQUENCE
    requires disk.logs != [] && BatchesOk(LastLogOf(disk).batches + [Batch(st.lastSequence + 1, ops)])
    ensures var after := CommittedDisk(size, disk, Batch(st.lastSequence + 1, ops), sync);
            && LoggedSynced(size, disk) <= LoggedSynced(size, after)
            && (sync ==> WrittenBy(st, OpsOf(ops)) <= LoggedSynced(size, after))
  {
    var mark :| DbOkAt(size, Up(st, disk), flushed, mark);
    EntriesAreWritten(st, ops);
    CommitSynced(size, disk.logNumber, disk.logs, Batch(st.lastSequence + 1, ops), sync);
  }

  lemma FlushDurable(size: Size, st: Store, disk: Disk, flushed: set<Entry>, level: nat, bytes: nat)
    requires DbOk(size, Up(st, disk), flushed) && CanFlush(st, level, bytes)
    ensures disk.logs != []
    ensures LoggedSynced(size, disk) <= Content(ImmRun(st)) + LoggedSynced(size, FlushedDisk(st, disk, level, bytes))
  {
    var mark :| DbOkAt(size, Up(st, disk), flushed, mark);
    FlushSynced(size, st, disk, mark, level, bytes);
  }

  /** Only a crash loses anything, and a write adds exactly its entries. */
  ghost predicate HistoryKept(size: Size, db: Db, ev: DbEvent, after: Db, flushed: set<Entry>, now: set<Entry>) {
    if ev.Crash? then Durable(size, db, flushed) <= History(size, after, now) <= History(size, db, flushed)
    else History(size, after, now) == History(size, db, flushed) + WrittenAt(db, ev)
  }

  /** What is durable stays durable, and a synced write becomes durable. */
  ghost predicate DurableKept(size: Size, db: Db, ev: DbEvent, after: Db, flushed: set<Entry>, now: set<Entry>) {
    && Durable(size, db, flushed) <= Durable(size, after, now)
    && SyncWrittenAt(db, ev) <= Durable(size, after, now)
  }

  /** What every step is good for. */
  ghost predicate Ledger(size: Size, db: Db, ev: DbEvent, after: Db, flushed: set<Entry>, now: set<Entry>) {
    && now == FlushedAfter(size, db, ev, flushed)
    && HistoryKept(size, db, ev, after, flushed, now) && DurableKept(size, db, ev, after, flushed, now)
  }

  lemma CommitStep(size: Size, st: Store, disk: Disk, ops: seq<BatchOp>, sync: bool, after: Db, flushed: set<Entry>)
    requires Growing(size) && DbOk(size, Up(st, disk), flushed) && Committing(size, st, disk, ops, sync, after)
    ensures DbOk(size, after, flushed)
  {
    CommitAdds(size, st, disk, ops, sync, flushed);
    CommitKeeps(size, st, disk, ops, sync, flushed);
  }

  lemma CommitLogged(size: Size, st: Store, disk: Disk, ops: seq<BatchOp>, sync: bool, after: Db, flushed: set<Entry>)
    requires Growing(size) && DbOk(size, Up(st, disk), flushed) && Committing(size, st, disk, ops, sync, after)
    ensures st.lastSequence + |ops| < MAX_SEQUENCE
    ensures Logged(size, after.disk) == Logged(size, disk) + WrittenBy(st, OpsOf(ops))
    ensures LoggedSynced(size, disk) <= LoggedSynced(size, after.disk)
    ensures sync ==> WrittenBy(st, OpsOf(ops)) <= LoggedSynced(size, after.disk)
  {
    CommitAdds(size, st, disk, ops, sync, flushed);
    CommitDurable(size, st, disk, flushed, ops, sync);
  }

  lemma CommitLedger(size: Size, db: Db, ev: DbEvent, after: Db, flushed: set<Entry>)
    requires ev.Commit?
    requires Logged(size, after.disk) == Logged(size, db.disk) + WrittenAt(db, ev)
    requires LoggedSynced(size, db.disk) <= LoggedSynced(size, after.disk)
    requires ev.sync ==> WrittenAt(db, ev) <= LoggedSynced(size, after.disk)
    ensures Ledger(size, db, ev, after, flushed, flushed)
  {
    var now := flushed;
    assert now == FlushedAfter(size, db, ev, flushed);
    assert HistoryKept(size, db, ev, after, flushed, now);
    assert DurableKept(size, db, ev, after, flushed, now);
  }

  /** A step that leaves the logs' entries alone. */
  lemma QuietLedger(size: Size, db: Db, ev: DbEvent, after: Db, flushed: set<Entry>)
    requires !ev.Commit? && !ev.Flush? && !ev.Recover? && !ev.Crash?
    requires Logged(size, after.disk) == Logged(size, db.disk) && LoggedSynced(size, after.disk) == LoggedSynced(size, db.disk)
    ensures Ledger(size, db, ev, after, flushed, flushed)
  {
    var now := flushed;
    assert now == FlushedAfter(size, db, ev, flushed);
    assert HistoryKept(size, db, ev, after, flushed, now);
    assert DurableKept(size, db, ev, after, flushed, now);
  }

  /** A step that moves entries from the logs to the tables. */
  lemma MovingLedger(size: Size, db: Db, ev: DbEvent, after: Db, flushed: set<Entry>, now: set<Entry>)
    requires now == FlushedAfter(size, db, ev, flushed) && (ev.Flush? || ev.Recover?)
    requires now + Logged(size, after.disk) == flushed + Logged(size, db.disk)
    requires flushed + LoggedSynced(size, db.disk) <= now + LoggedSynced(size, after.disk)
    ensures Ledger(size, db, ev, after, flushed, now)
  {
    assert HistoryKept(size, db, ev, after, flushed, now);
    assert DurableKept(size, db, ev, after, flushed, now);
  }

  lemma RecoverLedger(size: Size, disk: Disk, ev: DbEvent, after: Db, flushed: set<Entry>)
    requires ev.Recover? && Logged(size, after.disk) == {} && LoggedSynced(size, disk) <= Logged(size, disk)
    ensures Ledger(size, Down(disk), ev, after, flushed, flushed + Logged(size, disk))
  {
    MovingLedger(size, Down(disk), ev, after, flushed, flushed + Logged(size, disk));
  }

  lemma CrashLedger(size: Size, db: Db, ev: DbEvent, after: Db, flushed: set<Entry>)
    requires ev.Crash? && Cuttable(db.disk.logs, ev.cuts) && after == Down(db.disk.(logs := CutLogs(db.disk.logs, ev.cuts)))
    ensures Ledger(size, db, ev, after, flushed, flushed)
  {
    CutEntries(size, db.disk.logNumber, db.disk.logs, ev.cuts);
  }

  lemma CrashStep(size: Size, db: Db, cuts: seq<nat>, flushed: set<Entry>)
    requires DbOk(size, db, flushed) && Cuttable(db.disk.logs, cuts)
    ensures DbOk(size, Down(db.disk.(logs := CutLogs(db.disk.logs, cuts))), flushed)
  {
    match db
    case Up(st, disk) => CrashWhileUp(size, st, disk, flushed, cuts);
    case Down(disk) => CrashWhileDown(size, disk, flushed, cuts);
  }

  predicate IsQuiet(ev: DbEvent) {
    ev.Switch? || ev.Rearrange? || ev.Snapshots? || ev.AllocateFile? || ev.DeleteLog? || ev.AbandonLog?
  }

  lemma QuietOk(size: Size, st: Store, disk: Disk, ev: DbEvent, after: Db, flushed: set<Entry>)
    requires size([]) == 0 && DbOk(size, Up(st, disk), flushed) && Moves(size, Up(st, disk), ev, after) && IsQuiet(ev)
    ensures DbOk(size, after, flushed)
  {
    if ev.Rearrange? {
      RearrangeKeepsDb(size, st, disk, flushed, ev.change);
    } else if ev.Snapshots? {
      SnapshotKeepsDb(size, st, disk, flushed, ev.change);
    } else {
      NumbersOk(size, st, disk, ev, after, flushed);
    }
  }

  lemma NumbersOk(size: Size, st: Store, disk: Disk, ev: DbEvent, after: Db, flushed: set<Entry>)
    requires size([]) == 0 && DbOk(size, Up(st, disk), flushed) && Moves(size, Up(st, disk), ev, after)
    requires ev.Switch? || ev.AllocateFile? || ev.DeleteLog?
    ensures DbOk(size, after, flushed)
  {
    match ev
    case Switch => SwitchKeepsDb(size, st, disk, flushed);
    case AllocateFile => AllocateKeepsDb(size, st, disk, flushed);
    case DeleteLog(index) => DeleteKeepsDb(size, st, disk, flushed, index);
  }

  lemma QuietLogs(size: Size, db: Db, ev: DbEvent, after: Db)
    requires Moves(size, db, ev, after) && IsQuiet(ev)
    ensures Logged(size, after.disk) == Logged(size, db.disk) && LoggedSynced(size, after.disk) == LoggedSynced(size, db.disk)
  {
    var disk := db.disk;
    match ev
    case Switch => NewLogEntries(size, disk.logNumber, disk.logs, db.st.nextFile);
    case Rearrange(change) =>
    case Snapshots(change) =>
    case AllocateFile =>
    case DeleteLog(index) => DeletedEntries(size, disk, index);
    case AbandonLog(number) => NewLogEntries(size, disk.logNumber, disk.logs, number);
  }

  /** Every step keeps the invariant. */
  lemma StepOk(size: Size, db: Db, ev: DbEvent, after: Db, flushed: set<Entry>)
    requires Growing(size) && DbOk(size, db, flushed) && Moves(size, db, ev, after)
    ensures DbOk(size, after, FlushedAfter(size, db, ev, flushed))
  {
    match db
    case Up(st, disk) =>
      if ev.Commit? { CommitStep(size, st, disk, ev.ops, ev.sync, after, flushed); }
      else if ev.Flush? { FlushKeepsDb(size, st, disk, flushed, ev.level, ev.bytes); }
      else if ev.Crash? { CrashStep(size, db, ev.cuts, flushed); }
      else { QuietOk(size, st, disk, ev, after, flushed); }
    case Down(disk) =>
      if ev.Recover? { RecoverKeepsDb(size, disk, flushed, ev.st, ev.disk); }
      else if ev.Crash? { CrashStep(size, db, ev.cuts, flushed); }
      else { AbandonKeepsDb(size, disk, flushed, ev.number); }
  }

  lemma RecoverStep(size: Size, disk: Disk, ev: DbEvent, after: Db, flushed: set<Entry>)
    requires size([]) == 0 && DbOk(size, Down(disk), flushed) && ev.Recover? && Recovered(size, disk, ev.st, ev.disk)
    requires after == Up(ev.st, ev.disk)
    ensures Ledger(size, Down(disk), ev, after, flushed, flushed + Logged(size, disk))
  {
    NothingLogged(size, disk, flushed, ev.st, ev.disk);
    DbLogsOk(size, Down(disk), flushed);
    AllDurable(size, disk);
    DurableIsHistory(size, disk);
    RecoverLedger(size, disk, ev, after, flushed);
  }

  lemma AllDurable(size: Size, disk: Disk)
    requires AllOk(size, disk.logs)
    ensures forall i :: 0 <= i < |disk.logs| ==> disk.logs[i].synced <= disk.logs[i].cut
  {
  }

  /** Every step loses nothing but what a crash may take. */
  lemma StepLedger(size: Size, db: Db, ev: DbEvent, after: Db, flushed: set<Entry>)
    requires Growing(size) && DbOk(size, db, flushed) && Moves(size, db, ev, after)
    ensures Ledger(size, db, ev, after, flushed, FlushedAfter(size, db, ev, flushed))
  {
    if ev.Commit? {
      assert db == Up(db.st, db.disk);
      CommitLogged(size, db.st, db.disk, ev.ops, ev.sync, after, flushed);
      CommitLedger(size, db, ev, after, flushed);
    } else if ev.Flush? {
      assert db == Up(db.st, db.disk);
      FlushMovesLogged(size, db.st, db.disk, flushed, ev.level, ev.bytes);
      FlushDurable(size, db.st, db.disk, flushed, ev.level, ev.bytes);
      MovingLedger(size, db, ev, after, flushed, flushed + Content(ImmRun(db.st)));
    } else if ev.Crash? {
      CrashLedger(size, db, ev, after, flushed);
    } else if ev.Recover? {
      assert db == Down(db.disk);
      RecoverStep(size, db.disk, ev, after, flushed);
    } else {
      QuietLogs(size, db, ev, after);
      QuietLedger(size, db, ev, after, flushed);
    }
  }

  // ------------------------------------------------------------------ what the files answer

  /** A compaction whose files alone, without the memtables, would let no older value resurface. */
  ghost predicate Tame(db: Db, ev: DbEvent) {
    ev.Rearrange? && db.Up? ==> HarmlessStep(OnDisk(db.st), ev.change)
  }

  lemma RearrangeAnswersIff(st: Store, flushed: set<Entry>, change: Event)
    requires StoreOk(OnDisk(st), flushed) && Faithful(OnDisk(st), flushed)
    requires Enabled(st, change) && (change.TrivialMove? || change.Compact?)
    ensures Faithful(OnDisk(Apply(st, change)), flushed) <==> HarmlessStep(OnDisk(st), change)
  {
    var files := OnDisk(st);
    assert Enabled(files, change) && Apply(files, change) == OnDisk(Apply(st, change));
    StepFaithfulIff(files, flushed, change);
  }

  lemma FlushAnswers(size: Size, st: Store, disk: Disk, flushed: set<Entry>, level: nat, bytes: nat)
    requires DbOk(size, Up(st, disk), flushed) && CanFlush(st, level, bytes) && Faithful(OnDisk(st), flushed)
    ensures Faithful(OnDisk(AfterFlush(st, level, bytes)), flushed + Content(ImmRun(st)))
  {
    var mark :| DbOkAt(size, Up(st, disk), flushed, mark);
    var imm, after := Content(ImmRun(st)), AfterFlush(st, level, bytes);
    var next := FlushHold(size, st, disk, mark, level, bytes);
    LoggedIsMemory(size, st, disk, mark);
    FlushStore(st, flushed, Logged(size, disk), level, bytes);
    FilesFlushed(st, disk, flushed, mark);
    FreshIsNewer(imm, flushed, mark);
    FlushedAnswer(st, after, flushed, imm);
  }

  lemma FlushedAnswer(st: Store, after: Store, flushed: set<Entry>, imm: set<Entry>)
    requires Faithful(OnDisk(st), flushed) && AllContent(st.levels) <= flushed && NewerFor(imm, flushed) && UniqueEntries(flushed + imm)
    requires AllContent(after.levels) == AllContent(st.levels) + imm && SmallestSnapshot(after) == SmallestSnapshot(st)
    ensures Faithful(OnDisk(after), flushed + imm)
  {
    FilesAnswer(st, flushed);
    LoggedReads(AllContent(st.levels), flushed, imm, AllContent(after.levels), SmallestSnapshot(st));
    assert Stored(OnDisk(after)) == AllContent(after.levels);
  }

  lemma CrashAnswers(size: Size, st: Store, disk: Disk, flushed: set<Entry>)
    requires DbOk(size, Up(st, disk), flushed) && Faithful(OnDisk(st), flushed)
    ensures Faithful(Committed(disk), flushed)
  {
    var mark :| DbOkAt(size, Up(st, disk), flushed, mark);
    HeldIsUnique(st, flushed, Logged(size, disk));
    UniqueSubset(flushed + Logged(size, disk), flushed);
    CommittedAnswers(st, disk, flushed, mark);
  }

  lemma RecoverAnswers(size: Size, disk: Disk, flushed: set<Entry>, st: Store, after: Disk)
    requires DbOk(size, Down(disk), flushed) && Recovered(size, disk, st, after) && Faithful(Committed(disk), flushed)
    ensures Faithful(OnDisk(st), flushed + Logged(size, disk))
  {
    var mark :| DbOkAt(size, Down(disk), flushed, mark);
    LoggedIsNewer(size, disk, flushed, mark, MAX_SEQUENCE - 1);
    RecoveredReads(disk, flushed, Logged(size, disk), st);
    assert OnDisk(st) == st;
  }

  /** A step that leaves the files alone and serves no older reader than before. */
  predicate SameFiles(db: Db, after: Db) {
    FilesOf(after).levels == FilesOf(db).levels && SmallestSnapshot(FilesOf(db)) <= SmallestSnapshot(FilesOf(after))
  }

  lemma SameFilesAnswer(db: Db, after: Db, flushed: set<Entry>)
    requires Answers(db, flushed) && SameFiles(db, after)
    ensures Answers(after, flushed)
  {
    FaithfulLater(FilesOf(db), FilesOf(after), flushed);
  }

  lemma SnapshotFiles(size: Size, st: Store, disk: Disk, flushed: set<Entry>, change: Event)
    requires DbOk(size, Up(st, disk), flushed) && Enabled(st, change) && (change.TakeSnapshot? || change.ReleaseSnapshot?)
    ensures SmallestSnapshot(OnDisk(st)) <= SmallestSnapshot(OnDisk(Apply(st, change)))
  {
    var mark :| DbOkAt(size, Up(st, disk), flushed, mark);
    SnapshotStore(st, flushed, Logged(size, disk), change);
  }

  lemma QuietFiles(size: Size, db: Db, ev: DbEvent, after: Db, flushed: set<Entry>)
    requires DbOk(size, db, flushed) && Moves(size, db, ev, after)
    requires !ev.Rearrange? && !ev.Flush? && !ev.Crash? && !ev.Recover?
    ensures SameFiles(db, after)
  {
    if ev.Snapshots? {
      assert db == Up(db.st, db.disk);
      SnapshotFiles(size, db.st, db.disk, flushed, ev.change);
    }
  }

  /** If the files answer for everything handed to tables, they do so after a step if and only if the step is tame. */
  lemma StepAnswersIff(size: Size, db: Db, ev: DbEvent, after: Db, flushed: set<Entry>)
    requires DbOk(size, db, flushed) && Answers(db, flushed) && Moves(size, db, ev, after)
    ensures Answers(after, FlushedAfter(size, db, ev, flushed)) <==> Tame(db, ev)
  {
    if ev.Crash? {
      if db.Up? { assert db == Up(db.st, db.disk); CrashAnswers(size, db.st, db.disk, flushed); }
      assert Committed(after.disk) == Committed(db.disk);
    } else if ev.Recover? {
      assert db == Down(db.disk);
      RecoverAnswers(size, db.disk, flushed, ev.st, ev.disk);
    } else if ev.Flush? {
      assert db == Up(db.st, db.disk);
      FlushAnswers(size, db.st, db.disk, flushed, ev.level, ev.bytes);
    } else if ev.Rearrange? {
      assert db == Up(db.st, db.disk);
      FilesAreOk(size, db.st, db.disk, flushed);
      RearrangeAnswersIff(db.st, flushed, ev.change);
    } else {
      QuietFiles(size, db, ev, after, flushed);
      SameFilesAnswer(db, after, flushed);
    }
  }

  lemma FilesAreOk(size: Size, st: Store, disk: Disk, flushed: set<Entry>)
    requires DbOk(size, Up(st, disk), flushed)
    ensures StoreOk(OnDisk(st), flushed)
  {
    var mark :| DbOkAt(size, Up(st, disk), flushed, mark);
    FilesFlushed(st, disk, flushed, mark);
    OnDiskOk(st, flushed, flushed + Logged(size, disk));
  }
}
