/** Opening a database: log files are read byte by byte, their batches replayed into tables, and one edit makes the
    result the current version (db/db_impl.cc, db/log_reader.cc, db/write_batch.cc). */
module OpenDb {
  import opened Common
  import opened Keys
  import opened Version
  import opened Builder
  import opened Install
  import opened LsmStore
  import opened Log
  import opened LogReader
  import opened Batches
  import opened Recovery
  import opened Durability
  import opened SafeCommits
  import Db

  // ------------------------------------------------------------------ batches as log records

  function RecordOf(b: Batch): Bytes
    requires BatchOk(b)
  {
    Encode(b.first, b.ops)
  }

  function Records(batches: seq<Batch>): seq<Bytes>
    requires BatchesOk(batches)
  {
    seq(|batches|, i requires 0 <= i < |batches| => RecordOf(batches[i]))
  }

  /** The bytes of a log nothing was cut from. */
  function WholeLog(crc: Checksum, batches: seq<Batch>): Bytes
    requires BatchesOk(batches)
  {
    LogFile(crc, Records(batches))
  }

  function LogSize(crc: Checksum): Size {
    batches => if BatchesOk(batches) then |WholeLog(crc, batches)| else 0
  }

  /** The bytes of the file as a reader finds them after a crash. */
  function FileOf(crc: Checksum, l: DiskLog): Bytes
    requires LogOk(LogSize(crc), l)
  {
    WholeLog(crc, l.batches)[..l.cut]
  }

  lemma RecordsPrefix(batches: seq<Batch>, m: nat)
    requires BatchesOk(batches) && m <= |batches|
    ensures BatchesOk(batches[..m]) && Records(batches[..m]) == Records(batches)[..m]
  {
    var a, b := Records(batches[..m]), Records(batches)[..m];
    forall i | 0 <= i < m ensures a[i] == b[i] {
      assert a[i] == RecordOf(batches[..m][i]);
      assert b[i] == RecordOf(batches[i]);
    }
    SameRecords(a, b);
  }

  lemma SameRecords(a: seq<Bytes>, b: seq<Bytes>)
    requires |a| == |b| && forall i :: 0 <= i < |a| ==> a[i] == b[i]
    ensures a == b
  {
  }

  /** Every record adds bytes, so the crash model applies to log files as they are written. */
  lemma LogSizeGrows(crc: Checksum)
    ensures Growing(LogSize(crc))
  {
    forall batches | BatchesOk(batches) && batches != []
      ensures LogSize(crc)(batches[..|batches| - 1]) < LogSize(crc)(batches)
    {
      RecordsPrefix(batches, |batches| - 1);
      LogGrows(crc, Records(batches));
    }
    assert Records([]) == [];
  }

  lemma SizeOfPrefix(crc: Checksum, batches: seq<Batch>, m: nat)
    requires BatchesOk(batches) && m <= |batches|
    ensures LogSize(crc)(batches[..m]) == |LogFile(crc, Records(batches)[..m])|
  {
    RecordsPrefix(batches, m);
  }

  lemma IntactRecords(crc: Checksum, l: DiskLog)
    requires LogOk(LogSize(crc), l)
    ensures Intact(crc, Records(l.batches), l.cut, IntactCount(LogSize(crc), l.batches, l.cut))
  {
    var size, n := LogSize(crc), |l.batches|;
    assert size([]) == 0 by { LogSizeGrows(crc); }
    assert l.batches[..n] == l.batches;
    CountIsIntact(size, l.batches, l.cut, n);
    var m := IntactCount(size, l.batches, l.cut);
    SizeOfPrefix(crc, l.batches, m);
    if m < n { SizeOfPrefix(crc, l.batches, m + 1); }
  }

  /** Reading a log file back, cut anywhere, gives the encodings of exactly the batches that are there in full. */
  lemma LogReadsBack(crc: Checksum, l: DiskLog)
    requires LogOk(LogSize(crc), l)
    ensures BatchesOk(Surviving(LogSize(crc), l))
    ensures ReadAll(crc, true, FileOf(crc, l), 0) == (Records(Surviving(LogSize(crc), l)), [])
  {
    var m := IntactCount(LogSize(crc), l.batches, l.cut);
    IntactRecords(crc, l);
    TornTail(crc, true, Records(l.batches), l.cut, m);
    RecordsPrefix(l.batches, m);
  }

  /** AddRecord writes what the crash model says a log holds. */
  method LogBatch(writer: Writer, batch: WriteBatch, ghost batches: seq<Batch>)
    requires writer.Valid() && batch.Valid() && batch.first <= MAX_SEQUENCE
    requires BatchesOk(batches + [Batch(batch.first, batch.ops)]) && BatchesOk(batches)
    requires writer.dest == WholeLog(writer.crc, batches)
    modifies writer
    ensures writer.Valid() && writer.dest == WholeLog(writer.crc, batches + [Batch(batch.first, batch.ops)])
  {
    ghost var longer := batches + [Batch(batch.first, batch.ops)];
    assert longer[..|batches|] == batches;
    RecordsPrefix(longer, |batches|);
    LogGrows(writer.crc, Records(longer));
    writer.AddRecord(batch.rep);
  }

  // ------------------------------------------------------------------ replaying

  /** The state of recovery: the edit so far, the memtable if there is one, the file numbers and sequence numbers seen. */
  datatype Replay = Replay(edit: seq<File>, mem: Option<seq<Entry>>, next: nat, maxSequence: nat)

  function MemOf(r: Replay): seq<Entry> {
    if r.mem.Some? then r.mem.value else []
  }

  /** The edit adds to level 0 exactly the files that `levels` has there and `base` has not. */
  ghost predicate EditAdds(base: Levels, edit: seq<File>, levels: Levels) {
    && levels == base[0 := levels[0]] && InFileOrder(edit)
    && (forall f :: f in levels[0] <==> f in base[0] || f in edit)
    && forall f, g :: f in base[0] && g in edit ==> f.number != g.number
  }

  ghost predicate Healthy(st: Store, history: set<Entry>) {
    exists hist :: hist == history && StoreOk(st, hist)
  }

  /** `st` is the store in which every table of the edit had been installed at once. */
  ghost predicate Tracks(base: Levels, r: Replay, st: Store, history: set<Entry>, content: set<Entry>) {
    exists hist ::
      && hist == history && Healthy(st, hist) && Stored(st) == content
      && st == Store(MemOf(r), None, st.levels, st.lastSequence, [], r.next)
      && EditAdds(base, r.edit, st.levels)
  }

  /** The sequence numbers seen so far. */
  predicate Seen(r: Replay, st: Store, mark: nat) {
    mark <= st.lastSequence && r.maxSequence <= st.lastSequence && (st.lastSequence == mark || st.lastSequence == r.maxSequence)
  }

  /** A batch may follow a gap in the sequence numbers. */
  function BeforeBatch(st: Store, b: Batch): Store
    requires BatchOk(b) && st.lastSequence < b.first
  {
    st.(lastSequence := b.first - 1)
  }

  function WithBatch(st: Store, b: Batch): Store
    requires BatchOk(b) && st.lastSequence < b.first
  {
    AfterWrite(BeforeBatch(st, b), OpsOf(b.ops))
  }

  lemma ReplayedEntries(st: Store, b: Batch)
    requires BatchOk(b) && st.lastSequence < b.first
    ensures WrittenBy(BeforeBatch(st, b), OpsOf(b.ops)) == EntriesOf(b)
    ensures WithBatch(st, b).mem == InsertAll(st.mem, BatchEntries(OpsOf(b.ops), b.first))
  {
    var first := BeforeBatch(st, b).lastSequence + 1;
    assert first == b.first;
  }

  lemma HealthyBefore(st: Store, history: set<Entry>, b: Batch)
    requires Healthy(st, history) && BatchOk(b) && st.lastSequence < b.first
    ensures Healthy(BeforeBatch(st, b), history) && Stored(BeforeBatch(st, b)) == Stored(st)
  {
    Raised(st, BeforeBatch(st, b), history);
  }

  lemma HealthyWrite(st: Store, history: set<Entry>, ops: seq<Op>)
    requires Healthy(st, history) && st.lastSequence + |ops| < MAX_SEQUENCE
    ensures Healthy(AfterWrite(st, ops), history + WrittenBy(st, ops))
    ensures Stored(AfterWrite(st, ops)) == Stored(st) + WrittenBy(st, ops)
  {
    WriteKeeps(st, history, ops);
    WriteKeepsMemory(st, history, ops);
  }

  lemma ReplayedStore(st: Store, history: set<Entry>, b: Batch)
    requires Healthy(st, history) && BatchOk(b) && st.lastSequence < b.first
    ensures Healthy(WithBatch(st, b), history + EntriesOf(b)) && Stored(WithBatch(st, b)) == Stored(st) + EntriesOf(b)
  {
    ReplayedEntries(st, b);
    HealthyBefore(st, history, b);
    HealthyWrite(BeforeBatch(st, b), history, OpsOf(b.ops));
  }

  lemma ReplayedBatch(base: Levels, r: Replay, st: Store, history: set<Entry>, content: set<Entry>, b: Batch, mem: seq<Entry>, maxSequence: nat)
    requires Tracks(base, r, st, history, content) && BatchOk(b) && st.lastSequence < b.first
    requires mem == InsertAll(MemOf(r), BatchEntries(OpsOf(b.ops), b.first))
    ensures Tracks(base, r.(mem := Some(mem), maxSequence := maxSequence),
                   WithBatch(st, b), history + EntriesOf(b), content + EntriesOf(b))
  {
    ReplayedStore(st, history, b);
    ReplayedEntries(st, b);
    var ok := Healthy(WithBatch(st, b), history + EntriesOf(b));
    assert ok;
  }

  function Flushed(st: Store, size: nat): Store {
    AfterFlush(AfterSwitch(st), 0, size)
  }

  lemma FlushedEdit(base: Levels, edit: seq<File>, levels: Levels, f: File)
    requires VersionOk(levels) && EditAdds(base, edit, levels) && FlushOk(levels, 0, f)
    ensures EditAdds(base, InsertFile(edit, f), FlushEdit(levels, 0, f))
  {
    assert forall g :: g in edit ==> g in levels[0];
    InsertFileOrdered(edit, f);
    FlushMembers(levels, 0, f);
    assert forall g :: g in base[0] ==> g in levels[0];
  }

  /** WriteLevel0Table without a base version: the table goes to level 0. */
  lemma ReplayedTable(base: Levels, r: Replay, st: Store, history: set<Entry>, content: set<Entry>, size: nat)
    requires Tracks(base, r, st, history, content)
    ensures var edit := if MemOf(r) == [] then r.edit else InsertFile(r.edit, TableOf(MemOf(r), r.next, size));
            Tracks(base, r.(edit := edit, mem := None, next := r.next + 1), Flushed(st, size), history, content)
  {
    var switched := AfterSwitch(st);
    SwitchKeeps(st, history);
    FlushKeeps(switched, history, 0, size);
    if st.mem != [] {
      var f := FlushIsEdit(switched, history, 0, size);
      FlushedEdit(base, r.edit, st.levels, f);
    }
    var ok := Healthy(Flushed(st, size), history);
    assert ok;
  }

  /** WriteLevel0Table(mem, edit, nullptr). */
  method WriteTable(r: Replay, size: seq<Entry> -> nat, ghost base: Levels, ghost st: Store, ghost history: set<Entry>, ghost content: set<Entry>)
    returns (after: Replay, ghost model: Store)
    requires Tracks(base, r, st, history, content)
    ensures Tracks(base, after, model, history, content) && after.mem == None
    ensures after.next == r.next + 1 && after.maxSequence == r.maxSequence && model.lastSequence == st.lastSequence
  {
    var edit, mem := r.edit, MemOf(r);
    if mem != [] {
      edit := InsertFile(edit, TableOf(mem, r.next, size(mem)));
    }
    after := r.(edit := edit, mem := None, next := r.next + 1);
    model := Flushed(st, size(mem));
    ReplayedTable(base, r, st, history, content, size(mem));
  }

  lemma NextSeen(r: Replay, st: Store, mark: nat, b: Batch, last: nat, after: Replay, model: Store)
    requires Seen(r, st, mark) && st.lastSequence < b.first && last == b.first + |b.ops| - 1 && model.lastSequence == last
    requires after.maxSequence == if last > r.maxSequence then last else r.maxSequence
    ensures Seen(after, model, mark)
  {
  }

  /** One record of a log: InsertInto the memtable, which becomes a table when it is full. */
  method ReplayRecord(record: Bytes, r: Replay, full: seq<Entry> -> bool, size: seq<Entry> -> nat,
                      ghost b: Batch, ghost base: Levels, ghost st: Store, ghost history: set<Entry>, ghost content: set<Entry>, ghost mark: nat)
    returns (after: Replay, ghost model: Store)
    requires BatchOk(b) && record == RecordOf(b) && st.lastSequence < b.first
    requires Tracks(base, r, st, history, content) && Seen(r, st, mark)
    ensures Tracks(base, after, model, history + EntriesOf(b), content + EntriesOf(b)) && Seen(after, model, mark)
    ensures model.lastSequence + 1 == EndOf(b) && r.next <= after.next
  {
    BatchRoundTrip(b.first, b.ops);
    var first, ops := Sequence(record), Iterated(record).0;
    var last := first + Count(record) - 1;
    var mem := Db.InsertInto(MemOf(r), OpsOf(ops), first);
    var maxSequence := if last > r.maxSequence then last else r.maxSequence;
    after := r.(mem := Some(mem), maxSequence := maxSequence);
    model := WithBatch(st, b);
    ReplayedBatch(base, r, st, history, content, b, mem, maxSequence);
    NextSeen(r, st, mark, b, last, after, model);
    if full(mem) {
      after, model := WriteTable(after, size, base, model, history + EntriesOf(b), content + EntriesOf(b));
    }
  }

  lemma NextOfAll(crc: Checksum, file: Bytes, pos: nat, rest: seq<Bytes>)
    requires pos <= |file| && ReadAll(crc, true, file, pos) == (rest, [])
    ensures var g := NextRecord(crc, true, file, pos, None);
            if rest == [] then g.record == None
            else g.record == Some(rest[0]) && pos < g.next <= |file| && ReadAll(crc, true, file, g.next) == (rest[1..], [])
  {
    var g := NextRecord(crc, true, file, pos, None);
    if g.record.Some? {
      var tail := ReadAll(crc, true, file, g.next);
      assert [g.record.value] + tail.0 == rest && g.reports + tail.1 == [];
    }
  }

  /** The rest of the file reads as these records, with nothing to report. */
  ghost predicate ReadsAs(crc: Checksum, file: Bytes, pos: nat, rest: seq<Bytes>) {
    exists all: (seq<Bytes>, seq<Report>) ::
      pos <= |file| && all.0 == rest && all.1 == [] && all == ReadAll(crc, true, file, pos)
  }

  method NextLogRecord(reader: Reader, ghost crc: Checksum, ghost file: Bytes, ghost pos: nat, ghost rest: seq<Bytes>)
    returns (record: Option<Bytes>, ghost next: nat)
    requires reader.Valid() && reader.crc == crc && reader.checksum == true && reader.file == file && reader.Pos() == pos
    requires ReadsAs(crc, file, pos, rest)
    modifies reader
    ensures reader.Valid() && reader.Pos() == next && (record == None <==> rest == [])
    ensures rest != [] ==> record == Some(rest[0]) && pos < next <= |file| && ReadsAs(crc, file, next, rest[1..])
  {
    NextOfAll(crc, file, pos, rest);
    record := reader.ReadRecord();
    next := reader.Pos();
    if rest != [] {
      var all := ReadAll(crc, true, file, next);
      assert all.0 == rest[1..] && all.1 == [];
    }
  }

  lemma RecordsTail(batches: seq<Batch>, k: nat)
    requires BatchesOk(batches) && k <= |batches|
    ensures Records(batches)[k..] == [] <==> k == |batches|
    ensures k < |batches| ==> Records(batches)[k..][0] == RecordOf(batches[k]) && Records(batches)[k..][1..] == Records(batches)[k + 1..]
  {
  }

  /** Where the sequence numbers stand: still at `start`, or at the end of a batch. */
  ghost predicate EndsAt(last: nat, batches: seq<Batch>, start: nat) {
    last == start || exists i :: 0 <= i < |batches| && last + 1 == EndOf(batches[i])
  }

  predicate Above(last: nat, batches: seq<Batch>, k: nat) {
    forall i :: k <= i < |batches| ==> last < batches[i].first
  }

  lemma AboveNext(batches: seq<Batch>, k: nat, last: nat)
    requires BatchesOk(batches) && k < |batches| && last + 1 == EndOf(batches[k])
    ensures Above(last, batches, k + 1) && forall start :: EndsAt(last, batches, start)
  {
  }

  lemma OneMoreBatch(batches: seq<Batch>, k: nat, history: set<Entry>)
    requires k < |batches|
    ensures history + EntriesIn(batches[..k]) + EntriesOf(batches[k]) == history + EntriesIn(batches[..k + 1])
  {
    assert batches[..k + 1] == batches[..k] + [batches[k]];
    EntriesAppend(batches[..k], batches[k]);
  }

  /** After `k` batches of a log: from `r` and `st` to `now` and `model`. */
  ghost predicate Midway(batches: seq<Batch>, k: nat, base: Levels, r: Replay, st: Store, history: set<Entry>, content: set<Entry>,
                         mark: nat, now: Replay, model: Store) {
    exists hist, stored ::
      && k <= |batches| && hist == history + EntriesIn(batches[..k]) && stored == content + EntriesIn(batches[..k])
      && Tracks(base, now, model, hist, stored) && Seen(now, model, mark) && r.next <= now.next
      && st.lastSequence <= model.lastSequence && EndsAt(model.lastSequence, batches, st.lastSequence)
      && Above(model.lastSequence, batches, k)
  }

  method ReplayNext(record: Bytes, r: Replay, full: seq<Entry> -> bool, size: seq<Entry> -> nat,
                    ghost batches: seq<Batch>, ghost k: nat, ghost base: Levels, ghost r0: Replay, ghost st: Store,
                    ghost history: set<Entry>, ghost content: set<Entry>, ghost mark: nat, ghost before: Store)
    returns (after: Replay, ghost model: Store, ghost done: nat)
    requires BatchesOk(batches) && k < |batches| && record == RecordOf(batches[k])
    requires Midway(batches, k, base, r0, st, history, content, mark, r, before)
    ensures done == k + 1 && Midway(batches, done, base, r0, st, history, content, mark, after, model)
  {
    after, model := ReplayRecord(record, r, full, size, batches[k], base, before,
                                 history + EntriesIn(batches[..k]), content + EntriesIn(batches[..k]), mark);
    done := k + 1;
    OneMoreBatch(batches, k, history);
    OneMoreBatch(batches, k, content);
    AboveNext(batches, k, model.lastSequence);
    assert Tracks(base, after, model, history + EntriesIn(batches[..done]), content + EntriesIn(batches[..done]));
  }

  /** The last table of a log: what is still in memory at the end. */
  method FinishLog(r: Replay, size: seq<Entry> -> nat, ghost batches: seq<Batch>, ghost base: Levels, ghost r0: Replay, ghost st: Store,
                   ghost history: set<Entry>, ghost content: set<Entry>, ghost mark: nat, ghost before: Store)
    returns (after: Replay, ghost model: Store)
    requires Midway(batches, |batches|, base, r0, st, history, content, mark, r, before)
    ensures Tracks(base, after, model, history + EntriesIn(batches), content + EntriesIn(batches)) && after.mem == None
    ensures Seen(after, model, mark) && r0.next <= after.next && st.lastSequence <= model.lastSequence
    ensures EndsAt(model.lastSequence, batches, st.lastSequence)
  {
    assert batches[..|batches|] == batches;
    after, model := r, before;
    if after.mem.Some? {
      after, model := WriteTable(after, size, base, model, history + EntriesIn(batches), content + EntriesIn(batches));
    }
  }

  /** RecoverLogFile without log reuse: every record of the file is replayed, whatever is cut off at its end. */
  method RecoverLogFile(crc: Checksum, file: Bytes, r: Replay, full: seq<Entry> -> bool, size: seq<Entry> -> nat,
                        ghost batches: seq<Batch>, ghost base: Levels, ghost st: Store, ghost history: set<Entry>, ghost content: set<Entry>, ghost mark: nat)
    returns (after: Replay, ghost model: Store)
    requires BatchesOk(batches) && ReadsAs(crc, file, 0, Records(batches))
    requires Above(st.lastSequence, batches, 0)
    requires Tracks(base, r, st, history, content) && r.mem == None && Seen(r, st, mark)
    ensures Tracks(base, after, model, history + EntriesIn(batches), content + EntriesIn(batches)) && after.mem == None
    ensures Seen(after, model, mark) && r.next <= after.next && st.lastSequence <= model.lastSequence
    ensures EndsAt(model.lastSequence, batches, st.lastSequence)
  {
    var reader := new Reader(crc, true, file);
    var now := r;
    ghost var before, k, pos, rest := st, 0, 0, Records(batches);
    NoBatches(batches, history, content);
    assert Midway(batches, 0, base, r, st, history, content, mark, now, before) by {
      assert Tracks(base, r, st, history + EntriesIn(batches[..0]), content + EntriesIn(batches[..0]));
    }
    while true
      invariant reader.Valid() && reader.crc == crc && reader.checksum == true && reader.file == file && reader.Pos() == pos
      invariant k <= |batches| && rest == Records(batches)[k..] && pos <= |file| && ReadsAs(crc, file, pos, rest)
      invariant Midway(batches, k, base, r, st, history, content, mark, now, before)
      decreases |file| - pos
    {
      RecordsTail(batches, k);
      var record, next := NextLogRecord(reader, crc, file, pos, rest);
      if record == None {
        break;
      }
      now, before, k := ReplayNext(record.value, now, full, size, batches, k, base, r, st, history, content, mark, before);
      pos, rest := next, rest[1..];
    }
    after, model := FinishLog(now, size, batches, base, r, st, history, content, mark, before);
  }

  lemma NoBatches(batches: seq<Batch>, history: set<Entry>, content: set<Entry>)
    requires BatchesOk(batches)
    ensures history + EntriesIn(batches[..0]) == history && content + EntriesIn(batches[..0]) == content
    ensures Records(batches)[0..] == Records(batches)
  {
  }

  // ------------------------------------------------------------------ all logs, then one edit

  /** What the first `n` logs hold of interest to recovery. */
  ghost function LoggedBefore(crc: Checksum, disk: Disk, n: nat): set<Entry>
    requires n <= |disk.logs|
  {
    ViewEntries(disk.logNumber, SurvivingIn(LogSize(crc), disk.logs)[..n])
  }

  /** The remaining live logs are newer than everything replayed. */
  predicate RestAbove(disk: Disk, n: nat, last: nat) {
    forall j :: n <= j < |disk.logs| && disk.logNumber <= disk.logs[j].number ==> Above(last, disk.logs[j].batches, 0)
  }

  /** MarkFileNumberUsed has been called for every live log so far. */
  predicate NumbersUsed(disk: Disk, n: nat, next: nat) {
    && disk.nextFile < next
    && forall j :: 0 <= j < n && j < |disk.logs| && disk.logNumber <= disk.logs[j].number ==> disk.logs[j].number < next
  }

  ghost predicate AllLogsOk(crc: Checksum, disk: Disk, mark: nat) {
    exists size, last :: size == LogSize(crc) && last == MAX_SEQUENCE - 1 && LogsOk(size, disk.logNumber, disk.logs, mark, last)
  }

  /** Recovery after `n` logs. */
  ghost predicate Replaying(crc: Checksum, disk: Disk, n: nat, flushed: set<Entry>, mark: nat, r: Replay, model: Store) {
    exists hist, stored ::
      && n <= |disk.logs| && hist == flushed + LoggedBefore(crc, disk, n)
      && stored == AllContent(disk.levels) + LoggedBefore(crc, disk, n)
      && Tracks(disk.levels, r, model, hist, stored) && r.mem == None && Seen(r, model, mark)
      && RestAbove(disk, n, model.lastSequence) && NumbersUsed(disk, n, r.next)
  }

  lemma StartModel(disk: Disk, flushed: set<Entry>, mark: nat, r: Replay, model: Store)
    requires StoreOk(Committed(disk), flushed) && Bounded(flushed, mark) && mark <= disk.lastSequence
    requires r == Replay([], None, disk.nextFile + 1, 0) && model == Store([], None, disk.levels, mark, [], disk.nextFile + 1)
    ensures Tracks(disk.levels, r, model, flushed, AllContent(disk.levels))
  {
    assert Stored(model) == AllContent(disk.levels);
    var ok := StoreOk(model, flushed);
    assert ok;
    var healthy := Healthy(model, flushed);
    assert healthy;
    assert EditAdds(disk.levels, [], disk.levels);
  }

  lemma StartReplay(crc: Checksum, disk: Disk, flushed: set<Entry>, mark: nat, r: Replay, model: Store)
    requires DiskOk(LogSize(crc), disk, flushed, mark)
    requires r == Replay([], None, disk.nextFile + 1, 0) && model == Store([], None, disk.levels, mark, [], disk.nextFile + 1)
    ensures Replaying(crc, disk, 0, flushed, mark, r, model)
  {
    StartModel(disk, flushed, mark, r, model);
    LogsAbove(LogSize(crc), disk, mark, MAX_SEQUENCE - 1);
    assert LoggedBefore(crc, disk, 0) == {};
    var hist, stored := flushed + LoggedBefore(crc, disk, 0), AllContent(disk.levels) + LoggedBefore(crc, disk, 0);
    assert hist == flushed && stored == AllContent(disk.levels);
    assert Tracks(disk.levels, r, model, hist, stored);
  }

  lemma LogsAbove(size: Size, disk: Disk, mark: nat, last: nat)
    requires LogsOk(size, disk.logNumber, disk.logs, mark, last)
    ensures RestAbove(disk, 0, mark)
  {
    forall j | 0 <= j < |disk.logs| && disk.logNumber <= disk.logs[j].number ensures Above(mark, disk.logs[j].batches, 0) {
      assert Between(mark, WrittenTo(disk.logs)[j].batches, last);
    }
  }

  /** Replaying a live log leaves the later ones newer. */
  lemma StillAbove(size: Size, disk: Disk, mark: nat, bound: nat, n: nat, done: nat, start: nat, last: nat)
    requires LogsOk(size, disk.logNumber, disk.logs, mark, bound) && n < |disk.logs| && done == n + 1 && disk.logNumber <= disk.logs[n].number
    requires RestAbove(disk, n, start) && EndsAt(last, Surviving(size, disk.logs[n]), start)
    ensures RestAbove(disk, done, last)
  {
    var views := WrittenTo(disk.logs);
    forall j | n + 1 <= j < |disk.logs| && disk.logNumber <= disk.logs[j].number ensures Above(last, disk.logs[j].batches, 0) {
      assert Precedes(views[n].batches, views[j].batches);
      assert Above(start, disk.logs[j].batches, 0);
    }
  }

  lemma SurvivorsAbove(size: Size, l: DiskLog, last: nat)
    requires Above(last, l.batches, 0)
    ensures Above(last, Surviving(size, l), 0)
  {
  }

  lemma LoggedNext(crc: Checksum, disk: Disk, n: nat, done: nat)
    requires n < |disk.logs| && done == n + 1
    ensures LoggedBefore(crc, disk, done) ==
              LoggedBefore(crc, disk, n)
              + if disk.logNumber <= disk.logs[n].number then EntriesIn(Surviving(LogSize(crc), disk.logs[n])) else {}
  {
    assert SurvivingIn(LogSize(crc), disk.logs)[..done][..n] == SurvivingIn(LogSize(crc), disk.logs)[..n];
  }

  lemma NothingUsed(disk: Disk, n: nat, done: nat, last: nat, next: nat)
    requires n < |disk.logs| && done == n + 1 && disk.logs[n].number < disk.logNumber
    requires RestAbove(disk, n, last) && NumbersUsed(disk, n, next)
    ensures RestAbove(disk, done, last) && NumbersUsed(disk, done, next)
  {
  }

  lemma LogSkipped(crc: Checksum, disk: Disk, n: nat, done: nat, flushed: set<Entry>, mark: nat, r: Replay, model: Store)
    requires n < |disk.logs| && done == n + 1 && disk.logs[n].number < disk.logNumber
    requires Replaying(crc, disk, n, flushed, mark, r, model)
    ensures Replaying(crc, disk, done, flushed, mark, r, model)
  {
    LoggedNext(crc, disk, n, done);
    NothingUsed(disk, n, done, model.lastSequence, r.next);
    var hist, stored := flushed + LoggedBefore(crc, disk, done), AllContent(disk.levels) + LoggedBefore(crc, disk, done);
    assert LoggedBefore(crc, disk, done) == LoggedBefore(crc, disk, n);
    assert Tracks(disk.levels, r, model, hist, stored);
    var ok := Replaying(crc, disk, done, flushed, mark, r, model);
    assert ok;
  }

  lemma OneUsed(disk: Disk, n: nat, done: nat, before: nat, next: nat)
    requires n < |disk.logs| && done == n + 1 && disk.logs[n].number < next && before <= next
    requires NumbersUsed(disk, n, before)
    ensures NumbersUsed(disk, done, next)
  {
  }

  lemma LogReplayed(crc: Checksum, disk: Disk, n: nat, done: nat, flushed: set<Entry>, mark: nat, history: set<Entry>, content: set<Entry>,
                    own: set<Entry>, r: Replay, model: Store)
    requires n < |disk.logs| && done == n + 1 && disk.logNumber <= disk.logs[n].number
    requires RestAbove(disk, done, model.lastSequence) && NumbersUsed(disk, done, r.next)
    requires history == flushed + LoggedBefore(crc, disk, n) && content == AllContent(disk.levels) + LoggedBefore(crc, disk, n)
    requires own == EntriesIn(Surviving(LogSize(crc), disk.logs[n]))
    requires Tracks(disk.levels, r, model, history + own, content + own) && Seen(r, model, mark) && r.mem == None
    ensures Replaying(crc, disk, done, flushed, mark, r, model)
  {
    var logged := LoggedBefore(crc, disk, n);
    LoggedNext(crc, disk, n, done);
    Recovery.SetAssoc(flushed, logged, own);
    Recovery.SetAssoc(AllContent(disk.levels), logged, own);
    var hist, stored := flushed + LoggedBefore(crc, disk, done), AllContent(disk.levels) + LoggedBefore(crc, disk, done);
    assert hist == history + own && stored == content + own;
    assert Tracks(disk.levels, r, model, hist, stored);
    var ok := Replaying(crc, disk, done, flushed, mark, r, model);
    assert ok;
  }

  lemma ReplayStarts(crc: Checksum, disk: Disk, n: nat, flushed: set<Entry>, mark: nat, r: Replay, model: Store)
    requires n < |disk.logs| && Replaying(crc, disk, n, flushed, mark, r, model)
    ensures Tracks(disk.levels, r, model, flushed + LoggedBefore(crc, disk, n), AllContent(disk.levels) + LoggedBefore(crc, disk, n))
    ensures r.mem == None && Seen(r, model, mark) && RestAbove(disk, n, model.lastSequence) && NumbersUsed(disk, n, r.next)
  {
  }

  /** MarkFileNumberUsed. */
  method MarkFileNumberUsed(r: Replay, number: nat, ghost base: Levels, ghost before: Store, ghost history: set<Entry>, ghost content: set<Entry>, ghost mark: nat)
    returns (after: Replay, ghost model: Store)
    requires Tracks(base, r, before, history, content) && r.mem == None && Seen(r, before, mark)
    ensures Tracks(base, after, model, history, content) && after.mem == None && Seen(after, model, mark)
    ensures number < after.next && r.next <= after.next && model.lastSequence == before.lastSequence
  {
    after, model := r, before;
    if r.next <= number {
      MarkUsed(base, r, before, number + 1, history, content);
      after, model := r.(next := number + 1), before.(nextFile := number + 1);
    }
  }

  /** One live log file of the directory. */
  method ReplayLog(crc: Checksum, disk: Disk, n: nat, r: Replay, full: seq<Entry> -> bool, size: seq<Entry> -> nat,
                   ghost flushed: set<Entry>, ghost mark: nat, ghost before: Store)
    returns (after: Replay, ghost model: Store, ghost done: nat)
    requires n < |disk.logs| && AllLogsOk(crc, disk, mark)
    requires disk.logNumber <= disk.logs[n].number && Replaying(crc, disk, n, flushed, mark, r, before)
    ensures done == n + 1 && Replaying(crc, disk, done, flushed, mark, after, model)
  {
    var l := disk.logs[n];
    ghost var batches, own := Surviving(LogSize(crc), l), EntriesIn(Surviving(LogSize(crc), l));
    ghost var history, content := flushed + LoggedBefore(crc, disk, n), AllContent(disk.levels) + LoggedBefore(crc, disk, n);
    ReplayStarts(crc, disk, n, flushed, mark, r, before);
    LogIsRead(crc, l);
    SurvivorsAbove(LogSize(crc), l, before.lastSequence);
    var read, replayed := RecoverLogFile(crc, FileOf(crc, l), r, full, size, batches, disk.levels, before, history, content, mark);
    done := n + 1;
    after, model := MarkFileNumberUsed(read, l.number, disk.levels, replayed, history + own, content + own, mark);
    ReplayEnds(crc, disk, n, done, flushed, mark, before, r, history, content, own, after, model);
  }

  lemma ReplayEnds(crc: Checksum, disk: Disk, n: nat, done: nat, flushed: set<Entry>, mark: nat, before: Store, r: Replay,
                   history: set<Entry>, content: set<Entry>, own: set<Entry>, after: Replay, model: Store)
    requires n < |disk.logs| && done == n + 1 && AllLogsOk(crc, disk, mark) && disk.logNumber <= disk.logs[n].number < after.next
    requires Replaying(crc, disk, n, flushed, mark, r, before) && r.next <= after.next
    requires history == flushed + LoggedBefore(crc, disk, n) && content == AllContent(disk.levels) + LoggedBefore(crc, disk, n)
    requires own == EntriesIn(Surviving(LogSize(crc), disk.logs[n]))
    requires EndsAt(model.lastSequence, Surviving(LogSize(crc), disk.logs[n]), before.lastSequence)
    requires Tracks(disk.levels, after, model, history + own, content + own) && Seen(after, model, mark) && after.mem == None
    ensures Replaying(crc, disk, done, flushed, mark, after, model)
  {
    StillAbove(LogSize(crc), disk, mark, MAX_SEQUENCE - 1, n, done, before.lastSequence, model.lastSequence);
    OneUsed(disk, n, done, r.next, after.next);
    LogReplayed(crc, disk, n, done, flushed, mark, history, content, own, after, model);
  }

  lemma LogIsRead(crc: Checksum, l: DiskLog)
    requires LogOk(LogSize(crc), l)
    ensures BatchesOk(Surviving(LogSize(crc), l)) && ReadsAs(crc, FileOf(crc, l), 0, Records(Surviving(LogSize(crc), l)))
  {
    LogReadsBack(crc, l);
    var all := ReadAll(crc, true, FileOf(crc, l), 0);
    assert all.0 == Records(Surviving(LogSize(crc), l)) && all.1 == [];
  }

  lemma MarkUsed(base: Levels, r: Replay, st: Store, next: nat, history: set<Entry>, content: set<Entry>)
    requires Tracks(base, r, st, history, content) && r.next <= next
    ensures Tracks(base, r.(next := next), st.(nextFile := next), history, content)
  {
    var after := st.(nextFile := next);
    Raised(st, after, history);
    assert Stored(after) == Stored(st);
    var healthy := Healthy(after, history);
    assert healthy;
  }

  /** The edit installed in one go gives the levels that installing its tables one by one would have given. */
  lemma EditInstalls(base: Levels, edit: seq<File>, levels: Levels)
    requires InFileOrder(base[0]) && InFileOrder(levels[0]) && EditAdds(base, edit, levels)
    ensures base[0 := SaveLevel(base[0], edit, {})] == levels
  {
    SaveLevelOrdered(base[0], edit, {});
    SaveLevelMembers(base[0], edit, {});
    OrderedUnique(SaveLevel(base[0], edit, {}), levels[0]);
  }

  lemma TrackedVersion(base: Levels, r: Replay, st: Store, history: set<Entry>, content: set<Entry>)
    requires Tracks(base, r, st, history, content) && r.mem == None
    ensures VersionOk(st.levels) && AllContent(st.levels) == content && NumbersAllocated(st) && st.nextFile == r.next
    ensures EditAdds(base, r.edit, st.levels) && st.lastSequence < MAX_SEQUENCE && forall e :: e in history ==> e.key.seqno <= st.lastSequence
  {
    assert Stored(st) == AllContent(st.levels);
  }

  lemma AllReplayed(crc: Checksum, disk: Disk, flushed: set<Entry>, mark: nat, r: Replay, model: Store)
    requires Replaying(crc, disk, |disk.logs|, flushed, mark, r, model)
    ensures VersionOk(model.levels) && AllContent(model.levels) == AllContent(disk.levels) + Logged(LogSize(crc), disk)
    ensures NumbersAllocated(model) && model.nextFile == r.next && EditAdds(disk.levels, r.edit, model.levels)
    ensures forall e :: e in Logged(LogSize(crc), disk) ==> e.key.seqno <= model.lastSequence
    ensures model.lastSequence < MAX_SEQUENCE && Seen(r, model, mark) && NumbersUsed(disk, |disk.logs|, r.next)
  {
    var n, views := |disk.logs|, SurvivingIn(LogSize(crc), disk.logs);
    assert views[..n] == views;
    TrackedVersion(disk.levels, r, model, flushed + LoggedBefore(crc, disk, n), AllContent(disk.levels) + LoggedBefore(crc, disk, n));
  }

  lemma OpenedIs(size: Size, disk: Disk, model: Store, r: Replay, mark: nat, st: Store, after: Disk)
    requires VersionOk(model.levels) && AllContent(model.levels) == AllContent(disk.levels) + Logged(size, disk)
    requires NumbersAllocated(model) && model.nextFile == r.next && Seen(r, model, mark) && mark <= disk.lastSequence
    requires (forall e :: e in Logged(size, disk) ==> e.key.seqno <= model.lastSequence) && model.lastSequence < MAX_SEQUENCE
    requires disk.logNumber < disk.nextFile && NumbersUsed(disk, |disk.logs|, r.next)
    requires st == Store([], None, model.levels, if disk.lastSequence < r.maxSequence then r.maxSequence else disk.lastSequence, [], r.next + 1)
    requires disk.lastSequence < MAX_SEQUENCE
    requires after == Disk(st.levels, st.lastSequence, st.nextFile, r.next, disk.logs + [EmptyLog(r.next)])
    ensures Recovered(size, disk, st, after)
  {
    OpenedAbove(disk, r.next);
    assert model.lastSequence <= st.lastSequence;
  }

  /** What Open does once every log has been read: one edit, and a new log. */
  method FinishOpen(crc: Checksum, disk: Disk, r: Replay, ghost flushed: set<Entry>, ghost mark: nat, ghost model: Store)
    returns (st: Store, after: Disk)
    requires Replaying(crc, disk, |disk.logs|, flushed, mark, r, model) && Ready(crc, disk, mark)
    ensures Recovered(LogSize(crc), disk, st, after)
  {
    AllReplayed(crc, disk, flushed, mark, r, model);
    EditInstalls(disk.levels, r.edit, model.levels);
    var files := SaveToLevel(disk.levels[0], r.edit, {});
    var lastSequence := if disk.lastSequence < r.maxSequence then r.maxSequence else disk.lastSequence;
    st := Store([], None, disk.levels[0 := files], lastSequence, [], r.next + 1);
    after := Disk(st.levels, st.lastSequence, st.nextFile, r.next, disk.logs + [EmptyLog(r.next)]);
    OpenedIs(LogSize(crc), disk, model, r, mark, st, after);
  }

  lemma StartOpen(crc: Checksum, disk: Disk, flushed: set<Entry>) returns (mark: nat, model: Store)
    requires DbOk(LogSize(crc), Down(disk), flushed)
    ensures Replaying(crc, disk, 0, flushed, mark, Replay([], None, disk.nextFile + 1, 0), model) && Ready(crc, disk, mark)
  {
    mark :| DbOkAt(LogSize(crc), Down(disk), flushed, mark);
    model := Store([], None, disk.levels, mark, [], disk.nextFile + 1);
    StartReplay(crc, disk, flushed, mark, Replay([], None, disk.nextFile + 1, 0), model);
    var ready := Ready(crc, disk, mark);
    assert ready;
  }

  /** Opening the database: replay the live logs in order, install one edit, start a new log. Whatever a crash cut off,
      this is a recovery in the sense of the crash model. */
  method Open(crc: Checksum, disk: Disk, full: seq<Entry> -> bool, size: seq<Entry> -> nat, ghost flushed: set<Entry>)
    returns (st: Store, after: Disk)
    requires DbOk(LogSize(crc), Down(disk), flushed)
    ensures Recovered(LogSize(crc), disk, st, after)
  {
    var r := Replay([], None, disk.nextFile + 1, 0);
    ghost var mark, model := StartOpen(crc, disk, flushed);
    ghost var n := 0;
    for i := 0 to |disk.logs|
      invariant n == i && Replaying(crc, disk, n, flushed, mark, r, model)
    {
      LogsReady(crc, disk, mark);
      if disk.logNumber <= disk.logs[i].number {
        r, model, n := ReplayLog(crc, disk, i, r, full, size, flushed, mark, model);
      } else {
        n := n + 1;
        LogSkipped(crc, disk, i, n, flushed, mark, r, model);
      }
    }
    st, after := FinishOpen(crc, disk, r, flushed, mark, model);
  }

  ghost predicate Ready(crc: Checksum, disk: Disk, mark: nat) {
    exists levels ::
      && levels == disk.levels && VersionOk(levels) && disk.logNumber < disk.nextFile
      && mark <= disk.lastSequence < MAX_SEQUENCE && AllLogsOk(crc, disk, mark)
  }

  lemma LogsReady(crc: Checksum, disk: Disk, mark: nat)
    requires Ready(crc, disk, mark)
    ensures AllLogsOk(crc, disk, mark)
  {
  }

  /** The new log's number is above every log in the directory, obsolete ones included. */
  lemma OpenedAbove(disk: Disk, next: nat)
    requires disk.logNumber < disk.nextFile && NumbersUsed(disk, |disk.logs|, next)
    ensures forall i :: 0 <= i < |disk.logs| ==> disk.logs[i].number < next
  {
  }

  /** The crash theorem for logs as they are really written: sizes are lengths of log files, so a cut is a cut at any
      byte. */
  lemma CrashSafetyOfFiles(crc: Checksum, states: seq<Recovery.Db>, events: seq<DbEvent>, n: nat)
    requires Run(LogSize(crc), states, events) && n <= |events|
    ensures var history := HistoryAt(LogSize(crc), states, events, n);
            && history == WritesOf(states, events, KeptAt(LogSize(crc), states, events, n))
            && (states[n].Up? ==> StoreOk(states[n].st, history))
            && (states[n].Up? && RunTame(states, events, n) ==> Faithful(states[n].st, history))
  {
    LogSizeGrows(crc);
    CrashSafety(LogSize(crc), states, events, n);
  }

  /** And exactly which commits no cut of the bytes can take. */
  lemma SurvivesCutsIff(crc: Checksum, states: seq<Recovery.Db>, events: seq<DbEvent>, i: nat, n: nat)
    requires Run(LogSize(crc), states, events) && i < n && NoCrash(events, i, n)
    requires events[i].Commit? && WritesAt(states, events, i) != {}
    ensures SurvivesAnyCrash(LogSize(crc), states[n], FlushedAt(LogSize(crc), states, events, n), WritesAt(states, events, i)) <==>
              SyncedBy(events, i, n) || FlushedBy(events, i, n)
  {
    LogSizeGrows(crc);
    SurvivesIff(LogSize(crc), states, events, i, n);
  }
}
