/** The manifest as a file: a log of encoded version edits, read back record by record when the database is opened
    (VersionSet::Recover in db/version_set.cc). */
module ManifestFile {
  import opened Common
  import opened CrashManifest
  import opened Durability
  import opened Keys
  import opened Log
  import opened LogReader
  import opened LsmStore
  import opened Manifest
  import opened Recovery
  import opened Version
  import opened VersionEdits

  /** The table found under a file number. */
  type Tables = nat -> File

  function DeletedPairs(rec: EditRecord): set<(nat, nat)> {
    set p | p in rec.deletedFiles
  }

  function AddedFiles(tables: Tables, files: seq<(nat, FileMeta)>): seq<(nat, File)> {
    seq(|files|, i requires 0 <= i < |files| => (files[i].0, tables(files[i].1.number)))
  }

  /** The file changes a record stands for. */
  function Understood(tables: Tables, rec: EditRecord): Edit {
    Edit(DeletedPairs(rec), AddedFiles(tables, rec.newFiles))
  }

  function AllUnderstood(tables: Tables, recs: seq<EditRecord>): seq<Edit> {
    seq(|recs|, i requires 0 <= i < |recs| => Understood(tables, recs[i]))
  }

  /** The numbers a record may carry. */
  datatype LastNumbers = LastNumbers(log: Option<nat>, prevLog: Option<nat>, nextFile: Option<nat>, lastSequence: Option<nat>)

  function Latest(before: Option<nat>, now: Option<nat>): Option<nat> {
    if now.Some? then now else before
  }

  function NumbersAfter(n: LastNumbers, rec: EditRecord): LastNumbers {
    LastNumbers(Latest(n.log, rec.logNumber), Latest(n.prevLog, rec.prevLogNumber), Latest(n.nextFile, rec.nextFile),
            Latest(n.lastSequence, rec.lastSequence))
  }

  /** The last of each number in these records. */
  function NumbersOf(recs: seq<EditRecord>): LastNumbers {
    if recs == [] then LastNumbers(None, None, None, None) else NumbersAfter(NumbersOf(recs[..|recs| - 1]), recs[|recs| - 1])
  }

  // ------------------------------------------------------------------ reading a manifest

  /** A record that decodes, and that was not made for another comparator. */
  function Accept(name: Bytes, record: Bytes): Option<EditRecord> {
    var d := Decoded(NOTHING, record);
    if d.1.Some? || (d.0.comparator.Some? && d.0.comparator.value != name) then None else Some(d.0)
  }

  /** What the records of a file are taken for, or nothing if the file is corrupt or one of them is not accepted. */
  function Scan<T>(crc: Checksum, accept: Bytes -> Option<T>, file: Bytes, pos: nat): Option<seq<T>>
    requires pos <= |file|
    decreases |file| - pos
  {
    var g := NextRecord(crc, true, file, pos, None);
    if g.reports != [] then None
    else if g.record == None then Some([])
    else
      var item := accept(g.record.value);
      if item.None? then None
      else
        var rest := Scan(crc, accept, file, g.next);
        if rest.None? then None else Some([item.value] + rest.value)
  }

  /** The edits of a manifest. */
  function ScanManifest(crc: Checksum, name: Bytes, file: Bytes): Option<seq<EditRecord>> {
    Scan(crc, (record: Bytes) => Accept(name, record), file, 0)
  }

  /** What recovery installs: the version and the numbers, or a status that is not ok. */
  datatype Outcome = Corrupt | Installed(levels: Levels, logNumber: nat, nextFile: nat, lastSequence: nat)

  function Installing(tables: Tables, scanned: Option<seq<EditRecord>>): Outcome {
    if scanned == None then Corrupt
    else
      var n := NumbersOf(scanned.value);
      if n.nextFile == None || n.log == None || n.lastSequence == None then Corrupt
      else Installed(Replayed(EMPTY_LEVELS, AllUnderstood(tables, scanned.value)), n.log.value, n.nextFile.value, n.lastSequence.value)
  }

  /** What has been read of a file and what is still to come. */
  ghost predicate Scanned<T>(crc: Checksum, accept: Bytes -> Option<T>, file: Bytes, pos: nat, done: seq<T>) {
    && pos <= |file|
    && Scan(crc, accept, file, 0) ==
         var rest := Scan(crc, accept, file, pos);
         if rest.None? then None else Some(done + rest.value)
  }

  lemma ScanStarts<T>(crc: Checksum, accept: Bytes -> Option<T>, file: Bytes)
    ensures Scanned(crc, accept, file, 0, [])
  {
    var rest := Scan(crc, accept, file, 0);
    assert rest.Some? ==> [] + rest.value == rest.value;
  }

  lemma ScanStep<T>(crc: Checksum, accept: Bytes -> Option<T>, file: Bytes, pos: nat, done: seq<T>)
    requires Scanned(crc, accept, file, pos, done)
    ensures var g := NextRecord(crc, true, file, pos, None);
            && (g.reports != [] ==> Scan(crc, accept, file, 0) == None)
            && (g.reports == [] && g.record.None? ==> Scan(crc, accept, file, 0) == Some(done))
            && (g.reports == [] && g.record.Some? ==>
                  var item := accept(g.record.value);
                  if item.None? then Scan(crc, accept, file, 0) == None else Scanned(crc, accept, file, g.next, done + [item.value]))
  {
    var g := NextRecord(crc, true, file, pos, None);
    assert done + [] == done;
    if g.reports == [] && g.record.Some? {
      var item, rest := accept(g.record.value), Scan(crc, accept, file, g.next);
      if item.Some? && rest.Some? { ConcatAssoc(done, [item.value], rest.value); }
    }
  }

  lemma OneMoreUnderstood(tables: Tables, done: seq<EditRecord>, rec: EditRecord)
    ensures AllUnderstood(tables, done + [rec]) == AllUnderstood(tables, done) + [Understood(tables, rec)]
    ensures NumbersOf(done + [rec]) == NumbersAfter(NumbersOf(done), rec)
  {
    assert (done + [rec])[..|done|] == done;
  }

  /** Deleted files and new files keep to the levels there are. */
  lemma {:induction false} ParsedLevels(input: Bytes)
    ensures forall f :: f in ParseFields(input).0 && f.NewFile? ==> f.level < NUM_LEVELS
    decreases |input|
  {
    var p := ParseField(input);
    if p.Parsed? { ParsedLevels(p.rest); }
  }

  lemma {:induction false} LevelsFollow(e: EditRecord, fs: seq<Field>)
    requires forall f :: f in fs && f.NewFile? ==> f.level < NUM_LEVELS
    requires forall i :: 0 <= i < |e.newFiles| ==> e.newFiles[i].0 < NUM_LEVELS
    ensures forall i :: 0 <= i < |WithAll(e, fs).newFiles| ==> WithAll(e, fs).newFiles[i].0 < NUM_LEVELS
    decreases fs
  {
    if fs != [] { LevelsFollow(With(e, fs[0]), fs[1..]); }
  }

  lemma DecodedLevels(src: Bytes)
    ensures var e := Decoded(NOTHING, src).0; forall i :: 0 <= i < |e.newFiles| ==> e.newFiles[i].0 < NUM_LEVELS
  {
    ParsedLevels(src);
    LevelsFollow(NOTHING, ParseFields(src).0);
  }

  /** Decode one record, check its comparator and hand it to the builder. */
  method TakeRecord(record: Bytes, name: Bytes, tables: Tables, builder: VersionBuilder) returns (rec: Option<EditRecord>)
    requires builder.Valid()
    modifies builder
    ensures builder.Valid()
    ensures rec == Accept(name, record)
    ensures rec.Some? ==> builder.edits == old(builder.edits) + [Understood(tables, rec.value)]
  {
    var edit := new VersionEdit();
    var message := edit.DecodeFrom(record);
    DecodedLevels(record);
    if message.Some? || (edit.comparator.Some? && edit.comparator.value != name) {
      return None;
    }
    builder.Apply(Understood(tables, edit.Record()));
    return Some(edit.Record());
  }

  /** VersionSet::Recover from the manifest on: every record is decoded and handed to one builder, and the last of each
      number counts. The next file number in use is one above the one recorded. */
  method Recover(crc: Checksum, name: Bytes, file: Bytes, tables: Tables) returns (r: Outcome)
    ensures r == Installing(tables, ScanManifest(crc, name, file))
  {
    var reader := new Reader(crc, true, file);
    var builder := new VersionBuilder(EMPTY_LEVELS);
    var numbers := LastNumbers(None, None, None, None);
    ghost var done: seq<EditRecord> := [];
    ghost var accept := (record: Bytes) => Accept(name, record);
    ScanStarts(crc, accept, file);
    while true
      invariant reader.Valid() && reader.crc == crc && reader.checksum && reader.file == file && reader.reports == []
      invariant Scanned(crc, accept, file, reader.Pos(), done) && numbers == NumbersOf(done)
      invariant builder.Valid() && builder.base == EMPTY_LEVELS && builder.edits == AllUnderstood(tables, done)
      decreases |file| - reader.Pos()
    {
      ghost var pos := reader.Pos();
      ScanStep(crc, accept, file, pos, done);
      var record := reader.ReadRecord();
      if reader.reports != [] {
        return Corrupt;
      }
      if record == None {
        break;
      }
      var rec := TakeRecord(record.value, name, tables, builder);
      if rec == None {
        return Corrupt;
      }
      OneMoreUnderstood(tables, done, rec.value);
      numbers, done := NumbersAfter(numbers, rec.value), done + [rec.value];
    }
    if numbers.nextFile == None || numbers.log == None || numbers.lastSequence == None {
      return Corrupt;
    }
    EmptyInOrder();
    var levels := builder.SaveTo();
    return Installed(levels, numbers.log.value, numbers.nextFile.value, numbers.lastSequence.value);
  }

  // ------------------------------------------------------------------ a manifest as it was written, cut anywhere

  function AllEncoded(recs: seq<EditRecord>): seq<Bytes> {
    seq(|recs|, i requires 0 <= i < |recs| => Encoded(recs[i]))
  }

  /** A record this database may write. */
  predicate Writable(name: Bytes, rec: EditRecord) {
    RecordFits(rec) && (rec.comparator.Some? ==> rec.comparator.value == name)
  }

  predicate AllWritable(name: Bytes, recs: seq<EditRecord>) {
    forall i :: 0 <= i < |recs| ==> Writable(name, recs[i])
  }

  lemma ReadHead(crc: Checksum, file: Bytes, pos: nat, records: seq<Bytes>)
    requires pos <= |file| && ReadAll(crc, true, file, pos) == (records, []) && records != []
    ensures var g := NextRecord(crc, true, file, pos, None);
            g.record == Some(records[0]) && g.reports == [] && ReadAll(crc, true, file, g.next) == (records[1..], [])
  {
    var g := NextRecord(crc, true, file, pos, None);
    var rest := ReadAll(crc, true, file, g.next);
    assert [g.record.value] + rest.0 == records && g.reports + rest.1 == [];
    assert ([g.record.value] + rest.0)[1..] == rest.0;
  }

  /** If every record of a file is accepted, what they are taken for is what is scanned. */
  lemma {:induction false} ScanAccepts<T>(crc: Checksum, accept: Bytes -> Option<T>, file: Bytes, pos: nat, records: seq<Bytes>, items: seq<T>)
    requires pos <= |file| && ReadAll(crc, true, file, pos) == (records, [])
    requires |records| == |items| && forall i :: 0 <= i < |records| ==> accept(records[i]) == Some(items[i])
    ensures Scan(crc, accept, file, pos) == Some(items)
    decreases |records|
  {
    if records == [] {
      NothingLeft(crc, file, pos);
    } else {
      ReadHead(crc, file, pos, records);
      ScanAccepts(crc, accept, file, NextRecord(crc, true, file, pos, None).next, records[1..], items[1..]);
      assert [items[0]] + items[1..] == items;
    }
  }

  lemma NothingLeft(crc: Checksum, file: Bytes, pos: nat)
    requires pos <= |file| && ReadAll(crc, true, file, pos) == ([], [])
    ensures var g := NextRecord(crc, true, file, pos, None); g.record.None? && g.reports == []
  {
  }

  lemma WritableIsAccepted(name: Bytes, rec: EditRecord)
    requires Writable(name, rec)
    ensures Accept(name, Encoded(rec)) == Some(rec)
  {
    EditRoundTrip(rec);
  }

  /** If the records of a file are encoded edits, those edits are what is scanned. */
  lemma ScanDecodes(crc: Checksum, name: Bytes, file: Bytes, recs: seq<EditRecord>)
    requires AllWritable(name, recs) && ReadAll(crc, true, file, 0) == (AllEncoded(recs), [])
    ensures ScanManifest(crc, name, file) == Some(recs)
  {
    var accept := (record: Bytes) => Accept(name, record);
    forall i | 0 <= i < |recs| ensures accept(AllEncoded(recs)[i]) == Some(recs[i]) {
      WritableIsAccepted(name, recs[i]);
    }
    ScanAccepts(crc, accept, file, 0, AllEncoded(recs), recs);
  }

  function ManifestBytes(crc: Checksum, recs: seq<EditRecord>): Bytes {
    LogFile(crc, AllEncoded(recs))
  }

  lemma EncodedPrefix(recs: seq<EditRecord>, rec: EditRecord)
    ensures AllEncoded(recs + [rec]) == AllEncoded(recs) + [Encoded(rec)]
    ensures AllEncoded(recs + [rec])[..|recs|] == AllEncoded(recs)
  {
  }

  lemma AppendIsIntact(crc: Checksum, recs: seq<EditRecord>, rec: EditRecord, cut: nat, m: nat)
    requires |ManifestBytes(crc, recs)| <= cut <= |ManifestBytes(crc, recs + [rec])|
    requires m == if cut < |ManifestBytes(crc, recs + [rec])| then |recs| else |recs| + 1
    ensures Intact(crc, AllEncoded(recs + [rec]), cut, m)
  {
    var all := AllEncoded(recs + [rec]);
    EncodedPrefix(recs, rec);
    assert all[..|all|] == all;
  }

  lemma AppendReadsBack(crc: Checksum, recs: seq<EditRecord>, rec: EditRecord, cut: nat, read: seq<EditRecord>)
    requires |ManifestBytes(crc, recs)| <= cut <= |ManifestBytes(crc, recs + [rec])|
    requires read == if cut < |ManifestBytes(crc, recs + [rec])| then recs else recs + [rec]
    ensures ReadAll(crc, true, ManifestBytes(crc, recs + [rec])[..cut], 0) == (AllEncoded(read), [])
  {
    var all := AllEncoded(recs + [rec]);
    AppendIsIntact(crc, recs, rec, cut, |read|);
    TornTail(crc, true, all, cut, |read|);
    EncodedPrefix(recs, rec);
    assert all[..|read|] == AllEncoded(read);
  }

  /** However much of an append reaches the manifest, either the whole edit is read back or none of it is. */
  lemma TornAppend(crc: Checksum, name: Bytes, recs: seq<EditRecord>, rec: EditRecord, cut: nat)
    requires AllWritable(name, recs) && Writable(name, rec)
    requires |ManifestBytes(crc, recs)| <= cut <= |ManifestBytes(crc, recs + [rec])|
    ensures ScanManifest(crc, name, ManifestBytes(crc, recs + [rec])[..cut]) ==
              Some(if cut < |ManifestBytes(crc, recs + [rec])| then recs else recs + [rec])
  {
    var read := if cut < |ManifestBytes(crc, recs + [rec])| then recs else recs + [rec];
    AppendReadsBack(crc, recs, rec, cut, read);
    ScanDecodes(crc, name, ManifestBytes(crc, recs + [rec])[..cut], read);
  }

  // ------------------------------------------------------------------ the manifest of a run

  /** An edit as it is logged, with the numbers of the disk it leads to. */
  datatype LoggedEdit = LoggedEdit(edit: Edit, disk: Disk)

  /** What the manifest holds after `n` steps. */
  ghost function LoggedAt(states: seq<Db>, events: seq<DbEvent>, n: nat): seq<LoggedEdit>
    requires n <= |events| < |states|
  {
    if n == 0 then [LoggedEdit(NO_CHANGE, states[0].disk)]
    else LoggedAfter(LoggedAt(states, events, n - 1), states[n - 1], events[n - 1], states[n])
  }

  ghost function LoggedAfter(before: seq<LoggedEdit>, db: Db, ev: DbEvent, after: Db): seq<LoggedEdit> {
    if ev.Recover? then [LoggedEdit(Snapshot(after.disk.levels), after.disk)]
    else if EditAt(db, ev) != [] then before + [LoggedEdit(EditAt(db, ev)[0], after.disk)]
    else before
  }

  function EditsOf(logged: seq<LoggedEdit>): seq<Edit> {
    seq(|logged|, i requires 0 <= i < |logged| => logged[i].edit)
  }

  lemma {:induction false} LoggedEdits(states: seq<Db>, events: seq<DbEvent>, n: nat)
    requires n <= |events| < |states|
    ensures EditsOf(LoggedAt(states, events, n)) == ManifestAt(states, events, n)
  {
    if n > 0 {
      LoggedEdits(states, events, n - 1);
      EditsAfter(LoggedAt(states, events, n - 1), states[n - 1], events[n - 1], states[n]);
    }
  }

  lemma EditsAfter(before: seq<LoggedEdit>, db: Db, ev: DbEvent, after: Db)
    ensures EditsOf(LoggedAfter(before, db, ev, after)) == ManifestAfter(EditsOf(before), db, ev, after)
  {
    assert EditsOf(before) + [] == EditsOf(before);
  }

  predicate SameNumbers(a: Disk, b: Disk) {
    a.logNumber == b.logNumber && a.nextFile == b.nextFile && a.lastSequence == b.lastSequence
  }

  /** The last edit carries the numbers of the disk as it is. */
  ghost predicate UpToDate(logged: seq<LoggedEdit>, disk: Disk) {
    logged != [] && SameNumbers(logged[|logged| - 1].disk, disk)
  }

  lemma NumbersMove(size: Size, db: Db, ev: DbEvent, after: Db)
    requires Next(size, db, ev, after)
    ensures ev.Recover? || EditAt(db, ev) != [] || SameNumbers(db.disk, after.disk)
  {
  }

  lemma {:induction false} LoggedNumbers(size: Size, states: seq<Db>, events: seq<DbEvent>, n: nat)
    requires Growing(size) && Run(size, states, events) && n <= |events|
    ensures UpToDate(LoggedAt(states, events, n), states[n].disk)
  {
    if n > 0 {
      LoggedNumbers(size, states, events, n - 1);
      assert StepAt(size, states, events, n - 1);
      NumbersMove(size, states[n - 1], events[n - 1], states[n]);
    }
  }

  /** `rec` is how an edit and the numbers that go with it are written. */
  ghost predicate Says(tables: Tables, rec: EditRecord, logged: LoggedEdit) {
    && Understood(tables, rec) == logged.edit && rec.logNumber == Some(logged.disk.logNumber)
    && rec.nextFile == Some(logged.disk.nextFile) && rec.lastSequence == Some(logged.disk.lastSequence)
  }

  ghost predicate AllSay(tables: Tables, recs: seq<EditRecord>, logged: seq<LoggedEdit>) {
    |recs| == |logged| && forall i :: 0 <= i < |recs| ==> Says(tables, recs[i], logged[i])
  }

  lemma SayingIsUnderstood(tables: Tables, recs: seq<EditRecord>, logged: seq<LoggedEdit>)
    requires AllSay(tables, recs, logged)
    ensures AllUnderstood(tables, recs) == EditsOf(logged)
    ensures logged != [] ==>
              var n, disk := NumbersOf(recs), logged[|logged| - 1].disk;
              n.log == Some(disk.logNumber) && n.nextFile == Some(disk.nextFile) && n.lastSequence == Some(disk.lastSequence)
  {
    if logged != [] { assert Says(tables, recs[|recs| - 1], logged[|logged| - 1]); }
  }

  /** Every edit can be written: some record says it. */
  lemma EditCanBeSaid(tables: Tables, logged: LoggedEdit, metas: seq<FileMeta>) returns (rec: EditRecord)
    requires |metas| == |logged.edit.added|
    requires forall i :: 0 <= i < |metas| ==> tables(metas[i].number) == logged.edit.added[i].1
    ensures Says(tables, rec, logged) && Ascending(rec.deletedFiles)
  {
    var deleted := ListPairs(logged.edit.deleted);
    var added := logged.edit.added;
    var files := seq(|added|, i requires 0 <= i < |added| => (added[i].0, metas[i]));
    rec := EditRecord(None, Some(logged.disk.logNumber), None, Some(logged.disk.nextFile), Some(logged.disk.lastSequence), [], deleted, files);
    assert DeletedPairs(rec) == logged.edit.deleted;
    assert AddedFiles(tables, files) == added;
  }

  lemma RunIsInstalled(tables: Tables, size: Size, states: seq<Db>, events: seq<DbEvent>, n: nat, recs: seq<EditRecord>)
    requires Growing(size) && Run(size, states, events) && n <= |events| && AllSay(tables, recs, LoggedAt(states, events, n))
    ensures var disk := states[n].disk;
            Installing(tables, Some(recs)) == Installed(disk.levels, disk.logNumber, disk.nextFile, disk.lastSequence)
  {
    LoggedEdits(states, events, n);
    LoggedNumbers(size, states, events, n);
    SayingIsUnderstood(tables, recs, LoggedAt(states, events, n));
    ManifestRebuildsLevels(size, states, events, n);
  }

  /** Opening the database after any run finds the levels and the numbers on disk, whatever part of a further edit reached
      the manifest before the crash, as long as it is not all of it. */
  lemma ManifestRestoresDisk(crc: Checksum, name: Bytes, tables: Tables, size: Size, states: seq<Db>, events: seq<DbEvent>, n: nat,
                             recs: seq<EditRecord>, torn: EditRecord, cut: nat)
    requires Growing(size) && Run(size, states, events) && n <= |events|
    requires AllSay(tables, recs, LoggedAt(states, events, n)) && AllWritable(name, recs) && Writable(name, torn)
    requires |ManifestBytes(crc, recs)| <= cut < |ManifestBytes(crc, recs + [torn])|
    ensures var disk := states[n].disk;
            Installing(tables, ScanManifest(crc, name, ManifestBytes(crc, recs + [torn])[..cut])) ==
              Installed(disk.levels, disk.logNumber, disk.nextFile, disk.lastSequence)
  {
    TornAppend(crc, name, recs, torn, cut);
    RunIsInstalled(tables, size, states, events, n, recs);
  }
}
