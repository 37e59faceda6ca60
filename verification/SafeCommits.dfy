/** Which commits are safe, and from when on: the way of a commit from its log through the memtables to a table, the order
    in which a crash takes commits of one log, and how far a sync reaches (db/db_impl.cc). */
module SafeCommits {
  import opened Batches
  import opened Common
  import opened Durability
  import opened Keys
  import opened LsmStore
  import opened Recovery

  // ------------------------------------------------------------------ one place for each batch

  lemma {:induction false} FromView(lo: nat, views: seq<View>, e: Entry) returns (c: nat, q: nat)
    requires e in ViewEntries(lo, views)
    ensures c < |views| && lo <= views[c].number && q < |views[c].batches| && e in EntriesOf(views[c].batches[q])
  {
    var n := |views| - 1;
    if e in ViewEntries(lo, views[..n]) {
      c, q := FromView(lo, views[..n], e);
    } else {
      var b :| b in views[n].batches && e in EntriesOf(b);
      q :| 0 <= q < |views[n].batches| && views[n].batches[q] == b;
      c := n;
    }
  }

  lemma OnePlace(lo: nat, views: seq<View>, mark: nat, last: nat, a: nat, p: nat, c: nat, q: nat, e: Entry)
    requires ViewsOk(lo, views, mark, last) && a < |views| && c < |views| && lo <= views[a].number && lo <= views[c].number
    requires p < |views[a].batches| && e in EntriesOf(views[a].batches[p]) && BatchesOk(views[a].batches)
    requires q < |views[c].batches| && e in EntriesOf(views[c].batches[q])
    ensures a == c && p == q
  {
    if a < c { InOrder(lo, views, mark, last, a, p, c, q); }
    if c < a { InOrder(lo, views, mark, last, c, q, a, p); }
    EntriesBounds(views[a].batches[p], e);
    EntriesBounds(views[c].batches[q], e);
  }

  lemma InOrder(lo: nat, views: seq<View>, mark: nat, last: nat, a: nat, p: nat, c: nat, q: nat)
    requires ViewsOk(lo, views, mark, last) && a < c < |views| && lo <= views[a].number
    requires p < |views[a].batches| && q < |views[c].batches|
    ensures EndOf(views[a].batches[p]) <= views[c].batches[q].first
  {
    assert Precedes(views[a].batches, views[c].batches);
  }

  /** An entry of a live batch is found in a shorter view of the logs only if that view shows the batch. */
  lemma OnlyThere(lo: nat, full: seq<View>, part: seq<View>, mark: nat, last: nat, a: nat, p: nat, e: Entry)
    requires |part| == |full| && forall i :: 0 <= i < |full| ==> part[i].number == full[i].number && part[i].batches <= full[i].batches
    requires ViewsOk(lo, full, mark, last) && a < |full| && lo <= full[a].number && p < |full[a].batches|
    requires BatchesOk(full[a].batches) && e in EntriesOf(full[a].batches[p]) && e in ViewEntries(lo, part)
    ensures p < |part[a].batches|
  {
    var c, q := FromView(lo, part, e);
    assert full[c].batches[q] == part[c].batches[q];
    OnePlace(lo, full, mark, last, a, p, c, q, e);
  }

  lemma DbLogs(size: Size, db: Db, flushed: set<Entry>) returns (mark: nat, last: nat)
    requires DbOk(size, db, flushed)
    ensures LogsOk(size, db.disk.logNumber, db.disk.logs, mark, last) && Bounded(flushed, mark)
  {
    match db
    case Up(st, disk) => mark :| DbOkAt(size, Up(st, disk), flushed, mark); last := st.lastSequence;
    case Down(disk) => mark :| DbOkAt(size, Down(disk), flushed, mark); last := MAX_SEQUENCE - 1;
  }

  lemma NotFlushed(size: Size, disk: Disk, flushed: set<Entry>, mark: nat, last: nat, a: nat, p: nat, e: Entry)
    requires LogsOk(size, disk.logNumber, disk.logs, mark, last) && Bounded(flushed, mark)
    requires a < |disk.logs| && disk.logNumber <= disk.logs[a].number && p < |disk.logs[a].batches|
    requires e in EntriesOf(disk.logs[a].batches[p])
    ensures e !in flushed
  {
    assert Between(mark, WrittenTo(disk.logs)[a].batches, last);
    EntriesBounds(disk.logs[a].batches[p], e);
  }

  /** A batch of a live log is durable only if its last byte is synced. */
  lemma DurableIsSynced(size: Size, db: Db, flushed: set<Entry>, a: nat, p: nat, e: Entry)
    requires DbOk(size, db, flushed) && a < |db.disk.logs| && Live(db.disk, db.disk.logs[a]) && p < |db.disk.logs[a].batches|
    requires e in EntriesOf(db.disk.logs[a].batches[p]) && e in Durable(size, db, flushed)
    ensures p < |Synced(size, db.disk.logs[a])|
  {
    var disk := db.disk;
    var mark, last := DbLogs(size, db, flushed);
    NotFlushed(size, disk, flushed, mark, last, a, p, e);
    assert LogOk(size, disk.logs[a]);
    OnlyThere(disk.logNumber, WrittenTo(disk.logs), SyncedIn(size, disk.logs), mark, last, a, p, e);
  }

  /** A batch of a live log is there after a crash only if its last byte is. */
  lemma SurvivorIsIntact(size: Size, db: Db, flushed: set<Entry>, cuts: seq<nat>, a: nat, p: nat, e: Entry)
    requires DbOk(size, db, flushed) && a < |db.disk.logs| && Live(db.disk, db.disk.logs[a]) && p < |db.disk.logs[a].batches|
    requires Cuttable(db.disk.logs, cuts)
    requires e in EntriesOf(db.disk.logs[a].batches[p]) && e in History(size, AfterCrash(db, cuts), flushed)
    ensures p < |Surviving(size, CutLogs(db.disk.logs, cuts)[a])|
  {
    var disk := db.disk;
    var mark, last := DbLogs(size, db, flushed);
    NotFlushed(size, disk, flushed, mark, last, a, p, e);
    assert LogOk(size, disk.logs[a]);
    OnlyThere(disk.logNumber, WrittenTo(disk.logs), SurvivingIn(size, CutLogs(disk.logs, cuts)), mark, last, a, p, e);
  }

  // ------------------------------------------------------------------ what makes a commit safe

  /** How far a commit has come on its way to the disk: its log was synced after it, its memtable was replaced, its
      memtable was flushed. */
  datatype Stage = Stage(covered: bool, switched: bool, flushed: bool)

  function StageAfter(s: Stage, ev: DbEvent): Stage {
    Stage(s.covered || (ev.Commit? && ev.sync && !s.switched), s.switched || ev.Switch?, s.flushed || (s.switched && ev.Flush?))
  }

  /** How far commit `i` has come after `n` steps. */
  function StageAt(events: seq<DbEvent>, i: nat, n: nat): Stage
    requires i < n <= |events| && events[i].Commit?
  {
    if n == i + 1 then Stage(events[i].sync, false, false) else StageAfter(StageAt(events, i, n - 1), events[n - 1])
  }

  /** Batch `w` is the `p`-th of the live log `l`, which tells how far it has come. */
  ghost predicate PlacedIn(size: Size, disk: Disk, w: set<Entry>, s: Stage, l: DiskLog, p: nat) {
    && Live(disk, l) && p < |l.batches| && EntriesOf(l.batches[p]) == w
    && (size(l.batches[..p + 1]) <= l.synced <==> s.covered) && (l == LastLogOf(disk) <==> !s.switched)
  }

  ghost predicate Placed(size: Size, disk: Disk, flushed: set<Entry>, w: set<Entry>, s: Stage) {
    if s.flushed then w <= flushed else exists l, p :: PlacedIn(size, disk, w, s, l, p)
  }

  lemma PlacedAtEnd(size: Size, disk: Disk, b: Batch, sync: bool, l: DiskLog)
    requires Growing(size) && Live(disk, l) && l == LastLogOf(disk) && LogOk(size, l) && BatchesOk(l.batches + [b])
    ensures PlacedIn(size, CommittedDisk(size, disk, b, sync), EntriesOf(b), Stage(sync, false, false), Appended(size, l, b, sync), |l.batches|)
  {
    var now, p := Appended(size, l, b, sync), |l.batches|;
    SizeGrows(size, l.batches, b);
    assert now.batches[..p + 1] == now.batches;
    assert CommittedDisk(size, disk, b, sync).logs[|disk.logs| - 1] == now;
  }

  /** The batch a commit has just written. */
  lemma JustCommitted(size: Size, st: Store, disk: Disk, ops: seq<BatchOp>, sync: bool, after: Db, flushed: set<Entry>)
    requires Growing(size) && DbOk(size, Up(st, disk), flushed) && Committing(size, st, disk, ops, sync, after)
    ensures st.lastSequence + |ops| < MAX_SEQUENCE
    ensures Placed(size, after.disk, flushed, WrittenBy(st, OpsOf(ops)), Stage(sync, false, false))
  {
    EntriesAreWritten(st, ops);
    LastIsLive(size, st, disk, flushed);
    UncutLive(size, st, disk, flushed, LastLogOf(disk));
    PlacedAtEnd(size, disk, Batch(st.lastSequence + 1, ops), sync, LastLogOf(disk));
  }

  lemma PlacedInLast(size: Size, disk: Disk, b: Batch, sync: bool, w: set<Entry>, s: Stage, l: DiskLog, p: nat)
    requires Growing(size) && PlacedIn(size, disk, w, s, l, p) && !s.switched && LogOk(size, l) && BatchesOk(l.batches + [b])
    ensures PlacedIn(size, CommittedDisk(size, disk, b, sync), w, Stage(s.covered || sync, false, false), Appended(size, l, b, sync), p)
  {
    var now, n := Appended(size, l, b, sync), |l.batches|;
    assert CommittedDisk(size, disk, b, sync).logs[|disk.logs| - 1] == now;
    assert now.batches[..p + 1] == l.batches[..p + 1];
    SizeMonotone(size, now.batches, p + 1, n + 1);
    assert now.batches[..n + 1] == now.batches;
  }

  lemma PlacedBefore(size: Size, disk: Disk, b: Batch, sync: bool, w: set<Entry>, s: Stage, l: DiskLog, p: nat)
    requires PlacedIn(size, disk, w, s, l, p) && s.switched && disk.logs != [] && BatchesOk(LastLogOf(disk).batches + [b])
    requires l.number < LastLogOf(disk).number
    ensures PlacedIn(size, CommittedDisk(size, disk, b, sync), w, s, l, p)
  {
    var a :| 0 <= a < |disk.logs| && disk.logs[a] == l;
    assert CommittedDisk(size, disk, b, sync).logs[a] == l;
  }

  lemma PlacedAppended(size: Size, disk: Disk, later: Disk, b: Batch, sync: bool, flushed: set<Entry>, w: set<Entry>, s: Stage, t: Stage,
                       l: DiskLog, p: nat)
    requires Growing(size) && PlacedIn(size, disk, w, s, l, p) && !s.flushed && LogOk(size, l)
    requires disk.logs != [] && BatchesOk(LastLogOf(disk).batches + [b]) && later == CommittedDisk(size, disk, b, sync)
    requires l == LastLogOf(disk) || l.number < LastLogOf(disk).number
    requires t == s.(covered := s.covered || (sync && !s.switched))
    ensures Placed(size, later, flushed, w, t)
  {
    if s.switched {
      PlacedBefore(size, disk, b, sync, w, s, l, p);
      assert t == s;
    } else {
      PlacedInLast(size, disk, b, sync, w, s, l, p);
      assert t == Stage(s.covered || sync, false, false);
    }
  }

  lemma PlacedCommit(size: Size, st: Store, disk: Disk, ops: seq<BatchOp>, sync: bool, after: Db, flushed: set<Entry>, w: set<Entry>, s: Stage)
    requires Growing(size) && DbOk(size, Up(st, disk), flushed) && Committing(size, st, disk, ops, sync, after)
    requires Placed(size, disk, flushed, w, s) && !s.flushed
    ensures Placed(size, after.disk, flushed, w, StageAfter(s, Commit(ops, sync)))
  {
    var l, p :| PlacedIn(size, disk, w, s, l, p);
    LastIsLive(size, st, disk, flushed);
    UncutLive(size, st, disk, flushed, l);
    var t := StageAfter(s, Commit(ops, sync));
    PlacedAppended(size, disk, after.disk, Batch(st.lastSequence + 1, ops), sync, flushed, w, s, t, l, p);
  }

  lemma PlacedInOlder(size: Size, disk: Disk, number: nat, w: set<Entry>, s: Stage, l: DiskLog, p: nat)
    requires PlacedIn(size, disk, w, s, l, p) && l.number < number
    ensures PlacedIn(size, disk.(logs := disk.logs + [EmptyLog(number)]), w, s.(switched := true), l, p)
  {
  }

  lemma PlacedSwitch(size: Size, st: Store, disk: Disk, flushed: set<Entry>, w: set<Entry>, s: Stage)
    requires DbOk(size, Up(st, disk), flushed) && Placed(size, disk, flushed, w, s) && !s.flushed
    ensures Placed(size, SwitchedDisk(st, disk), flushed, w, StageAfter(s, Switch))
  {
    assert StageAfter(s, Switch) == s.(switched := true);
    var l, p :| PlacedIn(size, disk, w, s, l, p);
    LastIsLive(size, st, disk, flushed);
    PlacedInOlder(size, disk, st.nextFile, w, s, l, p);
  }

  lemma EarlierLogsShow(disk: Disk, l: DiskLog, p: nat)
    requires Live(disk, l) && disk.logs != [] && l != LastLogOf(disk) && p < |l.batches|
    ensures EntriesOf(l.batches[p]) <= ViewEntries(disk.logNumber, WrittenTo(disk.logs)[..|disk.logs| - 1])
  {
    var a :| 0 <= a < |disk.logs| && disk.logs[a] == l;
    InViews(disk.logNumber, WrittenTo(disk.logs)[..|disk.logs| - 1], a, l.batches[p]);
  }

  /** The immutable memtable holds every batch of the live logs before the last. */
  lemma EarlierLogsAreImm(size: Size, st: Store, disk: Disk, flushed: set<Entry>, l: DiskLog, p: nat)
    requires DbOk(size, Up(st, disk), flushed) && Live(disk, l) && disk.logs != [] && l != LastLogOf(disk) && p < |l.batches|
    ensures EntriesOf(l.batches[p]) <= Content(ImmRun(st))
  {
    var mark :| DbOkAt(size, Up(st, disk), flushed, mark);
    EarlierLogsShow(disk, l, p);
  }

  lemma PlacedInNewest(size: Size, disk: Disk, later: Disk, w: set<Entry>, s: Stage, l: DiskLog, p: nat)
    requires PlacedIn(size, disk, w, s, l, p) && !s.switched && later.logs == disk.logs && later.logNumber == l.number
    ensures PlacedIn(size, later, w, s, l, p)
  {
  }

  lemma PlacedFlush(size: Size, st: Store, disk: Disk, flushed: set<Entry>, level: nat, bytes: nat, w: set<Entry>, s: Stage)
    requires DbOk(size, Up(st, disk), flushed) && CanFlush(st, level, bytes) && Placed(size, disk, flushed, w, s) && !s.flushed
    ensures disk.logs != []
    ensures Placed(size, FlushedDisk(st, disk, level, bytes), flushed + Content(ImmRun(st)), w, StageAfter(s, Flush(level, bytes)))
  {
    assert StageAfter(s, Flush(level, bytes)) == s.(flushed := s.switched);
    LastIsLive(size, st, disk, flushed);
    var l, p :| PlacedIn(size, disk, w, s, l, p);
    if s.switched {
      EarlierLogsAreImm(size, st, disk, flushed, l, p);
    } else {
      PlacedInNewest(size, disk, FlushedDisk(st, disk, level, bytes), w, s, l, p);
    }
  }

  /** A step that keeps every live log and the one being written. */
  lemma PlacedQuiet(size: Size, disk: Disk, later: Disk, flushed: set<Entry>, w: set<Entry>, s: Stage)
    requires Placed(size, disk, flushed, w, s) && later.logNumber == disk.logNumber
    requires disk.logs != [] && later.logs != [] && LastLogOf(later) == LastLogOf(disk)
    requires forall l :: Live(disk, l) ==> l in later.logs
    ensures Placed(size, later, flushed, w, s)
  {
    if !s.flushed {
      var l, p :| PlacedIn(size, disk, w, s, l, p);
      assert PlacedIn(size, later, w, s, l, p);
    }
  }

  lemma DeletedLog(disk: Disk, index: nat)
    requires index < |disk.logs| && disk.logs[index].number < disk.logNumber && Live(disk, LastLogOf(disk))
    ensures var logs := Without(disk.logs, index);
            && logs != [] && logs[|logs| - 1] == LastLogOf(disk)
            && forall l :: Live(disk, l) ==> l in logs
  {
    var logs := Without(disk.logs, index);
    WithoutElements(disk.logs, index);
    forall l | Live(disk, l) ensures l in logs {
      var a :| 0 <= a < |disk.logs| && disk.logs[a] == l;
      assert l == logs[if a < index then a else a - 1];
    }
  }

  lemma OtherKeepsLogs(size: Size, st: Store, disk: Disk, ev: DbEvent, after: Db, flushed: set<Entry>)
    requires DbOk(size, Up(st, disk), flushed) && Moves(size, Up(st, disk), ev, after)
    requires ev.Rearrange? || ev.Snapshots? || ev.AllocateFile? || ev.DeleteLog?
    ensures after.disk.logNumber == disk.logNumber && forall l :: Live(disk, l) ==> l in after.disk.logs
    ensures disk.logs != [] && after.disk.logs != [] && LastLogOf(after.disk) == LastLogOf(disk)
  {
    LastIsLive(size, st, disk, flushed);
    if ev.DeleteLog? { DeletedLog(disk, ev.index); }
  }

  lemma PlacedOther(size: Size, st: Store, disk: Disk, ev: DbEvent, after: Db, flushed: set<Entry>, w: set<Entry>, s: Stage)
    requires DbOk(size, Up(st, disk), flushed) && Moves(size, Up(st, disk), ev, after)
    requires ev.Rearrange? || ev.Snapshots? || ev.AllocateFile? || ev.DeleteLog?
    requires Placed(size, disk, flushed, w, s)
    ensures Placed(size, after.disk, flushed, w, s)
  {
    OtherKeepsLogs(size, st, disk, ev, after, flushed);
    PlacedQuiet(size, disk, after.disk, flushed, w, s);
  }

  lemma PlacedStep(size: Size, st: Store, disk: Disk, ev: DbEvent, after: Db, flushed: set<Entry>, w: set<Entry>, s: Stage)
    requires Growing(size) && DbOk(size, Up(st, disk), flushed) && Moves(size, Up(st, disk), ev, after) && !ev.Crash?
    requires Placed(size, disk, flushed, w, s) && !s.flushed
    ensures Placed(size, after.disk, FlushedAfter(size, Up(st, disk), ev, flushed), w, StageAfter(s, ev))
  {
    match ev
    case Commit(ops, sync) => PlacedCommit(size, st, disk, ops, sync, after, flushed, w, s);
    case Switch => PlacedSwitch(size, st, disk, flushed, w, s);
    case Flush(level, bytes) => PlacedFlush(size, st, disk, flushed, level, bytes, w, s);
    case _ => PlacedOther(size, st, disk, ev, after, flushed, w, s);
  }

  lemma SyncedIff(size: Size, l: DiskLog, p: nat)
    requires Growing(size) && LogOk(size, l) && p < |l.batches|
    ensures p < |Synced(size, l)| <==> size(l.batches[..p + 1]) <= l.synced
  {
    var m := IntactCount(size, l.batches, l.synced);
    CountIsIntact(size, l.batches, l.synced, |l.batches|);
    if p < m { SizeMonotone(size, l.batches, p + 1, m); } else { SizeMonotone(size, l.batches, m + 1, p + 1); }
  }

  lemma SyncedIsDurable(size: Size, db: Db, flushed: set<Entry>, a: nat, p: nat)
    requires a < |db.disk.logs| && Live(db.disk, db.disk.logs[a]) && p < |Synced(size, db.disk.logs[a])|
    ensures EntriesOf(db.disk.logs[a].batches[p]) <= Durable(size, db, flushed)
  {
    InViews(db.disk.logNumber, SyncedIn(size, db.disk.logs), a, db.disk.logs[a].batches[p]);
  }

  lemma DurableIsCovered(size: Size, db: Db, flushed: set<Entry>, w: set<Entry>, s: Stage, l: DiskLog, p: nat)
    requires Growing(size) && DbOk(size, db, flushed) && PlacedIn(size, db.disk, w, s, l, p) && w != {}
    requires w <= Durable(size, db, flushed)
    ensures s.covered
  {
    var a :| 0 <= a < |db.disk.logs| && db.disk.logs[a] == l;
    var e :| e in w;
    DurableIsSynced(size, db, flushed, a, p, e);
    DbLogsOk(size, db, flushed);
    SyncedIff(size, l, p);
  }

  lemma CoveredIsDurable(size: Size, db: Db, flushed: set<Entry>, w: set<Entry>, s: Stage, l: DiskLog, p: nat)
    requires Growing(size) && AllOk(size, db.disk.logs) && PlacedIn(size, db.disk, w, s, l, p) && s.covered
    ensures w <= Durable(size, db, flushed)
  {
    var a :| 0 <= a < |db.disk.logs| && db.disk.logs[a] == l;
    SyncedIff(size, l, p);
    SyncedIsDurable(size, db, flushed, a, p);
  }

  /** A batch is durable exactly if its log was synced after it or its memtable was flushed. */
  lemma PlacedIsDurableIff(size: Size, db: Db, flushed: set<Entry>, w: set<Entry>, s: Stage)
    requires Growing(size) && DbOk(size, db, flushed) && Placed(size, db.disk, flushed, w, s) && w != {}
    ensures w <= Durable(size, db, flushed) <==> s.covered || s.flushed
  {
    if !s.flushed {
      var l, p :| PlacedIn(size, db.disk, w, s, l, p);
      DbLogsOk(size, db, flushed);
      if s.covered { CoveredIsDurable(size, db, flushed, w, s, l, p); }
      if w <= Durable(size, db, flushed) { DurableIsCovered(size, db, flushed, w, s, l, p); }
    }
  }

  // ------------------------------------------------------------------ which commits are safe

  /** No crash from step `i` up to step `n`. */
  predicate NoCrash(events: seq<DbEvent>, i: nat, n: nat) {
    i <= n <= |events| && forall j :: i <= j < n ==> !events[j].Crash?
  }

  /** No switch to a new log from step `i` up to step `n`. */
  predicate NoSwitch(events: seq<DbEvent>, i: nat, n: nat) {
    i <= n <= |events| && forall j :: i <= j < n ==> !events[j].Switch?
  }

  /** Commit `i` or a later one in the same log was synced before step `n`. */
  predicate SyncedBy(events: seq<DbEvent>, i: nat, n: nat) {
    n <= |events| && exists j :: i <= j < n && events[j].Commit? && events[j].sync && NoSwitch(events, i, j)
  }

  predicate SwitchedBy(events: seq<DbEvent>, i: nat, n: nat) {
    n <= |events| && exists s :: i <= s < n && events[s].Switch?
  }

  /** The memtable that holds commit `i` was replaced and flushed before step `n`. */
  predicate FlushedBy(events: seq<DbEvent>, i: nat, n: nat) {
    n <= |events| && exists f :: i <= f < n && events[f].Flush? && SwitchedBy(events, i, f)
  }

  lemma {:induction false} StageMeans(events: seq<DbEvent>, i: nat, n: nat)
    requires i < n <= |events| && events[i].Commit?
    ensures StageAt(events, i, n) == Stage(SyncedBy(events, i, n), SwitchedBy(events, i, n), FlushedBy(events, i, n))
  {
    if n == i + 1 {
      assert NoSwitch(events, i, i);
    } else {
      var k := n - 1;
      StageMeans(events, i, k);
      assert SwitchedBy(events, i, n) <==> SwitchedBy(events, i, k) || events[k].Switch?;
      assert NoSwitch(events, i, k) <==> !SwitchedBy(events, i, k);
      assert SyncedBy(events, i, n) <==> SyncedBy(events, i, k) || (events[k].Commit? && events[k].sync && NoSwitch(events, i, k));
      assert FlushedBy(events, i, n) <==> FlushedBy(events, i, k) || (events[k].Flush? && SwitchedBy(events, i, k));
    }
  }

  ghost predicate PlacedAt(size: Size, states: seq<Db>, events: seq<DbEvent>, i: nat, n: nat)
    requires i < n <= |events| < |states| && events[i].Commit?
  {
    && states[n].Up?
    && Placed(size, states[n].disk, FlushedAt(size, states, events, n), WritesAt(states, events, i), StageAt(events, i, n))
  }

  lemma PlacedFirst(size: Size, states: seq<Db>, events: seq<DbEvent>, i: nat)
    requires Growing(size) && Run(size, states, events) && i < |events| && events[i].Commit?
    ensures PlacedAt(size, states, events, i, i + 1)
  {
    RunMoves(size, states, events, i);
    assert states[i] == Up(states[i].st, states[i].disk);
    JustCommitted(size, states[i].st, states[i].disk, events[i].ops, events[i].sync, states[i + 1], FlushedAt(size, states, events, i));
  }

  lemma PlacedNext(size: Size, states: seq<Db>, events: seq<DbEvent>, i: nat, n: nat)
    requires Growing(size) && Run(size, states, events) && i < n < |events| && events[i].Commit? && !events[n].Crash?
    requires PlacedAt(size, states, events, i, n)
    ensures PlacedAt(size, states, events, i, n + 1)
  {
    var w, s, flushed := WritesAt(states, events, i), StageAt(events, i, n), FlushedAt(size, states, events, n);
    RunMoves(size, states, events, n);
    PlacedMove(size, states[n], events[n], states[n + 1], flushed, w, s);
  }

  lemma PlacedMove(size: Size, db: Db, ev: DbEvent, after: Db, flushed: set<Entry>, w: set<Entry>, s: Stage)
    requires Growing(size) && SoundMove(size, db, ev, after, flushed) && db.Up? && !ev.Crash?
    requires Placed(size, db.disk, flushed, w, s)
    ensures after.Up? && Placed(size, after.disk, FlushedAfter(size, db, ev, flushed), w, StageAfter(s, ev))
  {
    StaysUp(size, db, ev, after);
    if s.flushed {
      assert flushed <= FlushedAfter(size, db, ev, flushed);
    } else {
      assert db == Up(db.st, db.disk);
      PlacedStep(size, db.st, db.disk, ev, after, flushed, w, s);
    }
  }

  /** Only a crash ends a running database, and only a recovery starts one. */
  lemma StaysUp(size: Size, db: Db, ev: DbEvent, after: Db)
    requires Moves(size, db, ev, after)
    ensures db.Up? && !ev.Crash? ==> after.Up?
    ensures ev.Crash? || (db.Down? && !ev.Recover?) ==> after.Down?
    ensures ev.Commit? ==> db.Up?
  {
  }

  lemma {:induction false} RunPlaces(size: Size, states: seq<Db>, events: seq<DbEvent>, i: nat, n: nat)
    requires Growing(size) && Run(size, states, events) && i < n && NoCrash(events, i, n) && events[i].Commit?
    ensures PlacedAt(size, states, events, i, n)
  {
    if n == i + 1 {
      PlacedFirst(size, states, events, i);
    } else {
      RunPlaces(size, states, events, i, n - 1);
      PlacedNext(size, states, events, i, n - 1);
    }
  }

  /** Exactly which commits no crash can take: those synced themselves or by a later commit to the same log, and those
      whose memtable has been flushed. */
  lemma SurvivesIff(size: Size, states: seq<Db>, events: seq<DbEvent>, i: nat, n: nat)
    requires Growing(size) && Run(size, states, events) && i < n && NoCrash(events, i, n)
    requires events[i].Commit? && WritesAt(states, events, i) != {}
    ensures SurvivesAnyCrash(size, states[n], FlushedAt(size, states, events, n), WritesAt(states, events, i)) <==>
              SyncedBy(events, i, n) || FlushedBy(events, i, n)
  {
    var w, flushed := WritesAt(states, events, i), FlushedAt(size, states, events, n);
    RunPlaces(size, states, events, i, n);
    RunIsSound(size, states, events, n);
    PlacedIsDurableIff(size, states[n], flushed, w, StageAt(events, i, n));
    SurvivesIffDurable(size, states[n], flushed, w);
    StageMeans(events, i, n);
  }

  // ------------------------------------------------------------------ which commits stay

  lemma {:induction false} KeptUntilCrash(size: Size, states: seq<Db>, events: seq<DbEvent>, i: nat, m: nat, n: nat)
    requires m <= n <= |events| < |states| && NoCrash(events, m, n) && i in KeptAt(size, states, events, m)
    ensures i in KeptAt(size, states, events, n)
  {
    if m < n { KeptUntilCrash(size, states, events, i, m, n - 1); }
  }

  lemma KeptIsHistory(size: Size, states: seq<Db>, events: seq<DbEvent>, i: nat, n: nat)
    requires Growing(size) && Run(size, states, events) && n <= |events| && i in KeptAt(size, states, events, n)
    ensures WritesAt(states, events, i) <= HistoryAt(size, states, events, n)
  {
    HistoryIsKept(size, states, events, n);
  }

  lemma RecoveredIsDurable(size: Size, states: seq<Db>, events: seq<DbEvent>, r: nat)
    requires Growing(size) && Run(size, states, events) && r < |events| && events[r].Recover?
    ensures HistoryAt(size, states, events, r) <= DurableAt(size, states, events, r + 1)
  {
    RunMoves(size, states, events, r);
  }

  /** What makes a commit safe by step `m`: it was synced, or one after it in the same log; its memtable was flushed; or it
      was there when the database was opened again. */
  ghost predicate SafeBy(size: Size, states: seq<Db>, events: seq<DbEvent>, i: nat, m: nat)
    requires i < m <= |events| < |states|
  {
    || (NoCrash(events, i, m) && (SyncedBy(events, i, m) || FlushedBy(events, i, m)))
    || (events[m - 1].Recover? && i in KeptAt(size, states, events, m - 1))
  }

  lemma SafeIsDurable(size: Size, states: seq<Db>, events: seq<DbEvent>, i: nat, m: nat)
    requires Growing(size) && Run(size, states, events) && i < m <= |events| && events[i].Commit?
    requires SafeBy(size, states, events, i, m)
    ensures KeptDurable(size, states, events, i, m)
  {
    if events[m - 1].Recover? && i in KeptAt(size, states, events, m - 1) {
      KeptIsHistory(size, states, events, i, m - 1);
      RecoveredIsDurable(size, states, events, m - 1);
    } else {
      assert i in KeptAt(size, states, events, i + 1);
      KeptUntilCrash(size, states, events, i, i + 1, m);
      if WritesAt(states, events, i) != {} { PlacedDurable(size, states, events, i, m); }
    }
  }

  lemma PlacedDurable(size: Size, states: seq<Db>, events: seq<DbEvent>, i: nat, m: nat)
    requires Growing(size) && Run(size, states, events) && i < m && NoCrash(events, i, m) && events[i].Commit?
    requires WritesAt(states, events, i) != {} && (SyncedBy(events, i, m) || FlushedBy(events, i, m))
    ensures WritesAt(states, events, i) <= DurableAt(size, states, events, m)
  {
    SurvivesIff(size, states, events, i, m);
    RunIsSound(size, states, events, m);
    SurvivesIffDurable(size, states[m], FlushedAt(size, states, events, m), WritesAt(states, events, i));
  }

  /** A commit is there as long as there is no crash, and once it is safe it is there whatever happens. */
  lemma StaysKept(size: Size, states: seq<Db>, events: seq<DbEvent>, i: nat, m: nat, n: nat)
    requires Growing(size) && Run(size, states, events) && i < m <= n <= |events| && events[i].Commit?
    requires NoCrash(events, i, n) || SafeBy(size, states, events, i, m)
    ensures i in KeptAt(size, states, events, n)
  {
    if SafeBy(size, states, events, i, m) {
      SafeIsDurable(size, states, events, i, m);
      KeptForGood(size, states, events, i, m, n);
    } else {
      assert i in KeptAt(size, states, events, i + 1);
      KeptUntilCrash(size, states, events, i, i + 1, n);
    }
  }

  // ------------------------------------------------------------------ the order within a log

  /** `w` and, after it, `v` survive in one live log. */
  ghost predicate Together(size: Size, disk: Disk, w: set<Entry>, v: set<Entry>) {
    exists l, p, q :: TogetherIn(size, disk, w, v, l, p, q)
  }

  ghost predicate TogetherIn(size: Size, disk: Disk, w: set<Entry>, v: set<Entry>, l: DiskLog, p: nat, q: nat) {
    Live(disk, l) && p < q < |Surviving(size, l)| && EntriesOf(l.batches[p]) == w && EntriesOf(l.batches[q]) == v
  }

  lemma TogetherIsLogged(size: Size, disk: Disk, w: set<Entry>, v: set<Entry>)
    requires Together(size, disk, w, v)
    ensures w <= Logged(size, disk)
  {
    var l, p: nat, q: nat :| TogetherIn(size, disk, w, v, l, p, q);
    SurvivorIsLogged(size, disk, l, l.batches[p]);
  }

  lemma TogetherCommit(size: Size, st: Store, disk: Disk, ops: seq<BatchOp>, sync: bool, after: Db, flushed: set<Entry>, w: set<Entry>, v: set<Entry>)
    requires Growing(size) && DbOk(size, Up(st, disk), flushed) && Committing(size, st, disk, ops, sync, after)
    requires Together(size, disk, w, v)
    ensures Together(size, after.disk, w, v)
  {
    var l, p: nat, q: nat :| TogetherIn(size, disk, w, v, l, p, q);
    var b := Batch(st.lastSequence + 1, ops);
    LastIsLive(size, st, disk, flushed);
    if l == LastLogOf(disk) {
      TogetherInLast(size, disk, b, sync, w, v, l, p, q);
    } else {
      TogetherInOlder(size, disk, b, sync, w, v, l, p, q);
    }
  }

  lemma TogetherInOlder(size: Size, disk: Disk, b: Batch, sync: bool, w: set<Entry>, v: set<Entry>, l: DiskLog, p: nat, q: nat)
    requires TogetherIn(size, disk, w, v, l, p, q) && l != LastLogOf(disk) && BatchesOk(LastLogOf(disk).batches + [b])
    ensures TogetherIn(size, CommittedDisk(size, disk, b, sync), w, v, l, p, q)
  {
    var a :| 0 <= a < |disk.logs| && disk.logs[a] == l;
    assert CommittedDisk(size, disk, b, sync).logs[a] == l;
  }

  lemma TogetherInLast(size: Size, disk: Disk, b: Batch, sync: bool, w: set<Entry>, v: set<Entry>, l: DiskLog, p: nat, q: nat)
    requires TogetherIn(size, disk, w, v, l, p, q) && l == LastLogOf(disk) && BatchesOk(l.batches + [b])
    ensures TogetherIn(size, CommittedDisk(size, disk, b, sync), w, v, Appended(size, l, b, sync), p, q)
  {
    var now := Appended(size, l, b, sync);
    WholeIsIntact(size, now.batches);
    assert CommittedDisk(size, disk, b, sync).logs[|disk.logs| - 1] == now;
  }

  lemma TogetherFlush(size: Size, st: Store, disk: Disk, flushed: set<Entry>, level: nat, bytes: nat, w: set<Entry>, v: set<Entry>)
    requires DbOk(size, Up(st, disk), flushed) && CanFlush(st, level, bytes) && Together(size, disk, w, v)
    ensures disk.logs != []
    ensures w <= Content(ImmRun(st)) || Together(size, FlushedDisk(st, disk, level, bytes), w, v)
  {
    LastIsLive(size, st, disk, flushed);
    var l, p: nat, q: nat :| TogetherIn(size, disk, w, v, l, p, q);
    if l == LastLogOf(disk) {
      assert TogetherIn(size, FlushedDisk(st, disk, level, bytes), w, v, l, p, q);
    } else {
      EarlierLogsAreImm(size, st, disk, flushed, l, p);
    }
  }

  lemma TogetherQuiet(size: Size, disk: Disk, later: Disk, w: set<Entry>, v: set<Entry>)
    requires Together(size, disk, w, v) && later.logNumber == disk.logNumber && forall l :: Live(disk, l) ==> l in later.logs
    ensures Together(size, later, w, v)
  {
    var l, p: nat, q: nat :| TogetherIn(size, disk, w, v, l, p, q);
    assert TogetherIn(size, later, w, v, l, p, q);
  }

  /** A crash that leaves the later of two batches of a log leaves the earlier. */
  lemma TogetherCrash(size: Size, db: Db, flushed: set<Entry>, cuts: seq<nat>, w: set<Entry>, v: set<Entry>)
    requires DbOk(size, db, flushed) && Cuttable(db.disk.logs, cuts) && Together(size, db.disk, w, v)
    requires v != {} && v <= History(size, AfterCrash(db, cuts), flushed)
    ensures Together(size, AfterCrash(db, cuts).disk, w, v)
  {
    var l, p: nat, q: nat :| TogetherIn(size, db.disk, w, v, l, p, q);
    var a :| 0 <= a < |db.disk.logs| && db.disk.logs[a] == l;
    var e :| e in v;
    SurvivorIsIntact(size, db, flushed, cuts, a, q, e);
    TogetherCut(size, db.disk, cuts, w, v, a, p, q);
  }

  lemma TogetherCut(size: Size, disk: Disk, cuts: seq<nat>, w: set<Entry>, v: set<Entry>, a: nat, p: nat, q: nat)
    requires Cuttable(disk.logs, cuts) && a < |disk.logs| && TogetherIn(size, disk, w, v, disk.logs[a], p, q)
    requires q < |Surviving(size, CutLogs(disk.logs, cuts)[a])|
    ensures Together(size, disk.(logs := CutLogs(disk.logs, cuts)), w, v)
  {
    assert TogetherIn(size, disk.(logs := CutLogs(disk.logs, cuts)), w, v, CutLogs(disk.logs, cuts)[a], p, q);
  }

  ghost predicate Behind(size: Size, disk: Disk, flushed: set<Entry>, w: set<Entry>, v: set<Entry>) {
    w <= flushed || Together(size, disk, w, v)
  }

  lemma TogetherMoves(size: Size, db: Db, ev: DbEvent, after: Db, flushed: set<Entry>, w: set<Entry>, v: set<Entry>)
    requires Growing(size) && DbOk(size, db, flushed) && Moves(size, db, ev, after) && Together(size, db.disk, w, v)
    requires ev.Commit? || ev.Flush?
    ensures w <= FlushedAfter(size, db, ev, flushed) || Together(size, after.disk, w, v)
  {
    assert db == Up(db.st, db.disk);
    if ev.Commit? {
      TogetherCommit(size, db.st, db.disk, ev.ops, ev.sync, after, flushed, w, v);
    } else {
      TogetherFlush(size, db.st, db.disk, flushed, ev.level, ev.bytes, w, v);
    }
  }

  lemma TogetherStep(size: Size, db: Db, ev: DbEvent, after: Db, flushed: set<Entry>, w: set<Entry>, v: set<Entry>)
    requires Growing(size) && DbOk(size, db, flushed) && Moves(size, db, ev, after) && Together(size, db.disk, w, v)
    requires ev.Crash? ==> v != {} && v <= History(size, after, flushed)
    ensures w <= FlushedAfter(size, db, ev, flushed) || Together(size, after.disk, w, v)
  {
    if ev.Commit? || ev.Flush? {
      TogetherMoves(size, db, ev, after, flushed, w, v);
    } else if ev.Crash? {
      TogetherCrash(size, db, flushed, ev.cuts, w, v);
    } else if ev.Recover? {
      TogetherIsLogged(size, db.disk, w, v);
    } else {
      QuietKeepsLive(size, db, ev, after, flushed);
      TogetherQuiet(size, db.disk, after.disk, w, v);
    }
  }

  lemma BehindStep(size: Size, db: Db, ev: DbEvent, after: Db, flushed: set<Entry>, w: set<Entry>, v: set<Entry>)
    requires Growing(size) && SoundMove(size, db, ev, after, flushed) && Behind(size, db.disk, flushed, w, v)
    requires ev.Crash? ==> v != {} && v <= History(size, after, flushed)
    ensures Behind(size, after.disk, FlushedAfter(size, db, ev, flushed), w, v)
    ensures w <= History(size, after, FlushedAfter(size, db, ev, flushed))
  {
    if w <= flushed {
      assert flushed <= FlushedAfter(size, db, ev, flushed);
    } else {
      TogetherStep(size, db, ev, after, flushed, w, v);
    }
    if Together(size, after.disk, w, v) { TogetherIsLogged(size, after.disk, w, v); }
  }

  lemma QuietKeepsLive(size: Size, db: Db, ev: DbEvent, after: Db, flushed: set<Entry>)
    requires DbOk(size, db, flushed) && Moves(size, db, ev, after) && !ev.Commit? && !ev.Flush? && !ev.Crash? && !ev.Recover?
    ensures after.disk.logNumber == db.disk.logNumber && forall l :: Live(db.disk, l) ==> l in after.disk.logs
  {
    if ev.DeleteLog? {
      assert db == Up(db.st, db.disk);
      LastIsLive(size, db.st, db.disk, flushed);
      DeletedLog(db.disk, ev.index);
    }
  }

  /** Two commits with no switch and no recovery in between go to one log. */
  predicate SameLog(events: seq<DbEvent>, i: nat, j: nat) {
    && i < j < |events| && events[i].Commit? && events[j].Commit?
    && forall k :: i < k < j ==> !events[k].Switch? && !events[k].Recover?
  }

  lemma RunUpDown(size: Size, states: seq<Db>, events: seq<DbEvent>, i: nat)
    requires Growing(size) && Run(size, states, events) && i < |events|
    ensures events[i].Crash? || (states[i].Down? && !events[i].Recover?) ==> states[i + 1].Down?
    ensures events[i].Commit? ==> states[i].Up?
  {
    RunMoves(size, states, events, i);
    StaysUp(size, states[i], events[i], states[i + 1]);
  }

  lemma {:induction false} DownStaysDown(size: Size, states: seq<Db>, events: seq<DbEvent>, c: nat, n: nat)
    requires Growing(size) && Run(size, states, events) && c < n <= |events| && events[c].Crash?
    requires forall k :: c < k < n ==> !events[k].Recover?
    ensures states[n].Down?
  {
    RunUpDown(size, states, events, n - 1);
    if c + 1 < n { DownStaysDown(size, states, events, c, n - 1); }
  }

  lemma SameLogIsUp(size: Size, states: seq<Db>, events: seq<DbEvent>, i: nat, j: nat)
    requires Growing(size) && Run(size, states, events) && SameLog(events, i, j)
    ensures NoCrash(events, i, j) && states[j].Up?
  {
    RunUpDown(size, states, events, j);
    forall c: nat | i <= c < j ensures !events[c].Crash? {
      if events[c].Crash? { DownStaysDown(size, states, events, c, j); }
    }
  }

  lemma TogetherAtEnd(size: Size, disk: Disk, b: Batch, sync: bool, w: set<Entry>, l: DiskLog, p: nat)
    requires Live(disk, l) && l == LastLogOf(disk) && p < |l.batches| && EntriesOf(l.batches[p]) == w && BatchesOk(l.batches + [b])
    ensures Together(size, CommittedDisk(size, disk, b, sync), w, EntriesOf(b))
  {
    var now, q := Appended(size, l, b, sync), |l.batches|;
    WholeIsIntact(size, now.batches);
    assert CommittedDisk(size, disk, b, sync).logs[|disk.logs| - 1] == now;
    assert TogetherIn(size, CommittedDisk(size, disk, b, sync), w, EntriesOf(b), now, p, q);
  }

  lemma SecondCommit(size: Size, st: Store, disk: Disk, ops: seq<BatchOp>, sync: bool, after: Db, w: set<Entry>, s: Stage, flushed: set<Entry>)
    requires Committing(size, st, disk, ops, sync, after)
    requires Placed(size, disk, flushed, w, s) && !s.switched && !s.flushed
    ensures st.lastSequence + |ops| < MAX_SEQUENCE
    ensures Together(size, after.disk, w, WrittenBy(st, OpsOf(ops)))
  {
    EntriesAreWritten(st, ops);
    var l, p :| PlacedIn(size, disk, w, s, l, p);
    TogetherAtEnd(size, disk, Batch(st.lastSequence + 1, ops), sync, w, l, p);
  }

  lemma SecondMove(size: Size, db: Db, ev: DbEvent, after: Db, flushed: set<Entry>, w: set<Entry>, s: Stage)
    requires Next(size, db, ev, after) && ev.Commit? && Placed(size, db.disk, flushed, w, s) && !s.switched && !s.flushed
    ensures Behind(size, after.disk, FlushedAfter(size, db, ev, flushed), w, WrittenAt(db, ev))
  {
    SecondCommit(size, db.st, db.disk, ev.ops, ev.sync, after, w, s, flushed);
  }

  ghost predicate BehindAt(size: Size, states: seq<Db>, events: seq<DbEvent>, i: nat, j: nat, n: nat)
    requires i < |events| && j < |events| && n <= |events| < |states|
  {
    Behind(size, states[n].disk, FlushedAt(size, states, events, n), WritesAt(states, events, i), WritesAt(states, events, j))
  }

  lemma FirstInPlace(size: Size, states: seq<Db>, events: seq<DbEvent>, i: nat, j: nat)
    requires Growing(size) && Run(size, states, events) && SameLog(events, i, j)
    ensures PlacedAt(size, states, events, i, j) && !StageAt(events, i, j).switched && !StageAt(events, i, j).flushed
  {
    SameLogIsUp(size, states, events, i, j);
    RunPlaces(size, states, events, i, j);
    StageMeans(events, i, j);
  }

  lemma BehindFirst(size: Size, states: seq<Db>, events: seq<DbEvent>, i: nat, j: nat)
    requires Growing(size) && Run(size, states, events) && SameLog(events, i, j)
    ensures BehindAt(size, states, events, i, j, j + 1)
  {
    var w, s, flushed := WritesAt(states, events, i), StageAt(events, i, j), FlushedAt(size, states, events, j);
    FirstInPlace(size, states, events, i, j);
    RunMoves(size, states, events, j);
    SecondMove(size, states[j], events[j], states[j + 1], flushed, w, s);
  }

  /** Commits of one log are lost from its end: while a later one is there, so is the earlier. */
  lemma {:induction false} PrefixKept(size: Size, states: seq<Db>, events: seq<DbEvent>, i: nat, j: nat, n: nat)
    requires Growing(size) && Run(size, states, events) && SameLog(events, i, j) && j < n <= |events|
    requires WritesAt(states, events, j) != {} && j in KeptAt(size, states, events, n)
    ensures i in KeptAt(size, states, events, n) && BehindAt(size, states, events, i, j, n)
  {
    if n == j + 1 {
      SameLogIsUp(size, states, events, i, j);
      assert i in KeptAt(size, states, events, i + 1);
      KeptUntilCrash(size, states, events, i, i + 1, j + 1);
      BehindFirst(size, states, events, i, j);
    } else {
      PrefixKept(size, states, events, i, j, n - 1);
      BehindNext(size, states, events, i, j, n - 1);
    }
  }

  lemma BehindNext(size: Size, states: seq<Db>, events: seq<DbEvent>, i: nat, j: nat, n: nat)
    requires Growing(size) && Run(size, states, events) && i < |events| && j < |events| && n < |events|
    requires BehindAt(size, states, events, i, j, n) && i in KeptAt(size, states, events, n)
    requires WritesAt(states, events, j) != {} && j in KeptAt(size, states, events, n + 1)
    ensures BehindAt(size, states, events, i, j, n + 1) && i in KeptAt(size, states, events, n + 1)
  {
    KeptIsHistory(size, states, events, j, n + 1);
    BehindNow(size, states, events, i, j, n);
  }

  lemma BehindNow(size: Size, states: seq<Db>, events: seq<DbEvent>, i: nat, j: nat, n: nat)
    requires Growing(size) && Run(size, states, events) && i < |events| && j < |events| && n < |events|
    requires BehindAt(size, states, events, i, j, n) && WritesAt(states, events, j) != {}
    requires WritesAt(states, events, j) <= HistoryAt(size, states, events, n + 1)
    ensures BehindAt(size, states, events, i, j, n + 1)
    ensures WritesAt(states, events, i) <= HistoryAt(size, states, events, n + 1)
  {
    var w, v, flushed := WritesAt(states, events, i), WritesAt(states, events, j), FlushedAt(size, states, events, n);
    RunMoves(size, states, events, n);
    BehindStep(size, states[n], events[n], states[n + 1], flushed, w, v);
  }

  // ------------------------------------------------------------------ a sync does not reach back over a switch

  lemma Extends(size: Size, states: seq<Db>, events: seq<DbEvent>, ev: DbEvent, after: Db)
    requires Run(size, states, events) && Next(size, states[|events|], ev, after)
    ensures Run(size, states + [after], events + [ev])
  {
    forall i: nat | i < |events| + 1 ensures StepAt(size, states + [after], events + [ev], i) {
      if i < |events| { assert StepAt(size, states, events, i); }
    }
  }

  lemma {:induction false} FlushedBefore(size: Size, states: seq<Db>, events: seq<DbEvent>, ev: DbEvent, after: Db, n: nat)
    requires n <= |events| < |states|
    ensures FlushedAt(size, states + [after], events + [ev], n) == FlushedAt(size, states, events, n)
  {
    if n > 0 { FlushedBefore(size, states, events, ev, after, n - 1); }
  }

  lemma CommitMoves(size: Size, st: Store, disk: Disk, flushed: set<Entry>, ops: seq<BatchOp>, sync: bool) returns (after: Db)
    requires Growing(size) && DbOk(size, Up(st, disk), flushed) && OpsFit(ops) && st.lastSequence + |ops| < MAX_SEQUENCE
    ensures Next(size, Up(st, disk), Commit(ops, sync), after) && after.Up? && after.st == AfterWrite(st, OpsOf(ops))
  {
    CommitAdds(size, st, disk, ops, sync, flushed);
    var b := Batch(st.lastSequence + 1, ops);
    after := Up(AfterWrite(st, OpsOf(ops)), CommittedDisk(size, disk, b, sync));
    assert Committing(size, st, disk, ops, sync, after);
    assert Moves(size, Up(st, disk), Commit(ops, sync), after);
  }

  /** A running database can always commit. */
  lemma CommitExtends(size: Size, states: seq<Db>, events: seq<DbEvent>, ops: seq<BatchOp>, sync: bool) returns (after: Db)
    requires Growing(size) && Run(size, states, events) && states[|events|].Up? && OpsFit(ops)
    requires states[|events|].st.lastSequence + |ops| < MAX_SEQUENCE
    ensures Run(size, states + [after], events + [Commit(ops, sync)])
    ensures after.Up? && after.st == AfterWrite(states[|events|].st, OpsOf(ops))
  {
    var db, flushed := states[|events|], FlushedAt(size, states, events, |events|);
    RunIsSound(size, states, events, |events|);
    assert db == Up(db.st, db.disk);
    after := CommitMoves(size, db.st, db.disk, flushed, ops, sync);
    Extends(size, states, events, Commit(ops, sync), after);
  }

  /** A commit without a sync, a switch to a new log, a commit with a sync. */
  lemma SwitchBetween(size: Size, states: seq<Db>, events: seq<DbEvent>, a: seq<BatchOp>, b: seq<BatchOp>)
    returns (run: seq<Db>)
    requires Growing(size) && Run(size, states, events) && states[|events|].Up? && states[|events|].st.imm == None
    requires OpsFit(a) && OpsFit(b) && states[|events|].st.lastSequence + |a| + |b| < MAX_SEQUENCE
    ensures Run(size, run, events + [Commit(a, false)] + [Switch] + [Commit(b, true)])
    ensures run[|events|] == states[|events|]
  {
    var first := CommitExtends(size, states, events, a, false);
    var one, so := states + [first], events + [Commit(a, false)];
    var second := Up(SwitchedStore(first.st), SwitchedDisk(first.st, first.disk));
    assert Moves(size, first, Switch, second);
    Extends(size, one, so, Switch, second);
    var third := CommitExtends(size, one + [second], so + [Switch], b, true);
    run := one + [second] + [third];
  }

  /** The old log is not synced when a new one is started: from any running database without an immutable memtable, a
      commit may be lost although a later one that was synced is kept. */
  lemma SyncIsNoBarrier(size: Size, states: seq<Db>, events: seq<DbEvent>, a: seq<BatchOp>, b: seq<BatchOp>)
    returns (run: seq<Db>, cuts: seq<nat>)
    requires Growing(size) && Run(size, states, events) && states[|events|].Up? && states[|events|].st.imm == None
    requires OpsFit(a) && OpsFit(b) && a != [] && states[|events|].st.lastSequence + |a| + |b| < MAX_SEQUENCE
    ensures var n, all := |events|, events + [Commit(a, false)] + [Switch] + [Commit(b, true)] + [Crash(cuts)];
            && Run(size, run, all)
            && n !in KeptAt(size, run, all, n + 4) && n + 2 in KeptAt(size, run, all, n + 4)
  {
    var n, three := |events|, events + [Commit(a, false)] + [Switch] + [Commit(b, true)];
    var before := SwitchBetween(size, states, events, a, b);
    WritesSomething(states[n], a);
    SurvivesIff(size, before, three, n, n + 3);
    assert !NoSwitch(three, n, n + 2) by { assert three[n + 1].Switch?; }
    assert !SyncedBy(three, n, n + 3) && !FlushedBy(three, n, n + 3);
    var flushed, w := FlushedAt(size, before, three, n + 3), WritesAt(before, three, n);
    cuts :| Cuttable(before[n + 3].disk.logs, cuts) && !(w <= History(size, AfterCrash(before[n + 3], cuts), flushed));
    var after := AfterCrash(before[n + 3], cuts);
    run := before + [after];
    assert Moves(size, before[n + 3], Crash(cuts), after);
    Extends(size, before, three, Crash(cuts), after);
    FlushedBefore(size, before, three, Crash(cuts), after, n + 3);
    var all := three + [Crash(cuts)];
    assert SafeBy(size, run, all, n + 2, n + 3) by { assert all[n + 2].sync && NoSwitch(all, n + 2, n + 2); }
    StaysKept(size, run, all, n + 2, n + 3, n + 4);
  }

  lemma WritesSomething(db: Db, ops: seq<BatchOp>)
    requires db.Up? && ops != [] && db.st.lastSequence + |ops| < MAX_SEQUENCE
    ensures WrittenAt(db, Commit(ops, false)) != {}
  {
    var batch := BatchEntries(OpsOf(ops), db.st.lastSequence + 1);
    assert batch[0] in Content(batch);
  }

  lemma FirstRecovery(size: Size, st: Store, disk: Disk)
    requires st == EmptyStore(4) && disk == Disk(EMPTY_LEVELS, 0, 4, 3, [EmptyLog(3)])
    ensures Recovered(size, FRESH_DISK, st, disk)
  {
    EmptyLevels();
    NoFilesOk(EMPTY_LEVELS);
    assert SurvivingIn(size, []) == [];
    assert [] + [EmptyLog(3)] == [EmptyLog(3)];
  }

  /** Opening an empty directory gives such a database. */
  lemma FirstOpen(size: Size) returns (states: seq<Db>, events: seq<DbEvent>)
    requires Growing(size)
    ensures Run(size, states, events) && states[|events|].Up? && states[|events|].st == EmptyStore(4)
  {
    var st, disk := EmptyStore(4), Disk(EMPTY_LEVELS, 0, 4, 3, [EmptyLog(3)]);
    var ev, after := Recover(st, disk), Up(st, disk);
    FirstRecovery(size, st, disk);
    assert Moves(size, Down(FRESH_DISK), ev, after);
    Extends(size, [Down(FRESH_DISK)], [], ev, after);
    states, events := [Down(FRESH_DISK)] + [after], [] + [ev];
  }
}
