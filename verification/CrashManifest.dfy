/** The manifest of a database that crashes and recovers: the edits logged since it was last opened, replayed in one
    builder, are the levels on disk (db/version_set.cc, db/db_impl.cc). */
module CrashManifest {
  import opened Durability
  import opened Keys
  import opened LsmStore
  import opened Manifest
  import opened Recovery
  import opened Version

  /** What a step of the database appends to the manifest. */
  ghost function EditAt(db: Db, ev: DbEvent): seq<Edit> {
    if db.Up? && ev.Flush? then [EditOf(db.st, FlushMemtable(ev.level, ev.bytes))]
    else if db.Up? && ev.Rearrange? then [EditOf(db.st, ev.change)]
    else []
  }

  /** The manifest after `n` steps. A new database starts with an edit that changes no file; opening the database starts a
      new manifest with a snapshot of the recovered version. */
  ghost function ManifestAt(states: seq<Db>, events: seq<DbEvent>, n: nat): seq<Edit>
    requires n <= |events| < |states|
  {
    if n == 0 then [NO_CHANGE] else ManifestAfter(ManifestAt(states, events, n - 1), states[n - 1], events[n - 1], states[n])
  }

  ghost function ManifestAfter(edits: seq<Edit>, db: Db, ev: DbEvent, after: Db): seq<Edit> {
    if ev.Recover? then [Snapshot(after.disk.levels)] else edits + EditAt(db, ev)
  }

  ghost predicate Describes(edits: seq<Edit>, db: Db) {
    && Replayed(EMPTY_LEVELS, edits) == db.disk.levels
    && (db.Up? ==> ManifestOk(edits, db.st))
  }

  lemma UpFacts(size: Size, st: Store, disk: Disk, flushed: set<Entry>)
    requires DbOk(size, Up(st, disk), flushed)
    ensures st.levels == disk.levels && StoreOk(st, flushed + Logged(size, disk))
  {
    UpIsSound(size, st, disk, flushed);
    var mark :| DbOkAt(size, Up(st, disk), flushed, mark);
    FilesFlushed(st, disk, flushed, mark);
  }

  lemma ManifestStays(edits: seq<Edit>, st: Store, after: Store)
    requires ManifestOk(edits, st) && after.levels == st.levels && st.nextFile <= after.nextFile
    ensures ManifestOk(edits + [], after)
  {
    assert edits + [] == edits;
    forall l, n | 0 <= l < NUM_LEVELS && n in Held(EMPTY_LEVELS[l], edits, l) ensures HeldOk(after, l, n) {
      assert HeldOk(st, l, n);
    }
  }

  lemma ChangeStep(size: Size, st: Store, disk: Disk, flushed: set<Entry>, change: Event, edits: seq<Edit>)
    requires DbOk(size, Up(st, disk), flushed) && Enabled(st, change) && ManifestOk(edits, st)
    ensures ManifestOk(edits + [EditOf(st, change)], Apply(st, change))
  {
    UpFacts(size, st, disk, flushed);
    ManifestStep(st, flushed + Logged(size, disk), change, edits);
  }

  /** A step that logs no edit leaves the levels alone and takes no number back. */
  lemma OtherStep(size: Size, st: Store, disk: Disk, ev: DbEvent, after: Db)
    requires Moves(size, Up(st, disk), ev, after) && after.Up? && !ev.Flush? && !ev.Rearrange?
    ensures after.st.levels == st.levels && st.nextFile <= after.st.nextFile
  {
  }

  /** A step of the running database. */
  lemma UpStep(size: Size, st: Store, disk: Disk, flushed: set<Entry>, ev: DbEvent, after: Db, edits: seq<Edit>)
    requires DbOk(size, Up(st, disk), flushed) && Moves(size, Up(st, disk), ev, after) && ManifestOk(edits, st) && after.Up?
    ensures ManifestOk(edits + EditAt(Up(st, disk), ev), after.st)
  {
    if ev.Flush? {
      ChangeStep(size, st, disk, flushed, FlushMemtable(ev.level, ev.bytes), edits);
    } else if ev.Rearrange? {
      ChangeStep(size, st, disk, flushed, ev.change, edits);
    } else {
      OtherStep(size, st, disk, ev, after);
      ManifestStays(edits, st, after.st);
    }
  }

  lemma DescribedStep(size: Size, db: Db, flushed: set<Entry>, ev: DbEvent, after: Db, later: set<Entry>, edits: seq<Edit>)
    requires DbOk(size, db, flushed) && DbOk(size, after, later) && Moves(size, db, ev, after) && Describes(edits, db)
    ensures Describes(ManifestAfter(edits, db, ev, after), after)
  {
    if after.Up? {
      assert after == Up(after.st, after.disk);
      UpFacts(size, after.st, after.disk, later);
      if ev.Recover? {
        SnapshotOk(after.st, later + Logged(size, after.disk));
      } else {
        assert db == Up(db.st, db.disk);
        UpStep(size, db.st, db.disk, flushed, ev, after, edits);
      }
    } else {
      assert edits + EditAt(db, ev) == edits;
    }
  }

  lemma NothingReplayed()
    ensures Replayed(EMPTY_LEVELS, [NO_CHANGE]) == EMPTY_LEVELS
  {
    forall l | 0 <= l < NUM_LEVELS ensures Replayed(EMPTY_LEVELS, [NO_CHANGE])[l] == EMPTY_LEVELS[l] {
      assert Built([NO_CHANGE], l) == UNTOUCHED;
      NoEdits(EMPTY_LEVELS[l]);
    }
  }

  ghost predicate Sane(size: Size, db: Db) {
    exists flushed :: DbOk(size, db, flushed)
  }

  ghost predicate SaneStep(size: Size, db: Db, ev: DbEvent, after: Db) {
    Sane(size, db) && Sane(size, after) && Moves(size, db, ev, after)
  }

  lemma RunIsSane(size: Size, states: seq<Db>, events: seq<DbEvent>, n: nat)
    requires Growing(size) && Run(size, states, events) && n <= |events|
    ensures Sane(size, states[n])
  {
    RunIsSound(size, states, events, n);
  }

  lemma RunStepIsSane(size: Size, states: seq<Db>, events: seq<DbEvent>, i: nat)
    requires Growing(size) && Run(size, states, events) && i < |events|
    ensures SaneStep(size, states[i], events[i], states[i + 1])
  {
    RunIsSane(size, states, events, i);
    RunIsSane(size, states, events, i + 1);
    assert StepAt(size, states, events, i);
  }

  lemma SaneStepDescribed(size: Size, edits: seq<Edit>, db: Db, ev: DbEvent, after: Db)
    requires SaneStep(size, db, ev, after) && Describes(edits, db)
    ensures Describes(ManifestAfter(edits, db, ev, after), after)
  {
    var flushed :| DbOk(size, db, flushed);
    var later :| DbOk(size, after, later);
    DescribedStep(size, db, flushed, ev, after, later, edits);
  }

  /** Induction over a run, for anything that holds of the manifest and the database and that every step keeps. */
  lemma {:induction false} ManifestInduction(inv: (seq<Edit>, Db) -> bool, next: Relation, states: seq<Db>, events: seq<DbEvent>, n: nat)
    requires Stepwise(next, states, events) && n <= |events| && inv([NO_CHANGE], states[0])
    requires forall edits, db, ev, after :: inv(edits, db) && next(db, ev, after) ==> inv(ManifestAfter(edits, db, ev, after), after)
    ensures inv(ManifestAt(states, events, n), states[n])
  {
    if n > 0 {
      ManifestInduction(inv, next, states, events, n - 1);
      assert next(states[n - 1], events[n - 1], states[n - 1 + 1]);
    }
  }

  lemma RunIsDescribed(size: Size, states: seq<Db>, events: seq<DbEvent>, n: nat)
    requires Growing(size) && Run(size, states, events) && n <= |events|
    ensures Describes(ManifestAt(states, events, n), states[n])
  {
    var inv: (seq<Edit>, Db) -> bool := (edits, db) => Describes(edits, db);
    var next: Relation := (db, ev, after) => SaneStep(size, db, ev, after);
    forall i {:trigger events[i]} | 0 <= i < |events| ensures next(states[i], events[i], states[i + 1]) {
      RunStepIsSane(size, states, events, i);
    }
    forall edits, db, ev, after | inv(edits, db) && next(db, ev, after) ensures inv(ManifestAfter(edits, db, ev, after), after) {
      SaneStepDescribed(size, edits, db, ev, after);
    }
    NothingReplayed();
    ManifestInduction(inv, next, states, events, n);
  }

  /** In every state of every run, up or down, replaying the manifest rebuilds exactly the levels on disk, and doing it in
      one builder is doing it one version at a time. */
  lemma ManifestRebuildsLevels(size: Size, states: seq<Db>, events: seq<DbEvent>, n: nat)
    requires Growing(size) && Run(size, states, events) && n <= |events|
    ensures Replayed(EMPTY_LEVELS, ManifestAt(states, events, n)) == states[n].disk.levels
    ensures states[n].Up? ==> OneByOne(EMPTY_LEVELS, ManifestAt(states, events, n)) == states[n].disk.levels
  {
    RunIsDescribed(size, states, events, n);
    if states[n].Up? {
      EmptyInOrder();
      ReplayIsStepwise(EMPTY_LEVELS, ManifestAt(states, events, n));
    }
  }
}
