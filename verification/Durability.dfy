/** What commits are worth over whole runs: which of them a database still stands for after any number of crashes and
    recoveries, and which of them no crash can take (db/db_impl.cc). */
module Durability {
  import opened Batches
  import opened Keys
  import opened LsmStore
  import opened Recovery

  // ------------------------------------------------------------------ runs

  const FRESH_DISK := Disk(EMPTY_LEVELS, 0, 2, 0, [])

  ghost predicate StepAt(size: Size, states: seq<Db>, events: seq<DbEvent>, i: nat) {
    i < |events| < |states| && Next(size, states[i], events[i], states[i + 1])
  }

  /** A run from an empty directory. */
  ghost predicate Run(size: Size, states: seq<Db>, events: seq<DbEvent>) {
    && |states| == |events| + 1 && states[0] == Down(FRESH_DISK)
    && forall i: nat {:trigger StepAt(size, states, events, i)} :: i < |events| ==> StepAt(size, states, events, i)
  }

  /** Everything handed to tables in the first `n` steps. */
  ghost function FlushedAt(size: Size, states: seq<Db>, events: seq<DbEvent>, n: nat): set<Entry>
    requires n <= |events| < |states|
  {
    if n == 0 then {} else FlushedAfter(size, states[n - 1], events[n - 1], FlushedAt(size, states, events, n - 1))
  }

  /** Everything the database stands for after `n` steps. */
  ghost function HistoryAt(size: Size, states: seq<Db>, events: seq<DbEvent>, n: nat): set<Entry>
    requires n <= |events| < |states|
  {
    History(size, states[n], FlushedAt(size, states, events, n))
  }

  /** The part of it no crash can take. */
  ghost function DurableAt(size: Size, states: seq<Db>, events: seq<DbEvent>, n: nat): set<Entry>
    requires n <= |events| < |states|
  {
    Durable(size, states[n], FlushedAt(size, states, events, n))
  }

  /** What step `i` writes. */
  ghost function WritesAt(states: seq<Db>, events: seq<DbEvent>, i: nat): set<Entry>
    requires i < |events| < |states|
  {
    WrittenAt(states[i], events[i])
  }

  /** The commits that are there after `n` steps. A commit is there until a crash takes any entry of it, and once gone it
      does not come back. */
  ghost function KeptAt(size: Size, states: seq<Db>, events: seq<DbEvent>, n: nat): (kept: set<nat>)
    requires n <= |events| < |states|
    ensures forall i :: i in kept ==> i < n && events[i].Commit?
  {
    if n == 0 then {}
    else
      var before := KeptAt(size, states, events, n - 1);
      if events[n - 1].Crash? then set i | i in before && WritesAt(states, events, i) <= HistoryAt(size, states, events, n)
      else if events[n - 1].Commit? then before + {n - 1}
      else before
  }

  /** The entries of some commits of a run. */
  ghost function WritesOf(states: seq<Db>, events: seq<DbEvent>, kept: set<nat>): set<Entry>
    requires forall i :: i in kept ==> i < |events| < |states|
  {
    set i, e | i in kept && e in WritesAt(states, events, i) :: e
  }

  /** Some commits of a run, each with the entries it wrote. */
  ghost function BatchesOf(states: seq<Db>, events: seq<DbEvent>, kept: set<nat>): set<set<Entry>>
    requires forall i :: i in kept ==> i < |events| < |states|
  {
    set i | i in kept :: WritesAt(states, events, i)
  }

  // ------------------------------------------------------------------ whole batches

  /** `s` is made of whole batches. */
  ghost predicate Whole(s: set<Entry>, batches: set<set<Entry>>) {
    forall e :: e in s ==> exists w :: w in batches && e in w && w <= s
  }

  /** `l` is one of the logs recovery reads. */
  predicate Live(disk: Disk, l: DiskLog) {
    l in disk.logs && disk.logNumber <= l.number
  }

  /** Whatever survives in a live log is one of `batches`. */
  ghost predicate Tagged(size: Size, disk: Disk, batches: set<set<Entry>>) {
    forall l, b :: Live(disk, l) && b in Surviving(size, l) ==> EntriesOf(b) in batches
  }

  ghost predicate Within(batches: set<set<Entry>>, s: set<Entry>) {
    forall w :: w in batches ==> w <= s
  }

  lemma WholeUnion(a: set<Entry>, b: set<Entry>, batches: set<set<Entry>>)
    requires Whole(a, batches) && Whole(b, batches)
    ensures Whole(a + b, batches)
  {
    forall e | e in a + b ensures exists w :: w in batches && e in w && w <= a + b {
      var side := if e in a then a else b;
      var w :| w in batches && e in w && w <= side;
      assert w <= a + b;
    }
  }

  lemma WholeBatches(log: seq<Batch>, batches: set<set<Entry>>)
    requires forall b :: b in log ==> EntriesOf(b) in batches
    ensures Whole(EntriesIn(log), batches)
  {
    forall e | e in EntriesIn(log) ensures exists w :: w in batches && e in w && w <= EntriesIn(log) {
      var b :| b in log && e in EntriesOf(b);
      assert EntriesOf(b) <= EntriesIn(log);
    }
  }

  lemma {:induction false} WholeViews(lo: nat, views: seq<View>, batches: set<set<Entry>>)
    requires forall i, b :: 0 <= i < |views| && lo <= views[i].number && b in views[i].batches ==> EntriesOf(b) in batches
    ensures Whole(ViewEntries(lo, views), batches)
  {
    if views != [] {
      var n := |views| - 1;
      WholeViews(lo, views[..n], batches);
      if lo <= views[n].number { WholeBatches(views[n].batches, batches); }
      WholeUnion(ViewEntries(lo, views[..n]), if lo <= views[n].number then EntriesIn(views[n].batches) else {}, batches);
    }
  }

  /** What survives in the logs is made of whole batches: a torn batch is not there at all. */
  lemma LoggedIsWhole(size: Size, disk: Disk, batches: set<set<Entry>>)
    requires Tagged(size, disk, batches)
    ensures Whole(Logged(size, disk), batches)
  {
    var views := SurvivingIn(size, disk.logs);
    forall i, b | 0 <= i < |views| && disk.logNumber <= views[i].number && b in views[i].batches ensures EntriesOf(b) in batches {
      assert Live(disk, disk.logs[i]);
    }
    WholeViews(disk.logNumber, views, batches);
  }

  lemma ImmIsWhole(size: Size, st: Store, disk: Disk, flushed: set<Entry>, batches: set<set<Entry>>)
    requires DbOk(size, Up(st, disk), flushed) && Tagged(size, disk, batches)
    ensures Whole(Content(ImmRun(st)), batches)
  {
    var mark :| DbOkAt(size, Up(st, disk), flushed, mark);
    WholeBeforeLast(size, disk, batches);
  }

  lemma WholeBeforeLast(size: Size, disk: Disk, batches: set<set<Entry>>)
    requires AllOk(size, disk.logs) && Uncut(size, disk.logNumber, disk.logs) && Tagged(size, disk, batches) && disk.logs != []
    ensures Whole(ViewEntries(disk.logNumber, WrittenTo(disk.logs)[..|disk.logs| - 1]), batches)
  {
    var views := WrittenTo(disk.logs)[..|disk.logs| - 1];
    forall i, b | 0 <= i < |views| && disk.logNumber <= views[i].number && b in views[i].batches ensures EntriesOf(b) in batches {
      assert Live(disk, disk.logs[i]);
      FullLogSurvives(size, disk.logs[i]);
    }
    WholeViews(disk.logNumber, views, batches);
  }

  lemma WholeMore(s: set<Entry>, batches: set<set<Entry>>, more: set<set<Entry>>)
    requires Whole(s, batches)
    ensures Whole(s, batches + more)
  {
    forall e | e in s ensures exists w :: w in batches + more && e in w && w <= s {
      var w :| w in batches && e in w && w <= s;
      assert w in batches + more;
    }
  }

  lemma {:induction false} InViews(lo: nat, views: seq<View>, a: nat, b: Batch)
    requires a < |views| && lo <= views[a].number && b in views[a].batches
    ensures EntriesOf(b) <= ViewEntries(lo, views)
  {
    var n := |views| - 1;
    if a == n {
      assert EntriesOf(b) <= EntriesIn(views[n].batches);
    } else {
      InViews(lo, views[..n], a, b);
    }
  }

  /** A batch that survives in a live log is there. */
  lemma SurvivorIsLogged(size: Size, disk: Disk, l: DiskLog, b: Batch)
    requires Live(disk, l) && b in Surviving(size, l)
    ensures EntriesOf(b) <= Logged(size, disk)
  {
    var a :| 0 <= a < |disk.logs| && disk.logs[a] == l;
    InViews(disk.logNumber, SurvivingIn(size, disk.logs), a, b);
  }

  // ------------------------------------------------------------------ the batches of one step

  ghost function BatchAt(db: Db, ev: DbEvent): set<set<Entry>> {
    if ev.Commit? then {WrittenAt(db, ev)} else {}
  }

  lemma UncutLive(size: Size, st: Store, disk: Disk, flushed: set<Entry>, l: DiskLog)
    requires DbOk(size, Up(st, disk), flushed) && Live(disk, l)
    ensures LogOk(size, l) && Surviving(size, l) == l.batches
  {
    var mark :| DbOkAt(size, Up(st, disk), flushed, mark);
    FullLogSurvives(size, l);
  }

  /** The log being written is live. */
  lemma LastIsLive(size: Size, st: Store, disk: Disk, flushed: set<Entry>)
    requires DbOk(size, Up(st, disk), flushed)
    ensures disk.logs != [] && Live(disk, LastLogOf(disk))
    ensures forall l :: l in disk.logs ==> l == LastLogOf(disk) || l.number < LastLogOf(disk).number < st.nextFile
  {
    var mark :| DbOkAt(size, Up(st, disk), flushed, mark);
  }

  lemma AppendedTags(size: Size, disk: Disk, b: Batch, sync: bool, batches: set<set<Entry>>)
    requires Tagged(size, disk, batches) && disk.logs != [] && Live(disk, LastLogOf(disk))
    requires Surviving(size, LastLogOf(disk)) == LastLogOf(disk).batches && BatchesOk(LastLogOf(disk).batches + [b])
    ensures Tagged(size, CommittedDisk(size, disk, b, sync), batches + {EntriesOf(b)})
  {
    var last, later := LastLogOf(disk), CommittedDisk(size, disk, b, sync);
    forall l, c | Live(later, l) && c in Surviving(size, l) ensures EntriesOf(c) in batches + {EntriesOf(b)} {
      if l == Appended(size, last, b, sync) {
        assert c in last.batches || c == b;
      } else {
        assert Live(disk, l);
      }
    }
  }

  lemma CommitTags(size: Size, st: Store, disk: Disk, ops: seq<BatchOp>, sync: bool, after: Db, flushed: set<Entry>, batches: set<set<Entry>>)
    requires DbOk(size, Up(st, disk), flushed)
    requires Tagged(size, disk, batches) && Committing(size, st, disk, ops, sync, after)
    ensures st.lastSequence + |ops| < MAX_SEQUENCE && Tagged(size, after.disk, batches + {WrittenBy(st, OpsOf(ops))})
  {
    EntriesAreWritten(st, ops);
    LastIsLive(size, st, disk, flushed);
    UncutLive(size, st, disk, flushed, LastLogOf(disk));
    AppendedTags(size, disk, Batch(st.lastSequence + 1, ops), sync, batches);
  }

  /** A step other than a crash lets no batch survive that it did not commit. */
  lemma TagsKept(size: Size, db: Db, ev: DbEvent, after: Db, flushed: set<Entry>, batches: set<set<Entry>>)
    requires Growing(size) && DbOk(size, db, flushed) && Tagged(size, db.disk, batches) && Moves(size, db, ev, after) && !ev.Crash?
    ensures Tagged(size, after.disk, batches + BatchAt(db, ev))
  {
    if ev.Commit? {
      assert db == Up(db.st, db.disk);
      CommitTags(size, db.st, db.disk, ev.ops, ev.sync, after, flushed, batches);
    } else {
      forall l, b | Live(after.disk, l) && b in Surviving(size, l) ensures EntriesOf(b) in batches + BatchAt(db, ev) {
        StillLive(size, db, ev, after, flushed, l, b);
      }
    }
  }

  /** No other step makes a batch survive. */
  lemma StillLive(size: Size, db: Db, ev: DbEvent, after: Db, flushed: set<Entry>, l: DiskLog, b: Batch)
    requires DbOk(size, db, flushed) && Moves(size, db, ev, after) && !ev.Crash? && !ev.Commit?
    requires Live(after.disk, l) && b in Surviving(size, l)
    ensures Live(db.disk, l)
  {
    assert l.batches != [];
    if ev.Flush? {
      assert db == Up(db.st, db.disk);
      LastIsLive(size, db.st, db.disk, flushed);
    }
    if ev.DeleteLog? { WithoutElements(db.disk.logs, ev.index); }
  }

  lemma CrashTags(size: Size, disk: Disk, cuts: seq<nat>, batches: set<set<Entry>>, history: set<Entry>)
    requires Tagged(size, disk, batches) && Cuttable(disk.logs, cuts)
    requires Logged(size, disk.(logs := CutLogs(disk.logs, cuts))) <= history
    ensures Tagged(size, disk.(logs := CutLogs(disk.logs, cuts)), set w | w in batches && w <= history)
  {
    var after := disk.(logs := CutLogs(disk.logs, cuts));
    forall l, b | Live(after, l) && b in Surviving(size, l) ensures EntriesOf(b) in batches && EntriesOf(b) <= history {
      SurvivorIsLogged(size, after, l, b);
      var a :| 0 <= a < |after.logs| && after.logs[a] == l;
      CutPrefixes(size, disk.logs[a], cuts[a]);
      assert Live(disk, disk.logs[a]) && b in Surviving(size, disk.logs[a]);
    }
  }

  // ------------------------------------------------------------------ what holds in every state

  /** The database stands for exactly the batches given. */
  ghost predicate Accounts(size: Size, db: Db, flushed: set<Entry>, batches: set<set<Entry>>) {
    Whole(flushed, batches) && Tagged(size, db.disk, batches) && Within(batches, History(size, db, flushed))
  }

  ghost predicate Sound(size: Size, db: Db, flushed: set<Entry>, batches: set<set<Entry>>) {
    exists f :: f == flushed && DbOk(size, db, f) && Accounts(size, db, f, batches)
  }

  /** The batches there after a step: all of them and the one it commits, or those a crash leaves. */
  ghost function BatchesAfter(size: Size, db: Db, ev: DbEvent, after: Db, flushed: set<Entry>, batches: set<set<Entry>>): set<set<Entry>> {
    if ev.Crash? then set w | w in batches && w <= History(size, after, flushed) else batches + BatchAt(db, ev)
  }

  lemma FlushedIsWhole(size: Size, db: Db, ev: DbEvent, flushed: set<Entry>, batches: set<set<Entry>>)
    requires DbOk(size, db, flushed) && Whole(flushed, batches) && Tagged(size, db.disk, batches)
    ensures Whole(FlushedAfter(size, db, ev, flushed), batches)
  {
    if ev.Flush? && db.Up? {
      assert db == Up(db.st, db.disk);
      ImmIsWhole(size, db.st, db.disk, flushed, batches);
      WholeUnion(flushed, Content(ImmRun(db.st)), batches);
    } else if ev.Recover? {
      LoggedIsWhole(size, db.disk, batches);
      WholeUnion(flushed, Logged(size, db.disk), batches);
    }
  }

  lemma CrashAccounts(size: Size, db: Db, ev: DbEvent, after: Db, flushed: set<Entry>, batches: set<set<Entry>>)
    requires Moves(size, db, ev, after) && ev.Crash? && Accounts(size, db, flushed, batches)
    ensures Accounts(size, after, flushed, BatchesAfter(size, db, ev, after, flushed, batches))
  {
    var history := History(size, after, flushed);
    CrashTags(size, db.disk, ev.cuts, batches, history);
    var left := set w | w in batches && w <= history;
    forall e | e in flushed ensures exists w :: w in left && e in w && w <= flushed {
      var w :| w in batches && e in w && w <= flushed;
      assert w in left;
    }
  }

  lemma QuietAccounts(size: Size, db: Db, ev: DbEvent, after: Db, flushed: set<Entry>, now: set<Entry>, batches: set<set<Entry>>)
    requires Growing(size) && DbOk(size, db, flushed) && Moves(size, db, ev, after) && !ev.Crash?
    requires Accounts(size, db, flushed, batches) && Ledger(size, db, ev, after, flushed, now)
    ensures Accounts(size, after, now, batches + BatchAt(db, ev))
  {
    TagsKept(size, db, ev, after, flushed, batches);
    FlushedIsWhole(size, db, ev, flushed, batches);
    WholeMore(now, batches, BatchAt(db, ev));
  }

  lemma SoundStep(size: Size, db: Db, ev: DbEvent, after: Db, flushed: set<Entry>, batches: set<set<Entry>>)
    requires Growing(size) && Sound(size, db, flushed, batches) && Next(size, db, ev, after)
    ensures var now := FlushedAfter(size, db, ev, flushed);
            Sound(size, after, now, BatchesAfter(size, db, ev, after, now, batches))
  {
    var now := FlushedAfter(size, db, ev, flushed);
    StepOk(size, db, ev, after, flushed);
    StepLedger(size, db, ev, after, flushed);
    if ev.Crash? {
      CrashAccounts(size, db, ev, after, flushed, batches);
    } else {
      QuietAccounts(size, db, ev, after, flushed, now, batches);
    }
    var ok := DbOk(size, after, now) && Accounts(size, after, now, BatchesAfter(size, db, ev, after, now, batches));
    assert ok;
  }

  /** So the history is the union of the batches. */
  lemma SoundHistory(size: Size, db: Db, flushed: set<Entry>, batches: set<set<Entry>>)
    requires Sound(size, db, flushed, batches)
    ensures forall e :: e in History(size, db, flushed) <==> exists w :: w in batches && e in w
  {
    LoggedIsWhole(size, db.disk, batches);
    WholeUnion(flushed, Logged(size, db.disk), batches);
  }

  // ------------------------------------------------------------------ induction over runs

  type Invariant = (Db, set<Entry>, set<set<Entry>>) -> bool

  type Relation = (Db, DbEvent, Db) -> bool

  ghost predicate Stepwise(next: Relation, states: seq<Db>, events: seq<DbEvent>) {
    && |states| == |events| + 1
    && forall i {:trigger events[i]} :: 0 <= i < |events| ==> next(states[i], events[i], states[i + 1])
  }

  ghost predicate Preserved(size: Size, inv: Invariant, next: Relation) {
    forall db, ev, after, flushed, batches :: inv(db, flushed, batches) && next(db, ev, after) ==>
      var now := FlushedAfter(size, db, ev, flushed);
      inv(after, now, BatchesAfter(size, db, ev, after, now, batches))
  }

  lemma OneMoreBatch(size: Size, states: seq<Db>, events: seq<DbEvent>, n: nat)
    requires 0 < n <= |events| < |states|
    ensures var db, ev, now := states[n - 1], events[n - 1], FlushedAt(size, states, events, n);
            BatchesOf(states, events, KeptAt(size, states, events, n)) ==
              BatchesAfter(size, db, ev, states[n], now, BatchesOf(states, events, KeptAt(size, states, events, n - 1)))
  {
    var db, ev, now := states[n - 1], events[n - 1], FlushedAt(size, states, events, n);
    var before, kept := KeptAt(size, states, events, n - 1), KeptAt(size, states, events, n);
    var a, b := BatchesOf(states, events, kept), BatchesAfter(size, db, ev, states[n], now, BatchesOf(states, events, before));
    forall w | w in b ensures w in a {
      if ev.Commit? && w == WritesAt(states, events, n - 1) {
        assert n - 1 in kept;
      } else {
        var i :| i in before && w == WritesAt(states, events, i);
        assert i in kept;
      }
    }
  }

  lemma {:induction false} RunInduction(size: Size, inv: Invariant, next: Relation, states: seq<Db>, events: seq<DbEvent>, n: nat)
    requires Stepwise(next, states, events) && n <= |events| && Preserved(size, inv, next) && inv(states[0], {}, {})
    ensures inv(states[n], FlushedAt(size, states, events, n), BatchesOf(states, events, KeptAt(size, states, events, n)))
  {
    if n == 0 {
      assert BatchesOf(states, events, {}) == {};
    } else {
      var last := n - 1;
      RunInduction(size, inv, next, states, events, last);
      assert next(states[last], events[last], states[last + 1]);
      OneMoreBatch(size, states, events, n);
    }
  }

  lemma SoundAtStart(size: Size)
    ensures Sound(size, Down(FRESH_DISK), {}, {}) && Answers(Down(FRESH_DISK), {})
  {
    EmptyStoreOk(2);
    assert Committed(FRESH_DISK) == EmptyStore(2);
    assert SurvivingIn(size, []) == [];
    var ok := DbOkAt(size, Down(FRESH_DISK), {}, 0);
    assert ok;
    assert Accounts(size, Down(FRESH_DISK), {}, {});
  }

  lemma RunIsSound(size: Size, states: seq<Db>, events: seq<DbEvent>, n: nat)
    requires Growing(size) && Run(size, states, events) && n <= |events|
    ensures Sound(size, states[n], FlushedAt(size, states, events, n), BatchesOf(states, events, KeptAt(size, states, events, n)))
  {
    var inv: Invariant := (db, flushed, batches) => Sound(size, db, flushed, batches);
    var next: Relation := (db, ev, after) => Next(size, db, ev, after);
    assert Preserved(size, inv, next) by {
      forall db, ev, after, flushed, batches | inv(db, flushed, batches) && next(db, ev, after)
        ensures var now := FlushedAfter(size, db, ev, flushed); inv(after, now, BatchesAfter(size, db, ev, after, now, batches))
      {
        SoundStep(size, db, ev, after, flushed, batches);
      }
    }
    forall i | 0 <= i < |events| ensures next(states[i], events[i], states[i + 1]) {
      assert StepAt(size, states, events, i);
    }
    SoundAtStart(size);
    RunInduction(size, inv, next, states, events, n);
  }

  /** What is known of every step of a run. */
  ghost predicate SoundMove(size: Size, db: Db, ev: DbEvent, after: Db, flushed: set<Entry>) {
    exists f :: f == flushed && DbOk(size, db, f) && Moves(size, db, ev, after) && Ledger(size, db, ev, after, f, FlushedAfter(size, db, ev, f))
  }

  lemma RunMoves(size: Size, states: seq<Db>, events: seq<DbEvent>, i: nat)
    requires Growing(size) && Run(size, states, events) && i < |events|
    ensures SoundMove(size, states[i], events[i], states[i + 1], FlushedAt(size, states, events, i))
  {
    var db, ev, after, flushed := states[i], events[i], states[i + 1], FlushedAt(size, states, events, i);
    RunIsSound(size, states, events, i);
    assert StepAt(size, states, events, i);
    StepLedger(size, db, ev, after, flushed);
    var ok := DbOk(size, db, flushed) && Moves(size, db, ev, after) && Ledger(size, db, ev, after, flushed, FlushedAfter(size, db, ev, flushed));
    assert ok;
  }

  // ------------------------------------------------------------------ what a database stands for

  /** Only a crash takes anything from the history, and nothing that was durable; every other step adds what it writes. */
  lemma HistoryMoves(size: Size, states: seq<Db>, events: seq<DbEvent>, i: nat)
    requires Growing(size) && Run(size, states, events) && i < |events|
    ensures var before, now := HistoryAt(size, states, events, i), HistoryAt(size, states, events, i + 1);
            if events[i].Crash? then DurableAt(size, states, events, i) <= now <= before
            else now == before + WritesAt(states, events, i)
    ensures DurableAt(size, states, events, i) <= DurableAt(size, states, events, i + 1)
    ensures events[i].Commit? && events[i].sync ==> WritesAt(states, events, i) <= DurableAt(size, states, events, i + 1)
  {
    RunMoves(size, states, events, i);
  }

  /** The history is always exactly what the commits that are there wrote: each of them whole, and nothing else. */
  lemma HistoryIsKept(size: Size, states: seq<Db>, events: seq<DbEvent>, n: nat)
    requires Growing(size) && Run(size, states, events) && n <= |events|
    ensures HistoryAt(size, states, events, n) == WritesOf(states, events, KeptAt(size, states, events, n))
  {
    var kept, flushed := KeptAt(size, states, events, n), FlushedAt(size, states, events, n);
    var batches := BatchesOf(states, events, kept);
    RunIsSound(size, states, events, n);
    SoundHistory(size, states[n], flushed, batches);
    forall e | e in HistoryAt(size, states, events, n) ensures e in WritesOf(states, events, kept) {
      var w :| w in batches && e in w;
    }
    forall e | e in WritesOf(states, events, kept) ensures e in HistoryAt(size, states, events, n) {
      var i :| i in kept && e in WritesAt(states, events, i);
      assert WritesAt(states, events, i) in batches;
    }
  }

  ghost predicate TameAt(states: seq<Db>, events: seq<DbEvent>, i: nat) {
    i < |events| < |states| && Tame(states[i], events[i])
  }

  /** No compaction of the first `n` steps lets an older value resurface from the files. */
  ghost predicate RunTame(states: seq<Db>, events: seq<DbEvent>, n: nat) {
    forall i: nat {:trigger TameAt(states, events, i)} :: i < n ==> TameAt(states, events, i)
  }

  ghost predicate AnswersAt(size: Size, states: seq<Db>, events: seq<DbEvent>, n: nat) {
    n <= |events| < |states| && Answers(states[n], FlushedAt(size, states, events, n))
  }

  /** In each of the first `n + 1` states the files answer for everything handed to tables. */
  ghost predicate RunAnswers(size: Size, states: seq<Db>, events: seq<DbEvent>, n: nat) {
    forall k: nat {:trigger AnswersAt(size, states, events, k)} :: k <= n ==> AnswersAt(size, states, events, k)
  }

  ghost predicate AnswersFollow(size: Size, states: seq<Db>, events: seq<DbEvent>, i: nat) {
    AnswersAt(size, states, events, i) ==> (AnswersAt(size, states, events, i + 1) <==> TameAt(states, events, i))
  }

  lemma AnswersStep(size: Size, states: seq<Db>, events: seq<DbEvent>, i: nat)
    requires Growing(size) && Run(size, states, events) && i < |events|
    ensures AnswersFollow(size, states, events, i)
  {
    RunMoves(size, states, events, i);
    if Answers(states[i], FlushedAt(size, states, events, i)) {
      StepAnswersIff(size, states[i], events[i], states[i + 1], FlushedAt(size, states, events, i));
    }
  }

  lemma {:induction false} AnswersInduction(size: Size, states: seq<Db>, events: seq<DbEvent>, n: nat)
    requires AnswersAt(size, states, events, 0)
    requires forall i: nat {:trigger AnswersFollow(size, states, events, i)} :: i < n ==> AnswersFollow(size, states, events, i)
    ensures RunAnswers(size, states, events, n) <==> RunTame(states, events, n)
  {
    if n > 0 {
      var i := n - 1;
      AnswersInduction(size, states, events, i);
      assert AnswersFollow(size, states, events, i);
      assert RunTame(states, events, n) <==> RunTame(states, events, i) && TameAt(states, events, i);
      assert RunAnswers(size, states, events, n) <==> RunAnswers(size, states, events, i) && AnswersAt(size, states, events, n);
      assert RunAnswers(size, states, events, i) ==> AnswersAt(size, states, events, i);
    }
  }

  /** Over any run with crashes and recoveries, the files answer in every state if and only if every compaction is
      harmless to them. */
  lemma RunAnswersIff(size: Size, states: seq<Db>, events: seq<DbEvent>, n: nat)
    requires Growing(size) && Run(size, states, events) && n <= |events|
    ensures RunAnswers(size, states, events, n) <==> RunTame(states, events, n)
  {
    SoundAtStart(size);
    forall i: nat | i < n ensures AnswersFollow(size, states, events, i) {
      AnswersStep(size, states, events, i);
    }
    AnswersInduction(size, states, events, n);
  }

  /** Crash safety over whole runs. In every running state the store is sound for the history, no sequence number of it
      is above the last one, so none is issued twice, and if no compaction so far let an older value resurface from the
      files, every live reader gets what the history says. */
  lemma CrashSafety(size: Size, states: seq<Db>, events: seq<DbEvent>, n: nat)
    requires Growing(size) && Run(size, states, events) && n <= |events|
    ensures HistoryAt(size, states, events, n) == WritesOf(states, events, KeptAt(size, states, events, n))
    ensures states[n].Up? ==> StoreOk(states[n].st, HistoryAt(size, states, events, n))
    ensures states[n].Up? ==> forall e :: e in HistoryAt(size, states, events, n) ==> e.key.seqno <= states[n].st.lastSequence
    ensures states[n].Up? && RunTame(states, events, n) ==> Faithful(states[n].st, HistoryAt(size, states, events, n))
  {
    HistoryIsKept(size, states, events, n);
    RunIsSound(size, states, events, n);
    RunAnswersIff(size, states, events, n);
    assert RunTame(states, events, n) ==> AnswersAt(size, states, events, n);
    if states[n].Up? { UpAnswers(size, states[n], FlushedAt(size, states, events, n)); }
  }

  lemma UpAnswers(size: Size, db: Db, flushed: set<Entry>)
    requires db.Up? && DbOk(size, db, flushed)
    ensures StoreOk(db.st, History(size, db, flushed))
    ensures forall e :: e in History(size, db, flushed) ==> e.key.seqno <= db.st.lastSequence
    ensures Answers(db, flushed) ==> Faithful(db.st, History(size, db, flushed))
  {
    assert db == Up(db.st, db.disk);
    UpIsSound(size, db.st, db.disk, flushed);
    if Answers(db, flushed) { UpIsFaithful(size, db.st, db.disk, flushed); }
  }

  lemma UpIsSound(size: Size, st: Store, disk: Disk, flushed: set<Entry>)
    requires DbOk(size, Up(st, disk), flushed)
    ensures StoreOk(st, flushed + Logged(size, disk))
  {
    var mark :| DbOkAt(size, Up(st, disk), flushed, mark);
  }

  // ------------------------------------------------------------------ what is kept for good

  ghost predicate KeptDurable(size: Size, states: seq<Db>, events: seq<DbEvent>, i: nat, n: nat) {
    && n <= |events| < |states| && i in KeptAt(size, states, events, n)
    && WritesAt(states, events, i) <= DurableAt(size, states, events, n)
  }

  lemma KeptStep(size: Size, states: seq<Db>, events: seq<DbEvent>, i: nat, n: nat)
    requires Growing(size) && Run(size, states, events) && n < |events| && KeptDurable(size, states, events, i, n)
    ensures KeptDurable(size, states, events, i, n + 1)
  {
    HistoryMoves(size, states, events, n);
  }

  /** A commit whose entries are all durable is there for ever after. */
  lemma {:induction false} KeptForGood(size: Size, states: seq<Db>, events: seq<DbEvent>, i: nat, m: nat, n: nat)
    requires Growing(size) && Run(size, states, events) && m <= n <= |events| && KeptDurable(size, states, events, i, m)
    ensures KeptDurable(size, states, events, i, n)
  {
    if m < n {
      KeptForGood(size, states, events, i, m, n - 1);
      KeptStep(size, states, events, i, n - 1);
    }
  }

  // ------------------------------------------------------------------ what a crash can take

  function AfterCrash(db: Db, cuts: seq<nat>): Db
    requires |cuts| == |db.disk.logs|
  {
    Down(db.disk.(logs := CutLogs(db.disk.logs, cuts)))
  }

  /** However a crash cuts the logs, all of `w` is left. */
  ghost predicate SurvivesAnyCrash(size: Size, db: Db, flushed: set<Entry>, w: set<Entry>) {
    forall cuts {:trigger Cuttable(db.disk.logs, cuts)} ::
      Cuttable(db.disk.logs, cuts) ==> w <= History(size, AfterCrash(db, cuts), flushed)
  }

  /** The worst crash leaves the synced bytes and no more. */
  lemma CutToSynced(size: Size, disk: Disk) returns (cuts: seq<nat>)
    requires AllOk(size, disk.logs)
    ensures Cuttable(disk.logs, cuts) && Logged(size, disk.(logs := CutLogs(disk.logs, cuts))) == LoggedSynced(size, disk)
  {
    cuts := seq(|disk.logs|, i requires 0 <= i < |disk.logs| => disk.logs[i].synced);
    forall i | 0 <= i < |disk.logs| ensures disk.logs[i].synced <= cuts[i] <= disk.logs[i].cut {
      assert LogOk(size, disk.logs[i]);
    }
    assert SurvivingIn(size, CutLogs(disk.logs, cuts)) == SyncedIn(size, disk.logs);
  }

  /** What survives any crash is exactly what is durable. */
  lemma SurvivesIffDurable(size: Size, db: Db, flushed: set<Entry>, w: set<Entry>)
    requires DbOk(size, db, flushed)
    ensures SurvivesAnyCrash(size, db, flushed, w) <==> w <= Durable(size, db, flushed)
  {
    DbLogsOk(size, db, flushed);
    if SurvivesAnyCrash(size, db, flushed, w) {
      var cuts := CutToSynced(size, db.disk);
      assert w <= History(size, AfterCrash(db, cuts), flushed);
    }
    forall cuts | Cuttable(db.disk.logs, cuts)
      ensures Durable(size, db, flushed) <= History(size, AfterCrash(db, cuts), flushed)
    {
      CutEntries(size, db.disk.logNumber, db.disk.logs, cuts);
    }
  }
}
