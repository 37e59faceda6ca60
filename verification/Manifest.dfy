/** The manifest: a log of version edits. One builder over all of them gives the version that applying them one after
    the other gives (VersionSet::Builder and VersionSet::Recover in db/version_set.cc). */
module Manifest {
  import opened Common
  import opened Keys
  import opened Version
  import opened Inputs
  import opened Builder
  import opened Install
  import opened LsmStore

  /** The file changes of a VersionEdit: numbers deleted from levels, files added to levels. */
  datatype Edit = Edit(deleted: set<(nat, nat)>, added: seq<(nat, File)>)

  /** LevelState. */
  datatype LevelState = LevelState(deleted: set<nat>, added: seq<File>)

  const UNTOUCHED := LevelState({}, [])

  function DeletedFrom(edit: Edit, level: nat): set<nat> {
    set p | p in edit.deleted && p.0 == level :: p.1
  }

  function AddedTo(added: seq<(nat, File)>, level: nat): seq<File> {
    if added == [] then []
    else
      var n := |added| - 1;
      AddedTo(added[..n], level) + if added[n].0 == level then [added[n].1] else []
  }

  /** Adding a file takes its number back out of the deleted ones. */
  function AddOne(s: LevelState, f: File): LevelState {
    LevelState(s.deleted - {f.number}, InsertFile(s.added, f))
  }

  function AddAll(s: LevelState, files: seq<File>): LevelState {
    if files == [] then s else AddOne(AddAll(s, files[..|files| - 1]), files[|files| - 1])
  }

  /** Builder::Apply, seen from one level. */
  function ApplyTo(s: LevelState, edit: Edit, level: nat): LevelState {
    AddAll(s.(deleted := s.deleted + DeletedFrom(edit, level)), AddedTo(edit.added, level))
  }

  function Built(edits: seq<Edit>, level: nat): LevelState {
    if edits == [] then UNTOUCHED else ApplyTo(Built(edits[..|edits| - 1], level), edits[|edits| - 1], level)
  }

  function Saved(base: seq<File>, s: LevelState): seq<File> {
    SaveLevel(base, s.added, s.deleted)
  }

  /** One builder for all edits. */
  function Replayed(base: Levels, edits: seq<Edit>): Levels {
    seq(NUM_LEVELS, l requires 0 <= l < NUM_LEVELS => Saved(base[l], Built(edits, l)))
  }

  /** A builder of its own for every edit. */
  function OneByOne(base: Levels, edits: seq<Edit>): Levels {
    if edits == [] then base else Replayed(OneByOne(base, edits[..|edits| - 1]), [edits[|edits| - 1]])
  }

  // ------------------------------------------------------------------ one level

  /** The numbers a level has held, now or before. */
  ghost function Held(base: seq<File>, edits: seq<Edit>, level: nat): set<nat> {
    if edits == [] then Numbers(base)
    else Held(base, edits[..|edits| - 1], level) + Numbers(AddedTo(edits[|edits| - 1].added, level))
  }

  /** No file number is added to a level that already held it. */
  ghost predicate Fresh(base: seq<File>, edits: seq<Edit>, level: nat) {
    edits != [] ==>
      var n := |edits| - 1;
      var files := AddedTo(edits[n].added, level);
      && Fresh(base, edits[..n], level) && DistinctNumbers(files)
      && Numbers(files) !! Held(base, edits[..n], level)
  }

  lemma NumbersSplit(files: seq<File>)
    requires files != [] && DistinctNumbers(files)
    ensures var front, last := files[..|files| - 1], files[|files| - 1];
            && DistinctNumbers(front) && last.number !in Numbers(front)
            && Numbers(files) == Numbers(front) + {last.number}
            && forall f :: f in files <==> f in front || f == last
  {
    assert files == files[..|files| - 1] + [files[|files| - 1]];
  }

  lemma {:induction false} AddAllMembers(s: LevelState, files: seq<File>)
    requires InFileOrder(s.added) && DistinctNumbers(files) && Numbers(files) !! Numbers(s.added)
    ensures var r := AddAll(s, files);
            && InFileOrder(r.added) && r.deleted == s.deleted - Numbers(files)
            && forall f :: f in r.added <==> f in s.added || f in files
  {
    if files != [] {
      var n := |files| - 1;
      NumbersSplit(files);
      AddAllMembers(s, files[..n]);
      var r := AddAll(s, files[..n]);
      forall g | g in r.added ensures g.number != files[n].number {
        assert g.number in Numbers(if g in s.added then s.added else files[..n]);
      }
      InsertFileOrdered(r.added, files[n]);
    }
  }

  lemma {:induction false} BuiltOrdered(base: seq<File>, edits: seq<Edit>, level: nat)
    requires Fresh(base, edits, level)
    ensures InFileOrder(Built(edits, level).added) && Numbers(Built(edits, level).added) <= Held(base, edits, level)
  {
    if edits != [] {
      var n := |edits| - 1;
      var s, files := Built(edits[..n], level), AddedTo(edits[n].added, level);
      BuiltOrdered(base, edits[..n], level);
      AddAllMembers(s.(deleted := s.deleted + DeletedFrom(edits[n], level)), files);
    }
  }

  /** What one edit does to a level: its deleted numbers go, unless it adds them, and its files come. */
  ghost predicate Edited(before: seq<File>, edit: Edit, level: nat, after: seq<File>) {
    var files := AddedTo(edit.added, level);
    forall f :: f in after <==> f in files || (f in before && f.number !in DeletedFrom(edit, level) - Numbers(files))
  }

  /** One more edit in the builder changes the saved level exactly as an edit of its own would. */
  lemma SavedStep(base: seq<File>, edits: seq<Edit>, level: nat)
    requires edits != [] && Fresh(base, edits, level)
    ensures Edited(Saved(base, Built(edits[..|edits| - 1], level)), edits[|edits| - 1], level, Saved(base, Built(edits, level)))
  {
    var n := |edits| - 1;
    var edit, s := edits[n], Built(edits[..n], level);
    var files, now := AddedTo(edit.added, level), Built(edits, level);
    BuiltOrdered(base, edits[..n], level);
    AddAllMembers(s.(deleted := s.deleted + DeletedFrom(edit, level)), files);
    SaveLevelMembers(base, s.added, s.deleted);
    SaveLevelMembers(base, now.added, now.deleted);
    forall f | f in base || f in s.added ensures f.number !in Numbers(files) {
      HeldMembers(base, edits[..n], level, f);
    }
    assert forall f :: f in files ==> f.number in Numbers(files);
  }

  lemma {:induction false} HeldMembers(base: seq<File>, edits: seq<Edit>, level: nat, f: File)
    requires Fresh(base, edits, level) && (f in base || f in Built(edits, level).added)
    ensures f.number in Held(base, edits, level)
  {
    BuiltOrdered(base, edits, level);
    if f in base {
      BaseHeld(base, edits, level);
    } else {
      assert f.number in Numbers(Built(edits, level).added);
    }
  }

  lemma {:induction false} BaseHeld(base: seq<File>, edits: seq<Edit>, level: nat)
    ensures Numbers(base) <= Held(base, edits, level)
  {
    if edits != [] { BaseHeld(base, edits[..|edits| - 1], level); }
  }

  lemma SavedIsOrdered(base: seq<File>, edits: seq<Edit>, level: nat)
    requires InFileOrder(base) && Fresh(base, edits, level)
    ensures InFileOrder(Saved(base, Built(edits, level)))
    ensures forall f :: f in Saved(base, Built(edits, level)) ==> f.number in Held(base, edits, level)
  {
    BuiltOrdered(base, edits, level);
    var s := Built(edits, level);
    SaveLevelMembers(base, s.added, s.deleted);
    forall f | f in base || f in s.added ensures f.number in Held(base, edits, level) {
      HeldMembers(base, edits, level, f);
    }
    AddedApart(base, edits, level);
    SaveLevelOrdered(base, s.added, s.deleted);
  }

  /** Added files share no number with the base. */
  lemma {:induction false} AddedApart(base: seq<File>, edits: seq<Edit>, level: nat)
    requires Fresh(base, edits, level)
    ensures forall f, g :: f in base && g in Built(edits, level).added ==> f.number != g.number
  {
    if edits != [] {
      var n := |edits| - 1;
      var s, files := Built(edits[..n], level), AddedTo(edits[n].added, level);
      AddedApart(base, edits[..n], level);
      BuiltOrdered(base, edits[..n], level);
      BaseHeld(base, edits[..n], level);
      AddAllMembers(s.(deleted := s.deleted + DeletedFrom(edits[n], level)), files);
      forall f, g | f in base && g in Built(edits, level).added ensures f.number != g.number {
        assert f.number in Numbers(base);
        if g in files { assert g.number in Numbers(files); }
      }
    }
  }

  /** Two ways of applying one edit agree. */
  lemma EditedUnique(before: seq<File>, edit: Edit, level: nat, a: seq<File>, b: seq<File>)
    requires InFileOrder(a) && InFileOrder(b) && Edited(before, edit, level, a) && Edited(before, edit, level, b)
    ensures a == b
  {
    OrderedUnique(a, b);
  }

  lemma NoEdits(base: seq<File>)
    ensures Saved(base, UNTOUCHED) == base
  {
    NothingDeleted(base);
  }

  lemma LastEdit(edit: Edit)
    ensures [edit][..0] == [] && [edit][0] == edit
  {
  }

  /** An edit alone, on top of a level whose files the builder's history has numbered. */
  lemma OneEdit(before: seq<File>, edit: Edit, level: nat, held: set<nat>)
    requires InFileOrder(before) && Numbers(before) <= held && DistinctNumbers(AddedTo(edit.added, level))
    requires Numbers(AddedTo(edit.added, level)) !! held
    ensures InFileOrder(Saved(before, Built([edit], level))) && Edited(before, edit, level, Saved(before, Built([edit], level)))
  {
    LastEdit(edit);
    NoEdits(before);
    assert Built([], level) == UNTOUCHED && Held(before, [], level) == Numbers(before);
    assert Fresh(before, [], level) && Fresh(before, [edit], level);
    SavedStep(before, [edit], level);
    SavedIsOrdered(before, [edit], level);
  }

  // ------------------------------------------------------------------ all levels

  ghost predicate FreshEdits(base: Levels, edits: seq<Edit>) {
    forall l :: 0 <= l < NUM_LEVELS ==> Fresh(base[l], edits, l)
  }

  ghost predicate AllInFileOrder(levels: Levels) {
    forall l :: 0 <= l < NUM_LEVELS ==> InFileOrder(levels[l])
  }

  /** Replaying the whole manifest in one builder is applying its edits one version at a time. */
  lemma {:induction false} ReplayIsStepwise(base: Levels, edits: seq<Edit>)
    requires AllInFileOrder(base) && FreshEdits(base, edits)
    ensures Replayed(base, edits) == OneByOne(base, edits)
  {
    if edits == [] {
      forall l | 0 <= l < NUM_LEVELS ensures Replayed(base, edits)[l] == base[l] { NoEdits(base[l]); }
    } else {
      var n := |edits| - 1;
      forall l | 0 <= l < NUM_LEVELS ensures Fresh(base[l], edits[..n], l) {
        assert Fresh(base[l], edits, l);
      }
      ReplayIsStepwise(base, edits[..n]);
      ReplayStep(base, edits);
    }
  }

  lemma ReplayStep(base: Levels, edits: seq<Edit>)
    requires edits != [] && AllInFileOrder(base) && FreshEdits(base, edits)
    ensures Replayed(base, edits) == Replayed(Replayed(base, edits[..|edits| - 1]), [edits[|edits| - 1]])
  {
    var n := |edits| - 1;
    var before := Replayed(base, edits[..n]);
    forall l | 0 <= l < NUM_LEVELS ensures Replayed(base, edits)[l] == Replayed(before, [edits[n]])[l] {
      assert Fresh(base[l], edits, l);
      SavedIsOrdered(base[l], edits[..n], l);
      SavedIsOrdered(base[l], edits, l);
      SavedStep(base[l], edits, l);
      OneEdit(before[l], edits[n], l, Held(base[l], edits[..n], l));
      EditedUnique(before[l], edits[n], l, Replayed(base, edits)[l], Replayed(before, [edits[n]])[l]);
    }
  }

  // ------------------------------------------------------------------ the builder itself

  /** VersionSet::Builder. */
  class VersionBuilder {
    const base: Levels
    var deletedFiles: seq<set<nat>>
    var addedFiles: seq<seq<File>>
    ghost var edits: seq<Edit>

    ghost predicate Shows(states: seq<LevelState>)
      reads this
    {
      && |deletedFiles| == NUM_LEVELS && |addedFiles| == NUM_LEVELS && |states| == NUM_LEVELS
      && forall l :: 0 <= l < NUM_LEVELS ==> LevelState(deletedFiles[l], addedFiles[l]) == states[l]
    }

    ghost predicate Valid()
      reads this
    {
      Shows(BuiltStates(edits))
    }

    constructor (base: Levels)
      ensures Valid() && this.base == base && edits == []
    {
      this.base := base;
      deletedFiles, addedFiles, edits := seq(NUM_LEVELS, _ => {}), seq(NUM_LEVELS, _ => []), [];
    }

    method Apply(edit: Edit)
      requires Valid()
      requires forall i :: 0 <= i < |edit.added| ==> edit.added[i].0 < NUM_LEVELS
      modifies this
      ensures Valid() && edits == old(edits) + [edit]
    {
      ghost var before := edits;
      deletedFiles := seq(NUM_LEVELS, l requires 0 <= l < NUM_LEVELS && |deletedFiles| == NUM_LEVELS reads this =>
        deletedFiles[l] + DeletedFrom(edit, l));
      for i := 0 to |edit.added|
        invariant edits == before && Shows(ApplyingStates(before, edit, i))
      {
        var (level, f) := edit.added[i];
        ApplyingStep(before, edit, i);
        AddFile(level, f, ApplyingStates(before, edit, i));
      }
      edits := before + [edit];
      AppliedStates(before, edit);
    }

    method AddFile(level: nat, f: File, ghost states: seq<LevelState>)
      requires Shows(states) && level < NUM_LEVELS
      modifies `deletedFiles, `addedFiles
      ensures Shows(states[level := AddOne(states[level], f)])
    {
      deletedFiles := deletedFiles[level := deletedFiles[level] - {f.number}];
      addedFiles := addedFiles[level := InsertFile(addedFiles[level], f)];
    }

    method SaveTo() returns (levels: Levels)
      requires Valid() && AllInFileOrder(base)
      ensures levels == Replayed(base, edits)
    {
      var saved: seq<seq<File>> := [];
      for l := 0 to NUM_LEVELS
        invariant |saved| == l && saved == Replayed(base, edits)[..l]
      {
        var files := SaveToLevel(base[l], addedFiles[l], deletedFiles[l]);
        assert LevelState(deletedFiles[l], addedFiles[l]) == Built(edits, l);
        saved := saved + [files];
      }
      levels := saved;
    }
  }

  ghost function BuiltStates(edits: seq<Edit>): seq<LevelState> {
    seq(NUM_LEVELS, l requires 0 <= l < NUM_LEVELS => Built(edits, l))
  }

  /** The levels once the deletions and the first `n` additions of an edit are done. */
  ghost function ApplyingStates(before: seq<Edit>, edit: Edit, n: nat): seq<LevelState>
    requires n <= |edit.added|
  {
    seq(NUM_LEVELS, l requires 0 <= l < NUM_LEVELS =>
      AddAll(Built(before, l).(deleted := Built(before, l).deleted + DeletedFrom(edit, l)), AddedTo(edit.added[..n], l)))
  }

  lemma ApplyingStep(before: seq<Edit>, edit: Edit, i: nat)
    requires i < |edit.added| && edit.added[i].0 < NUM_LEVELS
    ensures var s, at := ApplyingStates(before, edit, i), edit.added[i];
            ApplyingStates(before, edit, i + 1) == s[at.0 := AddOne(s[at.0], at.1)]
  {
    var s, at := ApplyingStates(before, edit, i), edit.added[i];
    assert edit.added[..i + 1] == edit.added[..i] + [edit.added[i]];
    var next := s[at.0 := AddOne(s[at.0], at.1)];
    forall l | 0 <= l < NUM_LEVELS ensures ApplyingStates(before, edit, i + 1)[l] == next[l] {
      AddedStep(Built(before, l).(deleted := Built(before, l).deleted + DeletedFrom(edit, l)), edit.added[..i], edit.added[i], l);
    }
  }

  lemma AppliedStates(before: seq<Edit>, edit: Edit)
    ensures ApplyingStates(before, edit, |edit.added|) == BuiltStates(before + [edit])
  {
    assert edit.added[..|edit.added|] == edit.added;
    assert (before + [edit])[..|before|] == before;
  }

  lemma AddedStep(s: LevelState, added: seq<(nat, File)>, next: (nat, File), level: nat)
    ensures AddAll(s, AddedTo(added + [next], level))
         == if next.0 == level then AddOne(AddAll(s, AddedTo(added, level)), next.1) else AddAll(s, AddedTo(added, level))
  {
    assert (added + [next])[..|added|] == added;
    if next.0 == level {
      var files := AddedTo(added, level);
      assert (files + [next.1])[..|files|] == files;
    } else {
      assert AddedTo(added + [next], level) == AddedTo(added, level);
    }
  }

  // ------------------------------------------------------------------ the manifest of a running store

  const NO_CHANGE := Edit({}, [])

  function AtLevel(files: seq<File>, level: nat): seq<(nat, File)> {
    seq(|files|, i requires 0 <= i < |files| => (level, files[i]))
  }

  function Moved(level: nat, in0: seq<File>, in1: seq<File>, outs: seq<File>): Edit {
    Edit((set n | n in Numbers(in0) :: (level, n)) + (set n | n in Numbers(in1) :: (level + 1, n)), AtLevel(outs, level + 1))
  }

  /** The edit a step of the store logs. */
  function EditOf(st: Store, ev: Event): Edit {
    match ev
    case FlushMemtable(level, size) =>
      if st.imm.Some? && st.imm.value != [] then Edit({}, [(level, TableOf(st.imm.value, st.nextFile, size))]) else NO_CHANGE
    case TrivialMove(level, file) => Moved(level, [file], [], [file])
    case Compact(level, in0, in1, outs) => Moved(level, in0, in1, outs)
    case _ => NO_CHANGE
  }

  /** WriteSnapshot: a new manifest starts with one edit that adds every file. */
  function SnapshotOf(levels: Levels, upto: nat): seq<(nat, File)>
    requires upto <= NUM_LEVELS
  {
    if upto == 0 then [] else SnapshotOf(levels, upto - 1) + AtLevel(levels[upto - 1], upto - 1)
  }

  function Snapshot(levels: Levels): Edit {
    Edit({}, SnapshotOf(levels, NUM_LEVELS))
  }

  lemma {:induction false} AddedAtLevel(files: seq<File>, level: nat, l: nat)
    ensures AddedTo(AtLevel(files, level), l) == if l == level then files else []
  {
    if files != [] {
      var n := |files| - 1;
      AddedAtLevel(files[..n], level, l);
      assert AtLevel(files, level)[..n] == AtLevel(files[..n], level);
    }
  }

  lemma {:induction false} AddedConcat(a: seq<(nat, File)>, b: seq<(nat, File)>, l: nat)
    ensures AddedTo(a + b, l) == AddedTo(a, l) + AddedTo(b, l)
  {
    if b == [] {
      assert a + b == a;
    } else {
      var n := |b| - 1;
      AddedConcat(a, b[..n], l);
      assert (a + b)[..|a| + n] == a + b[..n];
    }
  }

  lemma {:induction false} SnapshotAdds(levels: Levels, upto: nat, l: nat)
    requires upto <= NUM_LEVELS && l < NUM_LEVELS
    ensures AddedTo(SnapshotOf(levels, upto), l) == if l < upto then levels[l] else []
  {
    if upto > 0 {
      SnapshotAdds(levels, upto - 1, l);
      AddedConcat(SnapshotOf(levels, upto - 1), AtLevel(levels[upto - 1], upto - 1), l);
      AddedAtLevel(levels[upto - 1], upto - 1, l);
    }
  }

  /** What one edit makes of an ordered level is the one ordered list with the right members. */
  lemma LevelEdited(before: seq<File>, edit: Edit, l: nat, held: set<nat>, after: seq<File>)
    requires InFileOrder(before) && Numbers(before) <= held && DistinctNumbers(AddedTo(edit.added, l))
    requires Numbers(AddedTo(edit.added, l)) !! held
    requires InFileOrder(after) && Edited(before, edit, l, after)
    ensures Saved(before, Built([edit], l)) == after
  {
    OneEdit(before, edit, l, held);
    EditedUnique(before, edit, l, Saved(before, Built([edit], l)), after);
  }

  /** The manifest describes the store, and no level will ever hold a number again: files only sink, and new numbers are
      new. */
  ghost predicate ManifestOk(edits: seq<Edit>, st: Store) {
    && FreshEdits(EMPTY_LEVELS, edits) && Replayed(EMPTY_LEVELS, edits) == st.levels
    && forall l, n :: 0 <= l < NUM_LEVELS && n in Held(EMPTY_LEVELS[l], edits, l) ==> HeldOk(st, l, n)
  }

  ghost predicate HeldOk(st: Store, l: nat, n: nat) {
    n < st.nextFile && forall m, f :: 0 <= m < NUM_LEVELS && f in st.levels[m] && f.number == n ==> l <= m
  }

  lemma MovedAt(level: nat, in0: seq<File>, in1: seq<File>, outs: seq<File>, l: nat)
    ensures DeletedFrom(Moved(level, in0, in1, outs), l) == if l == level then Numbers(in0) else if l == level + 1 then Numbers(in1) else {}
    ensures AddedTo(Moved(level, in0, in1, outs).added, l) == if l == level + 1 then outs else []
  {
    AddedAtLevel(outs, level + 1, l);
    var del := Moved(level, in0, in1, outs).deleted;
    if l == level {
      forall n | n in Numbers(in0) ensures n in DeletedFrom(Moved(level, in0, in1, outs), l) { assert (level, n) in del; }
    } else if l == level + 1 {
      forall n | n in Numbers(in1) ensures n in DeletedFrom(Moved(level, in0, in1, outs), l) { assert (level + 1, n) in del; }
    }
  }

  /** Numbers tell the files of a version apart. */
  lemma ByNumber(levels: Levels, l: nat, chosen: seq<File>, f: File)
    requires NumbersUnique(levels) && l < NUM_LEVELS && f in levels[l] && forall g :: g in chosen ==> g in levels[l]
    ensures f.number in Numbers(chosen) <==> f in chosen
  {
    if f.number in Numbers(chosen) {
      var g :| g in chosen && g.number == f.number;
      assert g == f;
    }
  }

  lemma NewNumber(levels: Levels, level: nat, in0: seq<File>, outs: seq<File>, f: File)
    requires level + 1 < NUM_LEVELS && OutputNumbersOk(levels, level, in0, outs) && f in levels[level + 1]
    ensures f.number !in Numbers(outs)
  {
    if f.number in Numbers(outs) {
      var o :| o in outs && o.number == f.number;
      assert false;
    }
  }

  /** Installing the outputs of a compaction or a move is this edit. */
  lemma InstallIsEdit(levels: Levels, level: nat, in0: seq<File>, in1: seq<File>, outs: seq<File>, after: Levels, l: nat)
    requires NumbersUnique(levels) && InputsOf(levels, level, in0, in1) && OutputNumbersOk(levels, level, in0, outs)
    requires Installed(levels, after, level, in0, in1, outs) && l < NUM_LEVELS
    ensures Edited(levels[l], Moved(level, in0, in1, outs), l, after[l])
  {
    MovedAt(level, in0, in1, outs, l);
    if l == level {
      forall f | f in levels[l] ensures f.number in Numbers(in0) <==> f in in0 { ByNumber(levels, l, in0, f); }
    } else if l == level + 1 {
      forall f | f in levels[l] ensures f.number in Numbers(in1) - Numbers(outs) <==> f in in1 {
        ByNumber(levels, l, in1, f);
        NewNumber(levels, level, in0, outs, f);
      }
    }
  }

  /** Everything one step has to do with its edit. */
  ghost predicate Logs(before: Levels, edit: Edit, after: Levels) {
    exists levels :: levels == after && AllInFileOrder(levels) && EveryLevelEdited(before, edit, levels)
  }

  ghost predicate EveryLevelEdited(before: Levels, edit: Edit, after: Levels) {
    forall l :: 0 <= l < NUM_LEVELS ==> Edited(before[l], edit, l, after[l])
  }

  lemma VersionInOrder(levels: Levels)
    requires VersionOk(levels)
    ensures AllInFileOrder(levels)
  {
    forall l | 0 <= l < NUM_LEVELS ensures InFileOrder(levels[l]) {
      if l > 0 { DisjointIsOrdered(levels[l]); }
    }
  }

  lemma NoChangeLogs(levels: Levels)
    requires VersionOk(levels)
    ensures Logs(levels, NO_CHANGE, levels)
  {
    VersionInOrder(levels);
    assert EveryLevelEdited(levels, NO_CHANGE, levels);
  }

  lemma FlushLogs(levels: Levels, level: nat, f: File, after: Levels)
    requires VersionOk(after) && level < NUM_LEVELS && after == FlushEdit(levels, level, f)
    ensures Logs(levels, Edit({}, [(level, f)]), after)
  {
    VersionInOrder(after);
    SaveLevelMembers(levels[level], [f], {});
    forall l | 0 <= l < NUM_LEVELS ensures Edited(levels[l], Edit({}, [(level, f)]), l, after[l]) {
      OneFile(level, f, l);
    }
    assert EveryLevelEdited(levels, Edit({}, [(level, f)]), after);
  }

  lemma OneFile(level: nat, f: File, l: nat)
    ensures AddedTo([(level, f)], l) == if l == level then [f] else []
  {
    assert [(level, f)][..0] == [];
  }

  /** Both versions are sound, and the later one is the earlier one with the outputs in place of the inputs. */
  ghost predicate Installs(levels: Levels, level: nat, in0: seq<File>, in1: seq<File>, outs: seq<File>, after: Levels) {
    exists before ::
      && before == levels && VersionOk(before) && InputsOf(before, level, in0, in1) && OutputNumbersOk(before, level, in0, outs)
      && Installed(before, after, level, in0, in1, outs) && VersionOk(after)
  }

  lemma InstallLogs(levels: Levels, level: nat, in0: seq<File>, in1: seq<File>, outs: seq<File>, after: Levels)
    requires Installs(levels, level, in0, in1, outs, after)
    ensures Logs(levels, Moved(level, in0, in1, outs), after)
  {
    VersionInOrder(after);
    forall l | 0 <= l < NUM_LEVELS ensures Edited(levels[l], Moved(level, in0, in1, outs), l, after[l]) {
      InstallIsEdit(levels, level, in0, in1, outs, after, l);
    }
    assert EveryLevelEdited(levels, Moved(level, in0, in1, outs), after);
  }

  lemma FlushStepLogs(st: Store, level: nat, size: nat)
    requires CanFlush(st, level, size) && VersionOk(st.levels) && VersionOk(AfterFlush(st, level, size).levels)
    ensures Logs(st.levels, EditOf(st, FlushMemtable(level, size)), AfterFlush(st, level, size).levels)
  {
    if st.imm.value == [] {
      NoChangeLogs(st.levels);
    } else {
      FlushLogs(st.levels, level, TableOf(st.imm.value, st.nextFile, size), AfterFlush(st, level, size).levels);
    }
  }

  lemma MoveInstalls(st: Store, history: set<Entry>, level: nat, file: File)
    requires StoreOk(st, history) && InputsOk(st.levels, level, [file], [])
    ensures Installs(st.levels, level, [file], [], [file], AfterMove(st, level, file).levels)
  {
    MoveKeeps(st, history, level, file);
    MoveIsInstall(st.levels, level, file);
    InputsAreInputs(st.levels, level, [file], []);
  }

  lemma CompactInstalls(st: Store, history: set<Entry>, level: nat, in0: seq<File>, in1: seq<File>, outs: seq<File>)
    requires StoreOk(st, history) && CanCompact(st, level, in0, in1, outs)
    ensures Installs(st.levels, level, in0, in1, outs, AfterCompact(st, level, in0, in1, outs).levels)
  {
    CompactKeeps(st, history, level, in0, in1, outs);
    assert OutputNumbersOk(st.levels, level, in0, outs);
    InputsAreInputs(st.levels, level, in0, in1);
    DisjointIsOrdered(outs);
    InstallEditInstalls(st.levels, level, in0, in1, outs);
  }

  lemma InstallStepLogs(st: Store, ev: Event)
    requires Enabled(st, ev)
    requires ev.TrivialMove? || ev.Compact?
    requires var (level, in0, in1, outs) := if ev.TrivialMove? then (ev.level, [ev.file], [], [ev.file]) else (ev.level, ev.in0, ev.in1, ev.outs);
             Installs(st.levels, level, in0, in1, outs, Apply(st, ev).levels)
    ensures Logs(st.levels, EditOf(st, ev), Apply(st, ev).levels)
  {
    var after := Apply(st, ev).levels;
    if ev.TrivialMove? {
      InstallLogs(st.levels, ev.level, [ev.file], [], [ev.file], after);
    } else {
      InstallLogs(st.levels, ev.level, ev.in0, ev.in1, ev.outs, after);
    }
  }

  lemma StepLogs(st: Store, history: set<Entry>, ev: Event)
    requires StoreOk(st, history) && Enabled(st, ev)
    ensures Logs(st.levels, EditOf(st, ev), Apply(st, ev).levels)
  {
    match ev
    case FlushMemtable(level, size) =>
      FlushKeeps(st, history, level, size);
      FlushStepLogs(st, level, size);
    case TrivialMove(level, file) =>
      MoveInstalls(st, history, level, file);
      InstallStepLogs(st, ev);
    case Compact(level, in0, in1, outs) =>
      CompactInstalls(st, history, level, in0, in1, outs);
      InstallStepLogs(st, ev);
    case _ => NoChangeLogs(st.levels);
  }

  // ------------------------------------------------------------------ numbers only come once, and only sink

  /** A file a step adds to a level is brand new or comes from the level above. */
  ghost predicate Arrives(st: Store, f: File, l: nat) {
    f.number >= st.nextFile || (0 < l < NUM_LEVELS && f in st.levels[l - 1])
  }

  ghost predicate AllArrive(st: Store, files: seq<File>, l: nat) {
    DistinctNumbers(files) && forall f :: f in files ==> Arrives(st, f, l)
  }

  lemma MoveArrives(st: Store, level: nat, file: File, l: nat)
    requires level + 1 < NUM_LEVELS && file in st.levels[level]
    ensures AllArrive(st, AddedTo(Moved(level, [file], [], [file]).added, l), l)
  {
    MovedAt(level, [file], [], [file], l);
  }

  lemma CompactArrives(st: Store, level: nat, in0: seq<File>, in1: seq<File>, outs: seq<File>, l: nat)
    requires forall i :: 0 <= i < |outs| ==> outs[i].number == st.nextFile + i
    ensures AllArrive(st, AddedTo(Moved(level, in0, in1, outs).added, l), l)
  {
    MovedAt(level, in0, in1, outs, l);
  }

  lemma StepArrives(st: Store, ev: Event, l: nat)
    requires Enabled(st, ev)
    ensures AllArrive(st, AddedTo(EditOf(st, ev).added, l), l)
  {
    match ev
    case FlushMemtable(level, size) =>
      if st.imm.value != [] { OneFile(level, TableOf(st.imm.value, st.nextFile, size), l); }
    case TrivialMove(level, file) =>
      assert [file][0] in st.levels[level];
      MoveArrives(st, level, file, l);
    case Compact(level, in0, in1, outs) => CompactArrives(st, level, in0, in1, outs, l);
    case _ =>
  }

  lemma ArrivesFresh(edits: seq<Edit>, st: Store, f: File, l: nat)
    requires ManifestOk(edits, st) && l < NUM_LEVELS && Arrives(st, f, l)
    ensures f.number !in Held(EMPTY_LEVELS[l], edits, l)
  {
  }

  lemma HeldStays(st: Store, ev: Event, after: Store, l: nat, n: nat)
    requires Enabled(st, ev) && after == Apply(st, ev) && l < NUM_LEVELS && HeldOk(st, l, n)
    requires EveryLevelEdited(st.levels, EditOf(st, ev), after.levels)
    ensures HeldOk(after, l, n)
  {
    forall m, f | 0 <= m < NUM_LEVELS && f in after.levels[m] && f.number == n ensures l <= m {
      assert Edited(st.levels[m], EditOf(st, ev), m, after.levels[m]);
      if f !in st.levels[m] {
        StepArrives(st, ev, m);
        assert Arrives(st, f, m);
      }
    }
  }

  lemma NewIsHeld(before: Levels, edit: Edit, after: Store, l: nat, n: nat)
    requires l < NUM_LEVELS && n in Numbers(AddedTo(edit.added, l))
    requires EveryLevelEdited(before, edit, after.levels) && NumbersUnique(after.levels) && NumbersAllocated(after)
    ensures HeldOk(after, l, n)
  {
    var g :| g in AddedTo(edit.added, l) && g.number == n;
    assert Edited(before[l], edit, l, after.levels[l]);
    assert g in after.levels[l];
  }

  /** The numbers a level has held stay below the next one, and the files that carry them stay at that level or below. */
  lemma HeldStep(st: Store, ev: Event, after: Store, edits: seq<Edit>, l: nat, n: nat)
    requires Enabled(st, ev) && ManifestOk(edits, st) && after == Apply(st, ev) && l < NUM_LEVELS
    requires Logs(st.levels, EditOf(st, ev), after.levels) && NumbersUnique(after.levels) && NumbersAllocated(after)
    requires n in Held(EMPTY_LEVELS[l], edits, l) + Numbers(AddedTo(EditOf(st, ev).added, l))
    ensures HeldOk(after, l, n)
  {
    if n in Numbers(AddedTo(EditOf(st, ev).added, l)) {
      NewIsHeld(st.levels, EditOf(st, ev), after, l, n);
    } else {
      HeldStays(st, ev, after, l, n);
    }
  }

  lemma StepIsFresh(st: Store, ev: Event, edits: seq<Edit>, l: nat)
    requires Enabled(st, ev) && ManifestOk(edits, st) && l < NUM_LEVELS
    ensures var files := AddedTo(EditOf(st, ev).added, l);
            DistinctNumbers(files) && Numbers(files) !! Held(EMPTY_LEVELS[l], edits, l)
  {
    var files := AddedTo(EditOf(st, ev).added, l);
    StepArrives(st, ev, l);
    forall f | f in files ensures f.number !in Held(EMPTY_LEVELS[l], edits, l) {
      ArrivesFresh(edits, st, f, l);
    }
  }

  lemma FreshMore(edits: seq<Edit>, edit: Edit, l: nat)
    requires l < NUM_LEVELS && Fresh(EMPTY_LEVELS[l], edits, l) && DistinctNumbers(AddedTo(edit.added, l))
    requires Numbers(AddedTo(edit.added, l)) !! Held(EMPTY_LEVELS[l], edits, l)
    ensures Fresh(EMPTY_LEVELS[l], edits + [edit], l)
    ensures Held(EMPTY_LEVELS[l], edits + [edit], l) == Held(EMPTY_LEVELS[l], edits, l) + Numbers(AddedTo(edit.added, l))
  {
    assert (edits + [edit])[..|edits|] == edits;
  }

  /** The edit a step logs, replayed after the others, gives the levels the step gives. */
  lemma ReplayedStep(st: Store, ev: Event, after: Store, edits: seq<Edit>)
    requires Enabled(st, ev) && ManifestOk(edits, st) && Logs(st.levels, EditOf(st, ev), after.levels)
    ensures FreshEdits(EMPTY_LEVELS, edits + [EditOf(st, ev)])
    ensures Replayed(EMPTY_LEVELS, edits + [EditOf(st, ev)]) == after.levels
  {
    var edit := EditOf(st, ev);
    var all := edits + [edit];
    assert all[..|edits|] == edits;
    EmptyInOrder();
    forall l | 0 <= l < NUM_LEVELS ensures Fresh(EMPTY_LEVELS[l], all, l) && Replayed(st.levels, [edit])[l] == after.levels[l] {
      assert Fresh(EMPTY_LEVELS[l], edits, l);
      StepIsFresh(st, ev, edits, l);
      FreshMore(edits, edit, l);
      SavedIsOrdered(EMPTY_LEVELS[l], edits, l);
      assert EveryLevelEdited(st.levels, edit, after.levels);
      LevelEdited(st.levels[l], edit, l, Held(EMPTY_LEVELS[l], edits, l), after.levels[l]);
    }
    ReplayStep(EMPTY_LEVELS, all);
  }

  lemma EmptyInOrder()
    ensures AllInFileOrder(EMPTY_LEVELS)
  {
    EmptyLevels();
  }

  /** Every step of the store keeps the manifest in line with its levels. */
  lemma ManifestStep(st: Store, history: set<Entry>, ev: Event, edits: seq<Edit>)
    requires StoreOk(st, history) && Enabled(st, ev) && ManifestOk(edits, st)
    ensures ManifestOk(edits + [EditOf(st, ev)], Apply(st, ev))
  {
    var edit, after := EditOf(st, ev), Apply(st, ev);
    StepLogs(st, history, ev);
    StepKeeps(st, history, ev);
    ReplayedStep(st, ev, after, edits);
    forall l, n | 0 <= l < NUM_LEVELS && n in Held(EMPTY_LEVELS[l], edits + [edit], l) ensures HeldOk(after, l, n) {
      StepIsFresh(st, ev, edits, l);
      FreshMore(edits, edit, l);
      HeldStep(st, ev, after, edits, l, n);
    }
  }

  lemma SnapshotOk(st: Store, history: set<Entry>)
    requires StoreOk(st, history)
    ensures ManifestOk([Snapshot(st.levels)], st)
  {
    var edit := Snapshot(st.levels);
    LastEdit(edit);
    EmptyInOrder();
    VersionInOrder(st.levels);
    forall l | 0 <= l < NUM_LEVELS
      ensures Fresh(EMPTY_LEVELS[l], [edit], l) && Held(EMPTY_LEVELS[l], [edit], l) == Numbers(st.levels[l])
      ensures Replayed(EMPTY_LEVELS, [edit])[l] == st.levels[l]
    {
      SnapshotLevel(st.levels, l);
    }
    forall l, n | 0 <= l < NUM_LEVELS && n in Held(EMPTY_LEVELS[l], [edit], l) ensures HeldOk(st, l, n) {
      var f :| f in st.levels[l] && f.number == n;
    }
  }

  lemma SnapshotLevel(levels: Levels, l: nat)
    requires VersionOk(levels) && l < NUM_LEVELS && InFileOrder(levels[l])
    ensures var edit := Snapshot(levels);
            && Fresh(EMPTY_LEVELS[l], [edit], l) && Held(EMPTY_LEVELS[l], [edit], l) == Numbers(levels[l])
            && Saved(EMPTY_LEVELS[l], Built([edit], l)) == levels[l]
  {
    var edit := Snapshot(levels);
    LastEdit(edit);
    EmptyLevels();
    SnapshotAdds(levels, NUM_LEVELS, l);
    assert EMPTY_LEVELS[l] == [] && Held([], [], l) == {} && Fresh([], [], l);
    assert DeletedFrom(edit, l) == {};
    assert DistinctNumbers(levels[l]) by { OrderedDistinct(levels, l); }
    LevelEdited([], edit, l, {}, levels[l]);
  }

  lemma OrderedDistinct(levels: Levels, l: nat)
    requires NumbersUnique(levels) && l < NUM_LEVELS && InFileOrder(levels[l])
    ensures DistinctNumbers(levels[l])
  {
    var files := levels[l];
    forall i, j | 0 <= i < j < |files| ensures files[i].number != files[j].number {
      assert FileLess(files[i], files[j]);
      assert files[i] in files && files[j] in files;
    }
  }

  /** The edits of a run. */
  ghost function EditsOf(st: Store, events: seq<Event>): seq<Edit>
    requires RunEnabled(st, events)
    decreases events
  {
    if events == [] then [] else [EditOf(st, events[0])] + EditsOf(Apply(st, events[0]), events[1..])
  }

  lemma {:induction false} RunManifest(st: Store, history: set<Entry>, events: seq<Event>, edits: seq<Edit>)
    requires StoreOk(st, history) && RunEnabled(st, events) && ManifestOk(edits, st)
    ensures ManifestOk(edits + EditsOf(st, events), EndOfRun(st, events))
    decreases events
  {
    if events == [] {
      assert edits + EditsOf(st, events) == edits;
    } else {
      var edit := EditOf(st, events[0]);
      ManifestStep(st, history, events[0], edits);
      StepKeeps(st, history, events[0]);
      RunManifest(Apply(st, events[0]), HistoryAfter(st, history, events[0]), events[1..], edits + [edit]);
      ConcatAssoc(edits, [edit], EditsOf(Apply(st, events[0]), events[1..]));
    }
  }

  /** Whatever the store does after a manifest was started, replaying that manifest in one builder, as opening the database
      does, gives the levels the store has. */
  lemma ManifestIsCurrent(st: Store, history: set<Entry>, events: seq<Event>)
    requires StoreOk(st, history) && RunEnabled(st, events)
    ensures Replayed(EMPTY_LEVELS, [Snapshot(st.levels)] + EditsOf(st, events)) == EndOfRun(st, events).levels
  {
    SnapshotOk(st, history);
    RunManifest(st, history, events, [Snapshot(st.levels)]);
  }
}
