/** Installing new versions: every edit LevelDB logs keeps the structure of the levels (db/db_impl.cc, db/version_set.cc). */
module Install {
  import opened Common
  import opened Keys
  import opened Version
  import opened Inputs
  import opened Builder

  /** File numbers are allocated once, so a number names one file of one level. */
  ghost predicate NumbersUnique(levels: Levels) {
    forall l, m, f, g ::
      0 <= l < NUM_LEVELS && 0 <= m < NUM_LEVELS && f in levels[l] && g in levels[m] && f.number == g.number ==>
        l == m && f == g
  }

  ghost predicate VersionOk(levels: Levels) {
    && LevelsOk(levels) && NumbersUnique(levels) && InFileOrder(levels[0])
    && UniqueEntries(AllContent(levels))
  }

  function Numbers(files: seq<File>): set<nat> {
    set f | f in files :: f.number
  }

  lemma LevelInAll(levels: Levels)
    ensures forall l :: 0 <= l < NUM_LEVELS ==> FilesContent(levels[l]) <= AllContent(levels)
  {
  }

  lemma VersionLevelsUnique(levels: Levels)
    requires VersionOk(levels)
    ensures LevelsUnique(levels)
  {
    LevelInAll(levels);
  }

  // ------------------------------------------------------------------ replacing inputs by outputs

  /** The edit of a compaction (or a move): at `level` the files in0 go, at `level + 1` the files in1 go and outs come. */
  function InstallEdit(levels: Levels, level: nat, in0: seq<File>, in1: seq<File>, outs: seq<File>): Levels
    requires level + 1 < NUM_LEVELS
  {
    levels[level := SaveLevel(levels[level], [], Numbers(in0))]
          [level + 1 := SaveLevel(levels[level + 1], outs, Numbers(in1))]
  }

  ghost predicate Installed(levels: Levels, after: Levels, level: nat, in0: seq<File>, in1: seq<File>, outs: seq<File>) {
    && level + 1 < NUM_LEVELS
    && (forall l :: 0 <= l < NUM_LEVELS && l != level && l != level + 1 ==> after[l] == levels[l])
    && (forall f :: f in after[level] <==> f in levels[level] && f !in in0)
    && (forall f :: f in after[level + 1] <==> (f in levels[level + 1] && f !in in1) || f in outs)
    && InFileOrder(after[level]) && InFileOrder(after[level + 1])
  }

  /** The outputs carry numbers no file of the version has, except perhaps an input of `level` that simply moves down. */
  ghost predicate OutputNumbersOk(levels: Levels, level: nat, in0: seq<File>, outs: seq<File>) {
    && (forall i, j :: 0 <= i < j < |outs| ==> outs[i].number != outs[j].number)
    && forall l, f, o :: 0 <= l < NUM_LEVELS && f in levels[l] && o in outs && f.number == o.number ==>
                           l == level && f in in0
  }

  lemma InstallEditInstalls(levels: Levels, level: nat, in0: seq<File>, in1: seq<File>, outs: seq<File>)
    requires VersionOk(levels) && InputsOf(levels, level, in0, in1)
    requires OutputNumbersOk(levels, level, in0, outs) && InFileOrder(outs)
    ensures Installed(levels, InstallEdit(levels, level, in0, in1, outs), level, in0, in1, outs)
  {
    if level > 0 { DisjointIsOrdered(levels[level]); }
    DisjointIsOrdered(levels[level + 1]);
    SaveLevelMembers(levels[level], [], Numbers(in0));
    SaveLevelOrdered(levels[level], [], Numbers(in0));
    SaveLevelMembers(levels[level + 1], outs, Numbers(in1));
    SaveLevelOrdered(levels[level + 1], outs, Numbers(in1));
    forall f | f in levels[level] ensures f.number in Numbers(in0) <==> f in in0 {
    }
    forall f | f in levels[level + 1] ensures f.number in Numbers(in1) <==> f in in1 {
    }
    forall o | o in outs ensures o.number !in Numbers(in1) {
    }
  }

  ghost function InputContent(in0: seq<File>, in1: seq<File>): set<Entry> {
    FilesContent(in0) + FilesContent(in1)
  }

  /** File `f` of level `l` is not an input. */
  predicate Outside(level: nat, in0: seq<File>, in1: seq<File>, l: nat, f: File) {
    !(l == level && f in in0) && !(l == level + 1 && f in in1)
  }

  /** Everything in the version that is not an input. */
  ghost function RestContent(levels: Levels, level: nat, in0: seq<File>, in1: seq<File>): set<Entry> {
    set l, f, e | 0 <= l < NUM_LEVELS && f in levels[l] && Outside(level, in0, in1, l, f) && e in f.entries :: e
  }

  ghost predicate InputsOf(levels: Levels, level: nat, in0: seq<File>, in1: seq<File>) {
    && level + 1 < NUM_LEVELS
    && (forall f :: f in in0 ==> f in levels[level])
    && (forall f :: f in in1 ==> f in levels[level + 1])
  }

  lemma ContentSplits(levels: Levels, level: nat, in0: seq<File>, in1: seq<File>)
    requires LevelsOk(levels) && InputsOf(levels, level, in0, in1)
    ensures AllContent(levels) == InputContent(in0, in1) + RestContent(levels, level, in0, in1)
    ensures InputContent(in0, in1) !! RestContent(levels, level, in0, in1)
  {
    var inputs, rest := InputContent(in0, in1), RestContent(levels, level, in0, in1);
    forall e | e in AllContent(levels) ensures e in inputs + rest {
      var l :| 0 <= l < NUM_LEVELS && e in FilesContent(levels[l]);
      var f :| f in levels[l] && e in f.entries;
      assert Outside(level, in0, in1, l, f) ==> e in rest;
    }
    forall e | e in rest ensures e in AllContent(levels) && e !in inputs {
      RestIsRest(levels, level, in0, in1, e);
    }
    forall e | e in inputs ensures e in AllContent(levels) {
      var m, g := OwnerOf(levels, level, in0, in1, e);
      assert e in FilesContent(levels[m]);
    }
  }

  lemma RestIsRest(levels: Levels, level: nat, in0: seq<File>, in1: seq<File>, e: Entry)
    requires LevelsOk(levels) && InputsOf(levels, level, in0, in1)
    requires e in RestContent(levels, level, in0, in1)
    ensures e in AllContent(levels) && e !in InputContent(in0, in1)
  {
    var l, f :| 0 <= l < NUM_LEVELS && f in levels[l] && Outside(level, in0, in1, l, f) && e in f.entries;
    assert e in FilesContent(levels[l]);
    if e in InputContent(in0, in1) {
      var m, g := OwnerOf(levels, level, in0, in1, e);
      OneOwner(levels, l, f, m, g, e);
    }
  }

  lemma OwnerOf(levels: Levels, level: nat, in0: seq<File>, in1: seq<File>, e: Entry) returns (m: nat, g: File)
    requires InputsOf(levels, level, in0, in1) && e in InputContent(in0, in1)
    ensures m < NUM_LEVELS && g in levels[m] && e in g.entries
    ensures (m == level && g in in0) || (m == level + 1 && g in in1)
  {
    if e in FilesContent(in0) {
      m := level;
      g :| g in in0 && e in g.entries;
    } else {
      m := level + 1;
      g :| g in in1 && e in g.entries;
    }
  }

  /** An entry is stored in one file only. */
  lemma OneOwner(levels: Levels, l: nat, f: File, m: nat, g: File, e: Entry)
    requires LevelsOk(levels) && l < NUM_LEVELS && m < NUM_LEVELS
    requires f in levels[l] && g in levels[m] && e in f.entries && e in g.entries
    ensures l == m && f == g
  {
    assert e in FilesContent(levels[l]) && e in FilesContent(levels[m]);
    if l == m && f != g {
      var i :| 0 <= i < |levels[l]| && levels[l][i] == f;
      var j :| 0 <= j < |levels[l]| && levels[l][j] == g;
      if l == 0 {
      } else {
        EntryWithinFile(f, e);
        EntryWithinFile(g, e);
      }
    }
  }

  lemma InstalledContent(levels: Levels, after: Levels, level: nat, in0: seq<File>, in1: seq<File>, outs: seq<File>)
    requires Installed(levels, after, level, in0, in1, outs)
    ensures AllContent(after) == FilesContent(outs) + RestContent(levels, level, in0, in1)
  {
    var rest := RestContent(levels, level, in0, in1);
    forall e | e in AllContent(after) ensures e in FilesContent(outs) || e in rest {
      var l :| 0 <= l < NUM_LEVELS && e in FilesContent(after[l]);
      var f :| f in after[l] && e in f.entries;
      if f !in outs { assert f in levels[l] && Outside(level, in0, in1, l, f); }
    }
    forall e | e in rest ensures e in AllContent(after) {
      var l, f :| 0 <= l < NUM_LEVELS && f in levels[l] && Outside(level, in0, in1, l, f) && e in f.entries;
      assert f in after[l];
      assert e in FilesContent(after[l]);
    }
    forall e | e in FilesContent(outs) ensures e in AllContent(after) {
      var f :| f in outs && e in f.entries;
      assert f in after[level + 1];
      assert e in FilesContent(after[level + 1]);
    }
  }

  // ------------------------------------------------------------------ the structure survives

  /** Every file of the lower level that was left alone lies entirely to one side of everything compacted. */
  lemma OutsideHull(levels: Levels, level: nat, in0: seq<File>, in1: seq<File>, h: File)
    requires LevelsOk(levels) && InputsOk(levels, level, in0, in1)
    requires h in levels[level + 1] && h !in in1
    ensures (forall e :: e in InputContent(in0, in1) ==> Less(h.largest, e.key))
            || forall e :: e in InputContent(in0, in1) ==> Less(e.key, h.smallest)
  {
    var below := levels[level + 1];
    var a, b := SmallestKey(in0).user, LargestKey(in0).user;
    FilterMembers(below, Some(a), Some(b));
    var k :| 0 <= k < |below| && below[k] == h;
    assert h.largest.user < a || h.smallest.user > b;
    forall e | e in InputContent(in0, in1)
      ensures if h.largest.user < a then Less(h.largest, e.key) else Less(e.key, h.smallest)
    {
      if e in FilesContent(in0) {
        InputWithinHull(levels, level, in0, e);
      } else {
        var g :| g in in1 && e in g.entries;
        BesideInput(below, a, b, g, h, e);
      }
    }
  }

  /** A file outside [a, b] lies beside every file of its level that meets [a, b]. */
  lemma BesideInput(below: seq<File>, a: UserKey, b: UserKey, g: File, h: File, e: Entry)
    requires SortedLevel(below) && g in below && h in below && e in g.entries
    requires Overlaps(g, Some(a), Some(b)) && (h.largest.user < a || h.smallest.user > b)
    ensures if h.largest.user < a then Less(h.largest, e.key) else Less(e.key, h.smallest)
  {
    var k :| 0 <= k < |below| && below[k] == h;
    var j :| 0 <= j < |below| && below[j] == g;
    assert FileOk(g) && FileOk(h);
    EntryWithinFile(g, e);
  }

  lemma InputWithinHull(levels: Levels, level: nat, in0: seq<File>, e: Entry)
    requires LevelsOk(levels) && level < NUM_LEVELS && in0 != [] && forall f :: f in in0 ==> f in levels[level]
    requires e in FilesContent(in0)
    ensures SmallestKey(in0).user <= e.key.user <= LargestKey(in0).user
  {
    var f :| f in in0 && e in f.entries;
    var i :| 0 <= i < |in0| && in0[i] == f;
    assert FileOk(f);
    EntryWithinFile(f, e);
    var _, _ := RangeIsTight(in0);
  }

  /** What a compaction or a move may put into the lower level. */
  ghost predicate OutputsOk(in0: seq<File>, in1: seq<File>, outs: seq<File>) {
    && SortedLevel(outs)
    && FilesContent(outs) <= InputContent(in0, in1)
  }

  lemma InputsAreInputs(levels: Levels, level: nat, in0: seq<File>, in1: seq<File>)
    requires InputsOk(levels, level, in0, in1)
    ensures InputsOf(levels, level, in0, in1)
  {
    FilterMembers(levels[level + 1], Some(SmallestKey(in0).user), Some(LargestKey(in0).user));
  }

  lemma LowerLevelSorted(levels: Levels, after: Levels, level: nat, in0: seq<File>, in1: seq<File>, outs: seq<File>)
    requires LevelsOk(levels) && InputsOk(levels, level, in0, in1) && OutputsOk(in0, in1, outs)
    requires Installed(levels, after, level, in0, in1, outs)
    ensures SortedLevel(after[level + 1])
  {
    var files := after[level + 1];
    RangesFollowFiles(files);
    forall f, g | f in files && g in files && f != g
      ensures Less(f.largest, g.smallest) || Less(g.largest, f.smallest)
    {
      if f !in outs && g !in outs {
        var i :| 0 <= i < |levels[level + 1]| && levels[level + 1][i] == f;
        var j :| 0 <= j < |levels[level + 1]| && levels[level + 1][j] == g;
      } else if f in outs && g in outs {
        var i :| 0 <= i < |outs| && outs[i] == f;
        var j :| 0 <= j < |outs| && outs[j] == g;
      } else if f in outs {
        OutsideHull(levels, level, in0, in1, g);
        OutputBeside(InputContent(in0, in1), outs, f, g);
      } else {
        OutsideHull(levels, level, in0, in1, f);
        OutputBeside(InputContent(in0, in1), outs, g, f);
      }
    }
    OrderedDisjoint(files);
  }

  lemma OutputBeside(inputs: set<Entry>, outs: seq<File>, o: File, h: File)
    requires o in outs && FileOk(o) && FilesContent(outs) <= inputs
    requires (forall e :: e in inputs ==> Less(h.largest, e.key)) || forall e :: e in inputs ==> Less(e.key, h.smallest)
    ensures Less(h.largest, o.smallest) || Less(o.largest, h.smallest)
  {
    var first, last := o.entries[0], o.entries[|o.entries| - 1];
    assert first in o.entries && last in o.entries;
    assert first in FilesContent(outs) && last in FilesContent(outs);
  }

  lemma UpperLevelSorted(levels: Levels, after: Levels, level: nat, in0: seq<File>, in1: seq<File>, outs: seq<File>)
    requires LevelsOk(levels) && Installed(levels, after, level, in0, in1, outs) && NumbersUnique(levels)
    ensures if level == 0 then LevelZeroOk(after[0]) else SortedLevel(after[level])
  {
    var files := after[level];
    if level == 0 {
      forall i, j | 0 <= i < j < |files| ensures files[i].number != files[j].number {
        assert FileLess(files[i], files[j]);
        assert files[i] in levels[0] && files[j] in levels[0];
      }
    } else {
      RangesFollowFiles(files);
      forall f, g | f in files && g in files && f != g
        ensures Less(f.largest, g.smallest) || Less(g.largest, f.smallest)
      {
        var i :| 0 <= i < |levels[level]| && levels[level][i] == f;
        var j :| 0 <= j < |levels[level]| && levels[level][j] == g;
      }
      OrderedDisjoint(files);
    }
  }

  /** An entry of the new upper level is newer than anything of its user key that was compacted. */
  lemma LeftBehindIsNewer(levels: Levels, after: Levels, level: nat, in0: seq<File>, in1: seq<File>, outs: seq<File>, x: Entry, y: Entry)
    requires LevelsOk(levels) && InputsOk(levels, level, in0, in1)
    requires Installed(levels, after, level, in0, in1, outs)
    requires x in FilesContent(after[level]) && y in InputContent(in0, in1) && x.key.user == y.key.user
    ensures x.key.seqno > y.key.seqno
  {
    InputsAreInputs(levels, level, in0, in1);
    var g :| g in after[level] && x in g.entries;
    assert x in FilesContent(levels[level]);
    if y in FilesContent(in0) {
      var f :| f in in0 && y in f.entries;
      assert NewerFor(Content(g.entries), Content(f.entries));
      assert x in Content(g.entries) && y in Content(f.entries);
    } else {
      assert y in FilesContent(levels[level + 1]);
    }
  }

  /** Where an entry of the new version was before. */
  lemma CameFrom(levels: Levels, after: Levels, level: nat, in0: seq<File>, in1: seq<File>, outs: seq<File>, l: nat, x: Entry)
    requires InputsOk(levels, level, in0, in1) && OutputsOk(in0, in1, outs)
    requires Installed(levels, after, level, in0, in1, outs) && l < NUM_LEVELS
    requires x in FilesContent(after[l])
    ensures l != level + 1 ==> x in FilesContent(levels[l])
    ensures l == level + 1 ==> x in FilesContent(levels[l]) || x in InputContent(in0, in1)
    ensures l == level + 1 ==> x in FilesContent(levels[l]) || x in FilesContent(levels[level])
  {
    InputsAreInputs(levels, level, in0, in1);
    var f :| f in after[l] && x in f.entries;
    if f in outs && l == level + 1 {
      assert x in FilesContent(outs);
      var m, g := OwnerOf(levels, level, in0, in1, x);
      assert x in FilesContent(levels[m]);
    }
  }

  lemma LevelsStayOrdered(levels: Levels, after: Levels, level: nat, in0: seq<File>, in1: seq<File>, outs: seq<File>, a: nat, b: nat)
    requires LevelsOk(levels) && InputsOk(levels, level, in0, in1) && OutputsOk(in0, in1, outs)
    requires Installed(levels, after, level, in0, in1, outs) && a < b < NUM_LEVELS
    ensures NewerFor(FilesContent(after[a]), FilesContent(after[b]))
  {
    forall x, y | x in FilesContent(after[a]) && y in FilesContent(after[b]) && x.key.user == y.key.user
      ensures x.key.seqno > y.key.seqno
    {
      CameFrom(levels, after, level, in0, in1, outs, a, x);
      CameFrom(levels, after, level, in0, in1, outs, b, y);
      if a == level && b == level + 1 && y in InputContent(in0, in1) {
        LeftBehindIsNewer(levels, after, level, in0, in1, outs, x, y);
      }
    }
  }

  lemma InstallKeepsStructure(levels: Levels, after: Levels, level: nat, in0: seq<File>, in1: seq<File>, outs: seq<File>)
    requires VersionOk(levels) && InputsOk(levels, level, in0, in1) && OutputsOk(in0, in1, outs)
    requires Installed(levels, after, level, in0, in1, outs)
    ensures LevelsOk(after) && InFileOrder(after[0])
  {
    LowerLevelSorted(levels, after, level, in0, in1, outs);
    UpperLevelSorted(levels, after, level, in0, in1, outs);
    forall a, b | 0 <= a < b < NUM_LEVELS ensures NewerFor(FilesContent(after[a]), FilesContent(after[b])) {
      LevelsStayOrdered(levels, after, level, in0, in1, outs, a, b);
    }
    forall l | 1 <= l < NUM_LEVELS ensures SortedLevel(after[l]) {
      assert l != level && l != level + 1 ==> after[l] == levels[l];
    }
    assert level != 0 ==> after[0] == levels[0];
  }

  /** Compaction install and trivial move keep the store's structure. That holds for every choice SetupOtherInputs
      makes; closure of the inputs at the lower level is not needed for it. */
  lemma InstallKeepsVersion(levels: Levels, level: nat, in0: seq<File>, in1: seq<File>, outs: seq<File>)
    requires VersionOk(levels) && InputsOk(levels, level, in0, in1) && OutputsOk(in0, in1, outs)
    requires OutputNumbersOk(levels, level, in0, outs)
    ensures VersionOk(InstallEdit(levels, level, in0, in1, outs))
    ensures AllContent(levels) == InputContent(in0, in1) + RestContent(levels, level, in0, in1)
    ensures InputContent(in0, in1) !! RestContent(levels, level, in0, in1)
    ensures AllContent(InstallEdit(levels, level, in0, in1, outs)) == FilesContent(outs) + RestContent(levels, level, in0, in1)
  {
    var after := InstallEdit(levels, level, in0, in1, outs);
    InputsAreInputs(levels, level, in0, in1);
    DisjointIsOrdered(outs);
    InstallEditInstalls(levels, level, in0, in1, outs);
    InstallKeepsStructure(levels, after, level, in0, in1, outs);
    ContentSplits(levels, level, in0, in1);
    InstalledContent(levels, after, level, in0, in1, outs);
    InstalledNumbers(levels, after, level, in0, in1, outs);
    UniqueSubset(AllContent(levels), AllContent(after));
  }

  lemma UniqueSubset(a: set<Entry>, b: set<Entry>)
    requires UniqueEntries(a) && b <= a
    ensures UniqueEntries(b)
  {
  }

  lemma InstalledNumbers(levels: Levels, after: Levels, level: nat, in0: seq<File>, in1: seq<File>, outs: seq<File>)
    requires NumbersUnique(levels) && OutputNumbersOk(levels, level, in0, outs)
    requires Installed(levels, after, level, in0, in1, outs)
    ensures NumbersUnique(after)
  {
    forall l, m, f, g | 0 <= l < NUM_LEVELS && 0 <= m < NUM_LEVELS && f in after[l] && g in after[m] && f.number == g.number
      ensures l == m && f == g
    {
      if f in outs && g in outs && l == level + 1 && m == level + 1 {
        var i :| 0 <= i < |outs| && outs[i] == f;
        var j :| 0 <= j < |outs| && outs[j] == g;
      }
    }
  }

  // ------------------------------------------------------------------ flushing a memtable

  function FlushEdit(levels: Levels, level: nat, f: File): Levels
    requires level < NUM_LEVELS
  {
    levels[level := SaveLevel(levels[level], [f], {})]
  }

  /** The table of a flushed memtable: newer than everything stored, the highest number, and, if it skips level 0,
      clear of every file down to the level it goes to. */
  ghost predicate FlushOk(levels: Levels, level: nat, f: File) {
    && level < NUM_LEVELS && FileOk(f) && UniqueEntries(Content(f.entries))
    && NewerFor(Content(f.entries), AllContent(levels))
    && (forall l, g :: 0 <= l < NUM_LEVELS && g in levels[l] ==> g.number < f.number)
    && (level > 0 ==> forall l :: 0 <= l <= level ==> !SomeOverlap(levels[l], Some(f.smallest.user), Some(f.largest.user)))
  }

  lemma ClearOf(files: seq<File>, f: File)
    requires FilesOk(files) && FileOk(f) && !SomeOverlap(files, Some(f.smallest.user), Some(f.largest.user))
    ensures forall x, y :: x in FilesContent(files) && y in f.entries ==> x.key.user != y.key.user
    ensures forall g :: g in files ==> Less(g.largest, f.smallest) || Less(f.largest, g.smallest)
  {
    forall x, y | x in FilesContent(files) && y in f.entries ensures x.key.user != y.key.user {
      var g :| g in files && x in g.entries;
      EntryWithinFile(g, x);
      EntryWithinFile(f, y);
      assert !Overlaps(g, Some(f.smallest.user), Some(f.largest.user));
    }
    forall g | g in files ensures Less(g.largest, f.smallest) || Less(f.largest, g.smallest) {
      assert !Overlaps(g, Some(f.smallest.user), Some(f.largest.user));
    }
  }

  lemma FlushMembers(levels: Levels, level: nat, f: File)
    requires VersionOk(levels) && FlushOk(levels, level, f)
    ensures forall g :: g in FlushEdit(levels, level, f)[level] <==> g in levels[level] || g == f
    ensures InFileOrder(FlushEdit(levels, level, f)[level])
    ensures FilesContent(FlushEdit(levels, level, f)[level]) == FilesContent(levels[level]) + Content(f.entries)
  {
    if level > 0 { DisjointIsOrdered(levels[level]); }
    SaveLevelMembers(levels[level], [f], {});
    SaveLevelOrdered(levels[level], [f], {});
  }

  lemma FlushedLevel(levels: Levels, level: nat, f: File)
    requires VersionOk(levels) && FlushOk(levels, level, f)
    ensures var files := FlushEdit(levels, level, f)[level];
            if level == 0 then LevelZeroOk(files) else SortedLevel(files)
  {
    FlushMembers(levels, level, f);
    var before, files := levels[level], FlushEdit(levels, level, f)[level];
    if level == 0 {
      forall i, j | 0 <= i < j < |files| ensures files[i].number != files[j].number {
        assert FileLess(files[i], files[j]);
        assert files[i] in files && files[j] in files;
      }
      forall g, h | g in files && h in files && g.number > h.number
        ensures NewerFor(Content(g.entries), Content(h.entries))
      {
        if g == f {
          LevelInAll(levels);
          assert Content(h.entries) <= FilesContent(before);
        }
      }
    } else {
      RangesFollowFiles(files);
      ClearOf(before, f);
      forall g, h | g in files && h in files && g != h ensures Less(g.largest, h.smallest) || Less(h.largest, g.smallest) {
        if g != f && h != f {
          var i :| 0 <= i < |before| && before[i] == g;
          var j :| 0 <= j < |before| && before[j] == h;
        }
      }
      OrderedDisjoint(files);
    }
  }

  lemma NewerUnion(a: set<Entry>, b: set<Entry>, f: set<Entry>)
    requires NewerFor(a, b)
    ensures NewerFor(f, b) ==> NewerFor(a + f, b)
    ensures NewerFor(a, f) ==> NewerFor(a, b + f)
  {
  }

  lemma FlushedOrder(levels: Levels, level: nat, f: File, a: nat, b: nat)
    requires LevelsOk(levels) && FlushOk(levels, level, f) && a < b < NUM_LEVELS
    ensures a == level ==> NewerFor(FilesContent(levels[a]) + Content(f.entries), FilesContent(levels[b]))
    ensures b == level ==> NewerFor(FilesContent(levels[a]), FilesContent(levels[b]) + Content(f.entries))
  {
    var upper, lower, flushed := FilesContent(levels[a]), FilesContent(levels[b]), Content(f.entries);
    NewerUnion(upper, lower, flushed);
    if a == level {
      LevelInAll(levels);
      assert NewerFor(flushed, lower);
    }
    if b == level {
      ClearOf(levels[a], f);
      assert NewerFor(upper, flushed);
    }
  }

  lemma FlushedNumbers(levels: Levels, after: Levels, level: nat, f: File)
    requires NumbersUnique(levels)
    requires forall l, g :: 0 <= l < NUM_LEVELS && g in levels[l] ==> g.number < f.number
    requires forall l, g :: 0 <= l < NUM_LEVELS && g in after[l] ==> g in levels[l] || (l == level && g == f)
    ensures NumbersUnique(after)
  {
    forall l, m, g, h | 0 <= l < NUM_LEVELS && 0 <= m < NUM_LEVELS && g in after[l] && h in after[m] && g.number == h.number
      ensures l == m && g == h
    {
    }
  }

  lemma FlushedContent(after: Levels, levels: Levels, level: nat, f: File)
    requires level < NUM_LEVELS && after == levels[level := after[level]]
    requires FilesContent(after[level]) == FilesContent(levels[level]) + Content(f.entries)
    ensures AllContent(after) == AllContent(levels) + Content(f.entries)
  {
    forall e | e in AllContent(after) ensures e in AllContent(levels) + Content(f.entries) {
      var l :| 0 <= l < NUM_LEVELS && e in FilesContent(after[l]);
      assert l != level ==> e in FilesContent(levels[l]);
    }
    forall e | e in AllContent(levels) ensures e in AllContent(after) {
      var l :| 0 <= l < NUM_LEVELS && e in FilesContent(levels[l]);
      assert e in FilesContent(after[l]);
    }
    forall e | e in Content(f.entries) ensures e in AllContent(after) {
      assert e in FilesContent(after[level]);
    }
  }

  lemma UniqueUnion(newer: set<Entry>, older: set<Entry>)
    requires UniqueEntries(newer) && UniqueEntries(older) && NewerFor(newer, older)
    ensures UniqueEntries(older + newer)
  {
  }

  /** CompactMemTable: the flushed table goes to the level PickLevelForMemTableOutput chose and the structure stays. */
  lemma FlushKeepsVersion(levels: Levels, level: nat, f: File)
    requires VersionOk(levels) && FlushOk(levels, level, f)
    ensures VersionOk(FlushEdit(levels, level, f))
    ensures AllContent(FlushEdit(levels, level, f)) == AllContent(levels) + Content(f.entries)
  {
    var after := FlushEdit(levels, level, f);
    FlushMembers(levels, level, f);
    FlushedContent(after, levels, level, f);
    UniqueUnion(Content(f.entries), AllContent(levels));
    FlushedNumbers(levels, after, level, f);
    FlushKeepsLevels(levels, level, f);
  }

  lemma ReplaceOneLevel(levels: Levels, level: nat, files: seq<File>)
    requires LevelsOk(levels) && level < NUM_LEVELS
    requires if level == 0 then LevelZeroOk(files) else SortedLevel(files)
    requires forall a :: 0 <= a < level ==> NewerFor(FilesContent(levels[a]), FilesContent(files))
    requires forall b :: level < b < NUM_LEVELS ==> NewerFor(FilesContent(files), FilesContent(levels[b]))
    ensures LevelsOk(levels[level := files])
  {
  }

  lemma FlushKeepsLevels(levels: Levels, level: nat, f: File)
    requires VersionOk(levels) && FlushOk(levels, level, f)
    ensures LevelsOk(FlushEdit(levels, level, f)) && InFileOrder(FlushEdit(levels, level, f)[0])
  {
    FlushMembers(levels, level, f);
    FlushedLevel(levels, level, f);
    var files := FlushEdit(levels, level, f)[level];
    forall a | 0 <= a < level ensures NewerFor(FilesContent(levels[a]), FilesContent(files)) {
      FlushedOrder(levels, level, f, a, level);
    }
    forall b | level < b < NUM_LEVELS ensures NewerFor(FilesContent(files), FilesContent(levels[b])) {
      FlushedOrder(levels, level, f, level, b);
    }
    ReplaceOneLevel(levels, level, files);
  }
}
