/** Versions: the table files of each level and the lookup through them (db/version_set.cc). */
module Version {
  import opened Common
  import opened Keys

  const NUM_LEVELS := 7
  const MAX_MEM_COMPACT_LEVEL := 2

  /** FileMetaData together with the entries of the table it names. */
  datatype File = File(number: nat, size: nat, smallest: InternalKey, largest: InternalKey, entries: seq<Entry>)

  type Levels = ls: seq<seq<File>> | |ls| == NUM_LEVELS witness seq(NUM_LEVELS, _ => [])

  ghost predicate FileOk(f: File) {
    && f.entries != [] && Sorted(f.entries)
    && f.smallest == f.entries[0].key && f.largest == f.entries[|f.entries| - 1].key
  }

  ghost predicate FilesOk(files: seq<File>) {
    forall f :: f in files ==> FileOk(f)
  }

  ghost predicate RangesOk(files: seq<File>) {
    forall i :: 0 <= i < |files| ==> !Less(files[i].largest, files[i].smallest)
  }

  /** Files in key order, no two of them overlapping. */
  ghost predicate DisjointRanges(files: seq<File>) {
    && RangesOk(files)
    && forall i, j :: 0 <= i < j < |files| ==> Less(files[i].largest, files[j].smallest)
  }

  /** The shape of every level above 0. */
  ghost predicate SortedLevel(files: seq<File>) {
    FilesOk(files) && DisjointRanges(files)
  }

  ghost function FilesContent(files: seq<File>): set<Entry> {
    set f, e | f in files && e in f.entries :: e
  }

  ghost function AllContent(levels: Levels): set<Entry> {
    set l, e | 0 <= l < NUM_LEVELS && e in FilesContent(levels[l]) :: e
  }

  /** For one user key, everything in `a` is newer than everything in `b`. */
  ghost predicate NewerFor(a: set<Entry>, b: set<Entry>) {
    forall x, y :: x in a && y in b && x.key.user == y.key.user ==> x.key.seqno > y.key.seqno
  }

  ghost predicate DistinctNumbers(files: seq<File>) {
    forall i, j :: 0 <= i < j < |files| ==> files[i].number != files[j].number
  }

  /** Level 0 is the one level whose files may overlap: there the larger file number holds the newer entries. */
  ghost predicate LevelZeroOk(files: seq<File>) {
    && FilesOk(files)
    && DistinctNumbers(files)
    && forall f, g :: f in files && g in files && f.number > g.number ==> NewerFor(Content(f.entries), Content(g.entries))
  }

  /** The structural invariant of a version: entries never hop across levels. */
  ghost predicate LevelsOk(levels: Levels) {
    && LevelZeroOk(levels[0])
    && (forall l :: 1 <= l < NUM_LEVELS ==> SortedLevel(levels[l]))
    && forall a, b :: 0 <= a < b < NUM_LEVELS ==> NewerFor(FilesContent(levels[a]), FilesContent(levels[b]))
  }

  /** The user-key range of `f` meets [lo, hi]; an absent bound is unbounded. */
  predicate Overlaps(f: File, lo: Option<UserKey>, hi: Option<UserKey>) {
    && (lo.Some? ==> f.largest.user >= lo.value)
    && (hi.Some? ==> f.smallest.user <= hi.value)
  }

  lemma EntryWithinFile(f: File, e: Entry)
    requires FileOk(f) && e in f.entries
    ensures f.smallest == e.key || Less(f.smallest, e.key)
    ensures e.key == f.largest || Less(e.key, f.largest)
    ensures f.smallest.user <= e.key.user <= f.largest.user
  {
    var i :| 0 <= i < |f.entries| && f.entries[i] == e;
    if i > 0 { assert Less(f.entries[0].key, f.entries[i].key); }
    if i < |f.entries| - 1 { assert Less(f.entries[i].key, f.entries[|f.entries| - 1].key); }
  }

  // ------------------------------------------------------------------ searching a level

  /** FindFile: binary search for the first file whose largest key is at or after `key`. */
  method FindFile(files: seq<File>, key: InternalKey) returns (right: nat)
    requires DisjointRanges(files)
    ensures right <= |files|
    ensures forall i :: 0 <= i < right ==> Less(files[i].largest, key)
    ensures forall i :: right <= i < |files| ==> !Less(files[i].largest, key)
  {
    var left := 0;
    right := |files|;
    while left < right
      invariant 0 <= left <= right <= |files|
      invariant forall i :: 0 <= i < left ==> Less(files[i].largest, key)
      invariant forall i :: right <= i < |files| ==> !Less(files[i].largest, key)
    {
      var mid := (left + right) / 2;
      if Compare(files[mid].largest, key) < 0 {
        left := mid + 1;
      } else {
        right := mid;
      }
    }
  }

  lemma RangesFollowFiles(files: seq<File>)
    requires FilesOk(files)
    ensures RangesOk(files)
  {
    forall i | 0 <= i < |files| ensures !Less(files[i].largest, files[i].smallest) {
      assert FileOk(files[i]);
      EntryWithinFile(files[i], files[i].entries[0]);
    }
  }

  predicate AfterFile(user: Option<UserKey>, f: File) {
    user.Some? && user.value > f.largest.user
  }

  predicate BeforeFile(user: Option<UserKey>, f: File) {
    user.Some? && user.value < f.smallest.user
  }

  /** SomeFileOverlapsRange: a scan for level 0, a binary search for the disjoint levels. */
  method SomeFileOverlapsRange(disjointSorted: bool, files: seq<File>, lo: Option<UserKey>, hi: Option<UserKey>)
    returns (overlap: bool)
    requires disjointSorted ==> DisjointRanges(files)
    ensures overlap <==> exists f :: f in files && Overlaps(f, lo, hi)
  {
    if !disjointSorted {
      for i := 0 to |files|
        invariant forall j :: 0 <= j < i ==> !Overlaps(files[j], lo, hi)
      {
        if AfterFile(lo, files[i]) || BeforeFile(hi, files[i]) {
        } else {
          assert files[i] in files && Overlaps(files[i], lo, hi);
          return true;
        }
      }
      return false;
    }
    var index := 0;
    if lo.Some? {
      index := FindFile(files, InternalKey(lo.value, MAX_SEQUENCE, Value));
    }
    if index >= |files| {
      return false;
    }
    overlap := !BeforeFile(hi, files[index]);
    if overlap {
      assert Overlaps(files[index], lo, hi);
    } else {
      forall f | f in files ensures !Overlaps(f, lo, hi) {
        var i :| 0 <= i < |files| && files[i] == f;
        if i < index {
          assert Less(files[i].largest, InternalKey(lo.value, MAX_SEQUENCE, Value));
        } else if index < i {
          assert Less(files[index].smallest, files[i].smallest);
        }
      }
    }
  }

  // ------------------------------------------------------------------ Version::Get

  /** TableCache::Get with SaveValue: the first entry at or after the lookup key, if it is for the same user key. */
  function SearchRun(es: seq<Entry>, user: UserKey, s: SequenceNumber): Option<Entry> {
    var r := LowerBound(es, LookupKey(user, s));
    if r < |es| && es[r].key.user == user then Some(es[r]) else None
  }

  /** std::sort with NewestFirst. */
  method SortNewestFirst(files: seq<File>) returns (r: seq<File>)
    requires DistinctNumbers(files)
    ensures forall f :: f in r <==> f in files
    ensures forall i, j :: 0 <= i < j < |r| ==> r[i].number > r[j].number
  {
    r := [];
    for i := 0 to |files|
      invariant forall f :: f in r <==> f in files[..i]
      invariant forall a, b :: 0 <= a < b < |r| ==> r[a].number > r[b].number
    {
      assert files[..i + 1] == files[..i] + [files[i]];
      assert forall f :: f in r ==> f.number != files[i].number;
      r := InsertNewestFirst(r, files[i]);
    }
    assert files[..|files|] == files;
  }

  method InsertNewestFirst(files: seq<File>, f: File) returns (r: seq<File>)
    requires forall a, b :: 0 <= a < b < |files| ==> files[a].number > files[b].number
    requires forall g :: g in files ==> g.number != f.number
    ensures forall g :: g in r <==> g in files || g == f
    ensures forall a, b :: 0 <= a < b < |r| ==> r[a].number > r[b].number
  {
    var k := 0;
    while k < |files| && files[k].number > f.number
      invariant 0 <= k <= |files|
      invariant forall a :: 0 <= a < k ==> files[a].number > f.number
    {
      k := k + 1;
    }
    assert forall g :: g in files <==> g in files[..k] || g in files[k..];
    assert forall b :: k <= b < |files| ==> files[b] in files && files[b].number < f.number;
    r := files[..k] + [f] + files[k..];
  }

  /** Some candidate file holds a visible entry at least as new as `x`. */
  ghost predicate Covered(c: seq<File>, user: UserKey, s: SequenceNumber, x: Entry) {
    exists i, y :: 0 <= i < |c| && y in c[i].entries && VisibleAt(y, user, s) && y.key.seqno >= x.key.seqno
  }

  /** `c` lists files to search so that the first hit is the newest entry of the whole level. */
  ghost predicate CandidatesOk(files: seq<File>, c: seq<File>, user: UserKey, s: SequenceNumber) {
    && (forall f :: f in c ==> f in files)
    && (forall x {:trigger Covered(c, user, s, x)} ::
          x in FilesContent(files) && VisibleAt(x, user, s) ==> Covered(c, user, s, x))
    && forall i, j :: 0 <= i < j < |c| ==> NewerFor(Content(c[i].entries), Content(c[j].entries))
  }

  method LevelZeroFilesToSearch(files: seq<File>, user: UserKey, s: SequenceNumber) returns (c: seq<File>)
    requires LevelZeroOk(files)
    ensures CandidatesOk(files, c, user, s)
  {
    var tmp := [];
    for i := 0 to |files|
      invariant forall f :: f in tmp <==> f in files[..i] && f.smallest.user <= user <= f.largest.user
      invariant DistinctNumbers(tmp)
    {
      var f := files[i];
      assert files[..i + 1] == files[..i] + [f];
      if user >= f.smallest.user && user <= f.largest.user {
        forall a | 0 <= a < |tmp| ensures tmp[a].number != f.number {
          assert tmp[a] in files[..i];
        }
        tmp := tmp + [f];
      }
    }
    assert files[..|files|] == files;
    c := SortNewestFirst(tmp);
    forall x | x in FilesContent(files) && VisibleAt(x, user, s)
      ensures Covered(c, user, s, x)
    {
      var f :| f in files && x in f.entries;
      EntryWithinFile(f, x);
      assert f in c;
    }
    forall i, j | 0 <= i < j < |c| ensures NewerFor(Content(c[i].entries), Content(c[j].entries)) {
      assert c[i] in files && c[j] in files;
    }
  }

  method SortedLevelFilesToSearch(files: seq<File>, user: UserKey, s: SequenceNumber) returns (c: seq<File>)
    requires SortedLevel(files)
    ensures CandidatesOk(files, c, user, s)
  {
    var ikey := LookupKey(user, s);
    var index := FindFile(files, ikey);
    if index >= |files| {
      c := [];
    } else if user < files[index].smallest.user {
      c := [];
    } else {
      c := [files[index]];
    }
    forall x | x in FilesContent(files) && VisibleAt(x, user, s)
      ensures Covered(c, user, s, x)
    {
      var f :| f in files && x in f.entries;
      var j :| 0 <= j < |files| && files[j] == f;
      EntryWithinFile(f, x);
      assert index <= j;
      var g := files[index];
      assert FileOk(g);
      var top := g.entries[|g.entries| - 1];
      if index < j {
        assert Less(g.largest, f.smallest);
        EntryWithinFile(g, top);
      }
      var y := if index == j then x else top;
      assert c == [g] && y in c[0].entries && VisibleAt(y, user, s);
    }
  }

  /** Version::Get: search level by level, newest file first in level 0, one file per level after that. */
  method Get(levels: Levels, user: UserKey, s: SequenceNumber) returns (r: Option<Bytes>)
    requires LevelsOk(levels) && UniqueEntries(AllContent(levels))
    ensures r == Read(AllContent(levels), user, s)
  {
    for level := 0 to NUM_LEVELS
      invariant forall l :: 0 <= l < level ==> NoneVisible(FilesContent(levels[l]), user, s)
    {
      var files;
      if level == 0 {
        files := LevelZeroFilesToSearch(levels[0], user, s);
      } else {
        files := SortedLevelFilesToSearch(levels[level], user, s);
      }
      for i := 0 to |files|
        invariant forall j :: 0 <= j < i ==> NoneVisible(Content(files[j].entries), user, s)
      {
        var saver := SearchRun(files[i].entries, user, s);
        assert files[i] in levels[level];
        SeekFindsNewest(files[i].entries, user, s);
        if saver.Some? {
          NewestOfLevel(levels[level], files, i, user, s, saver.value);
          NewestOfVersion(levels, level, user, s, saver.value);
          ReadIsNewest(AllContent(levels), user, s, saver.value);
          return Outcome(saver.value);
        }
      }
      NothingInLevel(levels[level], files, user, s);
    }
    ReadNothing(AllContent(levels), user, s);
    return None;
  }

  lemma NewestOfLevel(files: seq<File>, c: seq<File>, i: nat, user: UserKey, s: SequenceNumber, e: Entry)
    requires CandidatesOk(files, c, user, s) && i < |c|
    requires forall j :: 0 <= j < i ==> NoneVisible(Content(c[j].entries), user, s)
    requires Newest(Content(c[i].entries), user, s, e)
    ensures Newest(FilesContent(files), user, s, e)
  {
    assert c[i] in files;
    forall x | x in FilesContent(files) && VisibleAt(x, user, s) ensures x.key.seqno <= e.key.seqno {
      assert Covered(c, user, s, x);
      var j, y :| 0 <= j < |c| && y in c[j].entries && VisibleAt(y, user, s) && y.key.seqno >= x.key.seqno;
      assert y in Content(c[j].entries);
    }
  }

  lemma NothingInLevel(files: seq<File>, c: seq<File>, user: UserKey, s: SequenceNumber)
    requires CandidatesOk(files, c, user, s)
    requires forall j :: 0 <= j < |c| ==> NoneVisible(Content(c[j].entries), user, s)
    ensures NoneVisible(FilesContent(files), user, s)
  {
    forall x | x in FilesContent(files) && VisibleAt(x, user, s) ensures false {
      assert Covered(c, user, s, x);
    }
  }

  lemma NewestOfVersion(levels: Levels, level: nat, user: UserKey, s: SequenceNumber, e: Entry)
    requires LevelsOk(levels) && level < NUM_LEVELS
    requires forall l :: 0 <= l < level ==> NoneVisible(FilesContent(levels[l]), user, s)
    requires Newest(FilesContent(levels[level]), user, s, e)
    ensures Newest(AllContent(levels), user, s, e)
  {
    forall x | x in AllContent(levels) && VisibleAt(x, user, s) ensures x.key.seqno <= e.key.seqno {
      var l :| 0 <= l < NUM_LEVELS && x in FilesContent(levels[l]);
      if level < l {
        assert NewerFor(FilesContent(levels[level]), FilesContent(levels[l]));
      }
    }
  }
}
