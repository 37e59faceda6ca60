/** Choosing where a flush goes and which files a compaction reads (db/version_set.cc). */
module Inputs {
  import opened Common
  import opened Keys
  import opened Version

  // ------------------------------------------------------------------ GetOverlappingInputs

  function UserOf(k: Option<InternalKey>): Option<UserKey> {
    if k.Some? then Some(k.value.user) else None
  }

  function OverlapFilter(files: seq<File>, lo: Option<UserKey>, hi: Option<UserKey>): seq<File> {
    if files == [] then []
    else
      var n := |files| - 1;
      OverlapFilter(files[..n], lo, hi) + if Overlaps(files[n], lo, hi) then [files[n]] else []
  }

  lemma {:induction false} FilterMembers(files: seq<File>, lo: Option<UserKey>, hi: Option<UserKey>)
    ensures forall f :: f in OverlapFilter(files, lo, hi) <==> f in files && Overlaps(f, lo, hi)
  {
    if files != [] {
      var n := |files| - 1;
      FilterMembers(files[..n], lo, hi);
      assert files == files[..n] + [files[n]];
    }
  }

  /** [a, b] contains [c, d]; an absent bound is unbounded. */
  predicate Covers(a: Option<UserKey>, b: Option<UserKey>, c: Option<UserKey>, d: Option<UserKey>) {
    && (a.Some? ==> c.Some? && a.value <= c.value)
    && (b.Some? ==> d.Some? && d.value <= b.value)
  }

  /** Every file that meets [lo, hi] lies inside it. */
  ghost predicate ClosedRange(files: seq<File>, lo: Option<UserKey>, hi: Option<UserKey>) {
    forall f :: f in files && Overlaps(f, lo, hi) ==> Covers(lo, hi, Some(f.smallest.user), Some(f.largest.user))
  }

  /** [lo, hi] is the least closed range around the request [reqLo, reqHi]. */
  ghost predicate LeastClosedRange(files: seq<File>, reqLo: Option<UserKey>, reqHi: Option<UserKey>,
                                   lo: Option<UserKey>, hi: Option<UserKey>) {
    && ClosedRange(files, lo, hi) && Covers(lo, hi, reqLo, reqHi)
    && forall a, b :: ClosedRange(files, a, b) && Covers(a, b, reqLo, reqHi) ==> Covers(a, b, lo, hi)
  }

  /** The files that meet the least closed range around the request. */
  ghost predicate IsLeastClosed(files: seq<File>, reqLo: Option<UserKey>, reqHi: Option<UserKey>, inputs: seq<File>) {
    exists lo, hi :: LeastClosedRange(files, reqLo, reqHi, lo, hi) && inputs == OverlapFilter(files, lo, hi)
  }

  ghost function StartingBefore(files: seq<File>, lo: Option<UserKey>): set<int> {
    set i | 0 <= i < |files| && lo.Some? && files[i].smallest.user < lo.value
  }

  ghost function EndingAfter(files: seq<File>, hi: Option<UserKey>): set<int> {
    set i | 0 <= i < |files| && hi.Some? && files[i].largest.user > hi.value
  }

  /** Any closed range around the request contains [lo, hi]. */
  ghost predicate Needed(files: seq<File>, reqLo: Option<UserKey>, reqHi: Option<UserKey>,
                         lo: Option<UserKey>, hi: Option<UserKey>) {
    forall a, b :: ClosedRange(files, a, b) && Covers(a, b, reqLo, reqHi) ==> Covers(a, b, lo, hi)
  }

  /** What the search knows after the first `n` files; only level 0 widens the range. */
  ghost predicate ScanFacts(files: seq<File>, n: nat, widens: bool, reqLo: Option<UserKey>, reqHi: Option<UserKey>,
                            lo: Option<UserKey>, hi: Option<UserKey>) {
    && n <= |files| && lo.Some? == reqLo.Some? && hi.Some? == reqHi.Some? && Covers(lo, hi, reqLo, reqHi)
    && (if widens then ClosedRange(files[..n], lo, hi) else lo == reqLo && hi == reqHi)
    && Needed(files, reqLo, reqHi, lo, hi)
  }

  ghost predicate ScanInv(files: seq<File>, n: nat, widens: bool, reqLo: Option<UserKey>, reqHi: Option<UserKey>,
                          lo: Option<UserKey>, hi: Option<UserKey>) {
    exists k :: k == n && ScanFacts(files, k, widens, reqLo, reqHi, lo, hi)
  }

  /** A file that does not meet the range, or lies inside it, leaves the range as it is. */
  lemma ScanPasses(files: seq<File>, n: nat, widens: bool, reqLo: Option<UserKey>, reqHi: Option<UserKey>,
                   lo: Option<UserKey>, hi: Option<UserKey>)
    requires n < |files| && ScanInv(files, n, widens, reqLo, reqHi, lo, hi)
    requires widens && Overlaps(files[n], lo, hi) ==> Covers(lo, hi, Some(files[n].smallest.user), Some(files[n].largest.user))
    ensures ScanInv(files, n + 1, widens, reqLo, reqHi, lo, hi)
    ensures OverlapFilter(files[..n + 1], lo, hi)
         == OverlapFilter(files[..n], lo, hi) + if Overlaps(files[n], lo, hi) then [files[n]] else []
  {
    assert files[..n + 1][..n] == files[..n];
    assert files[..n + 1] == files[..n] + [files[n]];
    assert ScanFacts(files, n + 1, widens, reqLo, reqHi, lo, hi);
  }

  /** A file that meets the range and starts before it must be in every closed range: the search restarts. */
  lemma ScanWidensDown(files: seq<File>, n: nat, reqLo: Option<UserKey>, reqHi: Option<UserKey>,
                       lo: Option<UserKey>, hi: Option<UserKey>)
    requires n < |files| && ScanInv(files, n, true, reqLo, reqHi, lo, hi) && Overlaps(files[n], lo, hi)
    requires lo.Some? && files[n].smallest.user < lo.value
    ensures ScanInv(files, 0, true, reqLo, reqHi, Some(files[n].smallest.user), hi)
    ensures StartingBefore(files, Some(files[n].smallest.user)) < StartingBefore(files, lo)
  {
    var low := Some(files[n].smallest.user);
    assert n in StartingBefore(files, lo) && n !in StartingBefore(files, low);
    assert Needed(files, reqLo, reqHi, low, hi);
    assert ScanFacts(files, 0, true, reqLo, reqHi, low, hi);
  }

  lemma ScanWidensUp(files: seq<File>, n: nat, reqLo: Option<UserKey>, reqHi: Option<UserKey>,
                     lo: Option<UserKey>, hi: Option<UserKey>)
    requires n < |files| && ScanInv(files, n, true, reqLo, reqHi, lo, hi) && Overlaps(files[n], lo, hi)
    requires hi.Some? && files[n].largest.user > hi.value
    ensures ScanInv(files, 0, true, reqLo, reqHi, lo, Some(files[n].largest.user))
    ensures EndingAfter(files, Some(files[n].largest.user)) < EndingAfter(files, hi)
  {
    var high := Some(files[n].largest.user);
    assert n in EndingAfter(files, hi) && n !in EndingAfter(files, high);
    assert Needed(files, reqLo, reqHi, lo, high);
    assert ScanFacts(files, 0, true, reqLo, reqHi, lo, high);
  }

  /** GetOverlappingInputs: in level 0 the search restarts whenever a file widens the range. */
  method GetOverlappingInputs(levels: Levels, level: nat, begin: Option<InternalKey>, end: Option<InternalKey>)
    returns (inputs: seq<File>, ghost lo: Option<UserKey>, ghost hi: Option<UserKey>)
    requires level < NUM_LEVELS
    ensures inputs == OverlapFilter(levels[level], lo, hi)
    ensures level > 0 ==> lo == UserOf(begin) && hi == UserOf(end)
    ensures level > 0 ==> inputs == OverlapFilter(levels[level], UserOf(begin), UserOf(end))
    ensures level == 0 ==> LeastClosedRange(levels[0], UserOf(begin), UserOf(end), lo, hi)
    ensures level == 0 ==> IsLeastClosed(levels[0], UserOf(begin), UserOf(end), inputs)
  {
    var files := levels[level];
    inputs := [];
    var userBegin, userEnd := UserOf(begin), UserOf(end);
    var i := 0;
    assert ScanFacts(files, 0, level == 0, UserOf(begin), UserOf(end), userBegin, userEnd);
    while i < |files|
      invariant 0 <= i <= |files|
      invariant inputs == OverlapFilter(files[..i], userBegin, userEnd)
      invariant ScanInv(files, i, level == 0, UserOf(begin), UserOf(end), userBegin, userEnd)
      decreases StartingBefore(files, userBegin), EndingAfter(files, userEnd), |files| - i
    {
      var f := files[i];
      if begin.Some? && f.largest.user < userBegin.value {
        ScanPasses(files, i, level == 0, UserOf(begin), UserOf(end), userBegin, userEnd);
        i := i + 1;
      } else if end.Some? && f.smallest.user > userEnd.value {
        ScanPasses(files, i, level == 0, UserOf(begin), UserOf(end), userBegin, userEnd);
        i := i + 1;
      } else if level == 0 && begin.Some? && f.smallest.user < userBegin.value {
        ScanWidensDown(files, i, UserOf(begin), UserOf(end), userBegin, userEnd);
        userBegin := Some(f.smallest.user);
        inputs, i := [], 0;
      } else if level == 0 && end.Some? && f.largest.user > userEnd.value {
        ScanWidensUp(files, i, UserOf(begin), UserOf(end), userBegin, userEnd);
        userEnd := Some(f.largest.user);
        inputs, i := [], 0;
      } else {
        ScanPasses(files, i, level == 0, UserOf(begin), UserOf(end), userBegin, userEnd);
        inputs := inputs + [f];
        i := i + 1;
      }
    }
    assert files[..|files|] == files;
    lo, hi := userBegin, userEnd;
  }

  function TotalFileSize(files: seq<File>): nat {
    if files == [] then 0 else files[0].size + TotalFileSize(files[1..])
  }

  ghost predicate SomeOverlap(files: seq<File>, lo: Option<UserKey>, hi: Option<UserKey>) {
    exists f :: f in files && Overlaps(f, lo, hi)
  }

  /** PickLevelForMemTableOutput: as deep as nothing in the way allows, at most to level 2. */
  method PickLevelForMemTableOutput(levels: Levels, lo: UserKey, hi: UserKey, maxFileSize: nat) returns (level: nat)
    requires forall l :: 1 <= l < NUM_LEVELS ==> DisjointRanges(levels[l])
    ensures level <= MAX_MEM_COMPACT_LEVEL
    ensures level > 0 ==> forall l :: 0 <= l <= level ==> !SomeOverlap(levels[l], Some(lo), Some(hi))
    ensures level < MAX_MEM_COMPACT_LEVEL && !SomeOverlap(levels[0], Some(lo), Some(hi)) ==>
              || SomeOverlap(levels[level + 1], Some(lo), Some(hi))
              || TotalFileSize(OverlapFilter(levels[level + 2], Some(lo), Some(hi))) > 10 * maxFileSize
  {
    level := 0;
    var overlap := SomeFileOverlapsRange(false, levels[0], Some(lo), Some(hi));
    if !overlap {
      while level < MAX_MEM_COMPACT_LEVEL
        invariant level <= MAX_MEM_COMPACT_LEVEL
        invariant forall l :: 0 <= l <= level ==> !SomeOverlap(levels[l], Some(lo), Some(hi))
      {
        overlap := SomeFileOverlapsRange(true, levels[level + 1], Some(lo), Some(hi));
        if overlap {
          break;
        }
        if level + 2 < NUM_LEVELS {
          var overlaps, _, _ := GetOverlappingInputs(levels, level + 2, Some(InternalKey(lo, MAX_SEQUENCE, Value)),
                                                     Some(InternalKey(hi, 0, Deletion)));
          if TotalFileSize(overlaps) > 10 * maxFileSize {
            break;
          }
        }
        level := level + 1;
      }
    }
  }

  // ------------------------------------------------------------------ ranges

  function SmallestKey(files: seq<File>): InternalKey
    requires files != []
  {
    var n := |files| - 1;
    if n == 0 then files[0].smallest
    else
      var k := SmallestKey(files[..n]);
      if Less(files[n].smallest, k) then files[n].smallest else k
  }

  function LargestKey(files: seq<File>): InternalKey
    requires files != []
  {
    var n := |files| - 1;
    if n == 0 then files[0].largest
    else
      var k := LargestKey(files[..n]);
      if Less(k, files[n].largest) then files[n].largest else k
  }

  /** The range of a set of files is tight: its ends are ends of files, and no file sticks out. */
  lemma {:induction false} RangeIsTight(files: seq<File>) returns (first: nat, last: nat)
    requires files != []
    ensures first < |files| && files[first].smallest == SmallestKey(files)
    ensures last < |files| && files[last].largest == LargestKey(files)
    ensures forall i :: 0 <= i < |files| ==> !Less(files[i].smallest, SmallestKey(files))
    ensures forall i :: 0 <= i < |files| ==> !Less(LargestKey(files), files[i].largest)
  {
    var n := |files| - 1;
    if n == 0 {
      first, last := 0, 0;
    } else {
      var prefix := files[..n];
      first, last := RangeIsTight(prefix);
      assert forall i :: 0 <= i < n ==> prefix[i] == files[i];
      first := if Less(files[n].smallest, SmallestKey(prefix)) then n else first;
      last := if Less(LargestKey(prefix), files[n].largest) then n else last;
    }
  }

  /** GetRange: one pass that tracks both ends (FindLargestKey is its upper half). */
  method GetRange(files: seq<File>) returns (smallest: InternalKey, largest: InternalKey)
    requires files != []
    ensures smallest == SmallestKey(files) && largest == LargestKey(files)
  {
    smallest, largest := files[0].smallest, files[0].largest;
    for i := 1 to |files|
      invariant smallest == SmallestKey(files[..i]) && largest == LargestKey(files[..i])
    {
      assert files[..i + 1][..i] == files[..i];
      if Compare(files[i].smallest, smallest) < 0 {
        smallest := files[i].smallest;
      }
      if Compare(files[i].largest, largest) > 0 {
        largest := files[i].largest;
      }
    }
    assert files[..|files|] == files;
  }

  // ------------------------------------------------------------------ AddBoundaryInputs

  /** `f` starts in the middle of the user key that ends at `key`. */
  predicate IsBoundary(f: File, key: InternalKey) {
    Less(key, f.smallest) && f.smallest.user == key.user
  }

  function SmallestBoundary(files: seq<File>, key: InternalKey): Option<File> {
    if files == [] then None
    else
      var n := |files| - 1;
      var r := SmallestBoundary(files[..n], key);
      if IsBoundary(files[n], key) && (r.None? || Less(files[n].smallest, r.value.smallest)) then Some(files[n]) else r
  }

  lemma {:induction false} SmallestBoundaryIsLeast(files: seq<File>, key: InternalKey)
    ensures var r := SmallestBoundary(files, key);
            && (r.None? ==> forall i :: 0 <= i < |files| ==> !IsBoundary(files[i], key))
            && (r.Some? ==> r.value in files && IsBoundary(r.value, key))
            && (r.Some? ==> forall i :: 0 <= i < |files| && IsBoundary(files[i], key) ==>
                              !Less(files[i].smallest, r.value.smallest))
  {
    if files != [] {
      var n := |files| - 1;
      SmallestBoundaryIsLeast(files[..n], key);
      assert files == files[..n] + [files[n]];
      assert forall i :: 0 <= i < n ==> files[..n][i] == files[i];
    }
  }

  method FindSmallestBoundaryFile(files: seq<File>, key: InternalKey) returns (r: Option<File>)
    ensures r == SmallestBoundary(files, key)
  {
    r := None;
    for i := 0 to |files|
      invariant r == SmallestBoundary(files[..i], key)
    {
      assert files[..i + 1][..i] == files[..i];
      if Compare(files[i].smallest, key) > 0 && files[i].smallest.user == key.user {
        if r.None? || Compare(files[i].smallest, r.value.smallest) < 0 {
          r := Some(files[i]);
        }
      }
    }
    assert files[..|files|] == files;
  }

  ghost function StartingAfter(files: seq<File>, key: InternalKey): set<int> {
    set i | 0 <= i < |files| && Less(key, files[i].smallest)
  }

  lemma BoundaryShrinks(files: seq<File>, key: InternalKey, f: File)
    requires RangesOk(files) && f in files && IsBoundary(f, key)
    ensures StartingAfter(files, f.largest) < StartingAfter(files, key)
  {
    var i :| 0 <= i < |files| && files[i] == f;
    assert i in StartingAfter(files, key) && i !in StartingAfter(files, f.largest);
  }

  /** The files that one after another continue the user key ending at `key`. */
  function BoundaryChain(files: seq<File>, key: InternalKey): seq<File>
    requires RangesOk(files)
    decreases StartingAfter(files, key)
  {
    var b := SmallestBoundary(files, key);
    if b.None? then []
    else
      SmallestBoundaryIsLeast(files, key);
      BoundaryShrinks(files, key, b.value);
      [b.value] + BoundaryChain(files, b.value.largest)
  }

  function WithBoundaries(levelFiles: seq<File>, files: seq<File>): seq<File>
    requires RangesOk(levelFiles)
  {
    if files == [] then [] else files + BoundaryChain(levelFiles, LargestKey(files))
  }

  /** One round of AddBoundaryInputs. */
  lemma ChainStep(files: seq<File>, key: InternalKey, r: seq<File>)
    requires RangesOk(files)
    ensures var b := SmallestBoundary(files, key);
            if b.None? then r + BoundaryChain(files, key) == r
            else r + BoundaryChain(files, key) == (r + [b.value]) + BoundaryChain(files, b.value.largest)
                 && StartingAfter(files, b.value.largest) < StartingAfter(files, key)
  {
    var b := SmallestBoundary(files, key);
    if b.Some? {
      SmallestBoundaryIsLeast(files, key);
      BoundaryShrinks(files, key, b.value);
      ConcatAssoc(r, [b.value], BoundaryChain(files, b.value.largest));
    } else {
      assert r + [] == r;
    }
  }

  method AddBoundaryInputs(levelFiles: seq<File>, compactionFiles: seq<File>) returns (r: seq<File>)
    requires RangesOk(levelFiles)
    ensures r == WithBoundaries(levelFiles, compactionFiles)
  {
    r := compactionFiles;
    if compactionFiles == [] {
      return;
    }
    var _, largest := GetRange(compactionFiles);
    var searching := true;
    while searching
      invariant WithBoundaries(levelFiles, compactionFiles) == if searching then r + BoundaryChain(levelFiles, largest) else r
      decreases searching, StartingAfter(levelFiles, largest)
    {
      ChainStep(levelFiles, largest, r);
      var b := FindSmallestBoundaryFile(levelFiles, largest);
      if b.Some? {
        r := r + [b.value];
        largest := b.value.largest;
      } else {
        searching := false;
      }
    }
  }

  // ------------------------------------------------------------------ what the chosen inputs guarantee

  ghost predicate IsSlice(files: seq<File>, part: seq<File>, a: nat, b: nat) {
    a < b <= |files| && part == files[a..b]
  }

  /** The slice does not stop in the middle of a user key. */
  ghost predicate EndsBetweenUsers(files: seq<File>, b: nat)
    requires 0 < b <= |files|
  {
    b < |files| ==> files[b].smallest.user != files[b - 1].largest.user
  }

  lemma {:induction false} FilterOfInterval(files: seq<File>, lo: Option<UserKey>, hi: Option<UserKey>, a: nat, b: nat)
    requires a <= b <= |files|
    requires forall i :: 0 <= i < |files| ==> (Overlaps(files[i], lo, hi) <==> a <= i < b)
    ensures OverlapFilter(files, lo, hi) == files[a..b]
  {
    if files != [] {
      var n := |files| - 1;
      var prefix := files[..n];
      var a', b' := if a > n then n else a, if b > n then n else b;
      FilterOfInterval(prefix, lo, hi, a', b');
      SliceOfPrefix(files, a, b, a', b');
    }
  }

  lemma SliceOfPrefix(files: seq<File>, a: nat, b: nat, c: nat, d: nat)
    requires files != [] && a <= b <= |files|
    requires c == (if a > |files| - 1 then |files| - 1 else a) && d == if b > |files| - 1 then |files| - 1 else b
    ensures files[a..b] == files[..|files| - 1][c..d] + if a <= |files| - 1 < b then [files[|files| - 1]] else []
  {
    assert files[..|files| - 1][c..d] == files[c..d];
  }

  lemma FilterIsSlice(files: seq<File>, lo: Option<UserKey>, hi: Option<UserKey>) returns (a: nat, b: nat)
    requires DisjointRanges(files)
    ensures a <= b <= |files| && OverlapFilter(files, lo, hi) == files[a..b]
  {
    a := 0;
    while a < |files| && lo.Some? && files[a].largest.user < lo.value
      invariant a <= |files|
      invariant forall i :: 0 <= i < a ==> !Overlaps(files[i], lo, hi)
    {
      a := a + 1;
    }
    b := a;
    while b < |files| && Overlaps(files[b], lo, hi)
      invariant a <= b <= |files|
      invariant forall i :: a <= i < b ==> Overlaps(files[i], lo, hi)
    {
      b := b + 1;
    }
    forall i | b <= i < |files| ensures !Overlaps(files[i], lo, hi) {
      assert a < b ==> Less(files[a].largest, files[b].smallest);
      assert b < i ==> Less(files[b].largest, files[i].smallest);
    }
    FilterOfInterval(files, lo, hi, a, b);
  }

  lemma SliceRange(files: seq<File>, a: nat, b: nat)
    requires DisjointRanges(files) && a < b <= |files|
    ensures LargestKey(files[a..b]) == files[b - 1].largest
    ensures SmallestKey(files[a..b]) == files[a].smallest
  {
    var part := files[a..b];
    var first, last := RangeIsTight(part);
    assert part[first] == files[a + first] && part[last] == files[a + last];
    assert part[0] == files[a] && part[b - 1 - a] == files[b - 1];
  }

  lemma NextBoundary(files: seq<File>, b: nat)
    requires DisjointRanges(files) && 0 < b <= |files|
    ensures var s := SmallestBoundary(files, files[b - 1].largest);
            if EndsBetweenUsers(files, b) then s == None else s == Some(files[b])
  {
    var key := files[b - 1].largest;
    forall i | 0 <= i < |files| && IsBoundary(files[i], key)
      ensures b <= i && files[b].smallest.user == key.user && (b < i ==> Less(files[b].smallest, files[i].smallest))
    {
      assert b <= i;
      assert Less(files[b - 1].largest, files[b].smallest);
      assert b < i ==> Less(files[b].largest, files[i].smallest);
    }
    SmallestBoundaryIsLeast(files, key);
    if !EndsBetweenUsers(files, b) {
      assert IsBoundary(files[b], key);
      var i :| 0 <= i < |files| && files[i] == SmallestBoundary(files, key).value;
      assert i == b;
    }
  }

  lemma {:induction false} ChainExtendsSlice(files: seq<File>, a: nat, b: nat) returns (c: nat)
    requires DisjointRanges(files) && a < b <= |files|
    ensures b <= c <= |files| && files[a..b] + BoundaryChain(files, files[b - 1].largest) == files[a..c]
    ensures EndsBetweenUsers(files, c)
    decreases |files| - b
  {
    NextBoundary(files, b);
    if EndsBetweenUsers(files, b) {
      c := b;
    } else {
      c := ChainExtendsSlice(files, a, b + 1);
      assert files[a..b + 1] == files[a..b] + [files[b]];
    }
  }

  /** For the user keys of the chosen files, the files of the level left out hold only newer entries. */
  ghost predicate OlderClosed(files: seq<File>, chosen: seq<File>) {
    forall f, g :: f in chosen && g in files && g !in chosen ==> NewerFor(Content(g.entries), Content(f.entries))
  }

  lemma SliceOlderClosed(files: seq<File>, a: nat, b: nat)
    requires SortedLevel(files) && a < b <= |files| && EndsBetweenUsers(files, b)
    requires UniqueEntries(FilesContent(files))
    ensures OlderClosed(files, files[a..b])
  {
    forall f, g | f in files[a..b] && g in files && g !in files[a..b] ensures NewerFor(Content(g.entries), Content(f.entries)) {
      var i :| a <= i < b && files[i] == f;
      var j :| 0 <= j < |files| && files[j] == g;
      assert j < a || b <= j;
      if j < a {
        EarlierFileIsNewer(files, g, f);
      } else {
        assert Less(files[b - 1].largest, files[b].smallest);
        assert b < j ==> Less(files[b].largest, g.smallest);
        assert i < b - 1 ==> Less(f.largest, files[b - 1].smallest);
        forall x, y | x in f.entries && y in g.entries ensures x.key.user != y.key.user {
          EntryWithinFile(f, x);
          EntryWithinFile(g, y);
        }
      }
    }
  }

  lemma EarlierFileIsNewer(files: seq<File>, g: File, f: File)
    requires g in files && f in files && FileOk(g) && FileOk(f) && Less(g.largest, f.smallest)
    requires UniqueEntries(FilesContent(files))
    ensures NewerFor(Content(g.entries), Content(f.entries))
  {
    forall x, y | y in g.entries && x in f.entries && x.key.user == y.key.user ensures y.key.seqno > x.key.seqno {
      EntryWithinFile(f, x);
      EntryWithinFile(g, y);
      assert x in FilesContent(files) && y in FilesContent(files);
    }
  }

  lemma ClosedRangeOlderClosed(files: seq<File>, lo: Option<UserKey>, hi: Option<UserKey>)
    requires FilesOk(files) && ClosedRange(files, lo, hi)
    ensures OlderClosed(files, OverlapFilter(files, lo, hi))
  {
    var chosen := OverlapFilter(files, lo, hi);
    FilterMembers(files, lo, hi);
    forall f, g | f in chosen && g in files && g !in chosen ensures NewerFor(Content(g.entries), Content(f.entries)) {
      forall x, y | x in f.entries && y in g.entries ensures x.key.user != y.key.user {
        EntryWithinFile(f, x);
        EntryWithinFile(g, y);
      }
    }
  }

  lemma NoBoundaryHere(f: File, g: File, lo: Option<UserKey>, hi: Option<UserKey>, key: InternalKey)
    requires !Less(f.largest, f.smallest) && !Less(g.largest, g.smallest)
    requires g.largest == key && Overlaps(g, lo, hi) && Covers(lo, hi, Some(g.smallest.user), Some(g.largest.user))
    requires Overlaps(f, lo, hi) ==> !Less(key, f.largest)
    ensures !IsBoundary(f, key)
  {
  }

  lemma ClosedRangeHasNoBoundary(files: seq<File>, lo: Option<UserKey>, hi: Option<UserKey>)
    requires RangesOk(files) && ClosedRange(files, lo, hi)
    requires OverlapFilter(files, lo, hi) != []
    ensures BoundaryChain(files, LargestKey(OverlapFilter(files, lo, hi))) == []
  {
    var chosen := OverlapFilter(files, lo, hi);
    FilterMembers(files, lo, hi);
    var _, last := RangeIsTight(chosen);
    var g := chosen[last];
    assert g in chosen;
    forall i | 0 <= i < |files| ensures !IsBoundary(files[i], LargestKey(chosen)) {
      if Overlaps(files[i], lo, hi) {
        assert files[i] in files;
        assert files[i] in chosen;
        var k :| 0 <= k < |chosen| && chosen[k] == files[i];
      }
      NoBoundaryHere(files[i], g, lo, hi, LargestKey(chosen));
    }
    SmallestBoundaryIsLeast(files, LargestKey(chosen));
  }

  /** What a compaction may start from: a run of a disjoint level, or everything overlapping a closed range of level 0. */
  ghost predicate StartOk(files: seq<File>, level: nat, start: seq<File>) {
    if level == 0 then start != [] && exists lo, hi :: ClosedRange(files, lo, hi) && start == OverlapFilter(files, lo, hi)
    else exists a: nat, b: nat :: IsSlice(files, start, a, b)
  }

  ghost predicate DistinctFiles(files: seq<File>) {
    forall i, j :: 0 <= i < j < |files| ==> files[i] != files[j]
  }

  ghost predicate InputsOk(levels: Levels, level: nat, in0: seq<File>, in1: seq<File>) {
    && level + 1 < NUM_LEVELS
    && in0 != [] && DistinctFiles(in0) && (forall f :: f in in0 ==> f in levels[level])
    && OlderClosed(levels[level], in0)
    && in1 == OverlapFilter(levels[level + 1], Some(SmallestKey(in0).user), Some(LargestKey(in0).user))
  }

  ghost predicate LevelsUnique(levels: Levels) {
    forall l :: 0 <= l < NUM_LEVELS ==> UniqueEntries(FilesContent(levels[l]))
  }

  lemma {:induction false} FilterDistinct(files: seq<File>, lo: Option<UserKey>, hi: Option<UserKey>)
    requires DistinctFiles(files)
    ensures DistinctFiles(OverlapFilter(files, lo, hi))
  {
    if files != [] {
      var n := |files| - 1;
      var prefix := OverlapFilter(files[..n], lo, hi);
      FilterDistinct(files[..n], lo, hi);
      FilterMembers(files[..n], lo, hi);
      forall i | 0 <= i < |prefix| ensures prefix[i] != files[n] {
        assert prefix[i] in prefix;
      }
    }
  }

  lemma SliceDistinct(files: seq<File>, a: nat, b: nat)
    requires DisjointRanges(files) && a <= b <= |files|
    ensures DistinctFiles(files[a..b])
  {
    forall i, j | 0 <= i < j < b - a ensures files[a..b][i] != files[a..b][j] {
      assert Less(files[a + i].largest, files[a + j].smallest);
    }
  }

  /** The files chosen below are distinct as well. */
  lemma LowerInputsDistinct(levels: Levels, level: nat, in0: seq<File>, in1: seq<File>)
    requires LevelsOk(levels) && InputsOk(levels, level, in0, in1)
    ensures DistinctFiles(in1)
  {
    var lo, hi := Some(SmallestKey(in0).user), Some(LargestKey(in0).user);
    var a, b := FilterIsSlice(levels[level + 1], lo, hi);
    SliceDistinct(levels[level + 1], a, b);
  }

  lemma BoundariesClose(levels: Levels, level: nat, start: seq<File>)
    requires LevelsOk(levels) && LevelsUnique(levels) && level < NUM_LEVELS
    requires StartOk(levels[level], level, start)
    ensures RangesOk(levels[level])
    ensures var in0 := WithBoundaries(levels[level], start);
            in0 != [] && DistinctFiles(in0) && (forall f :: f in in0 ==> f in levels[level]) && OlderClosed(levels[level], in0)
            && forall f :: f in start ==> f in in0
  {
    var files := levels[level];
    if level == 0 {
      var lo, hi :| ClosedRange(files, lo, hi) && start == OverlapFilter(files, lo, hi);
      FilterMembers(files, lo, hi);
      RangesFollowFiles(files);
      ClosedRangeOlderClosed(files, lo, hi);
      ClosedRangeHasNoBoundary(files, lo, hi);
      assert DistinctFiles(files) by {
        forall i, j | 0 <= i < j < |files| ensures files[i] != files[j] {
          assert files[i].number != files[j].number;
        }
      }
      FilterDistinct(files, lo, hi);
      assert WithBoundaries(files, start) == start;
    } else {
      var a: nat, b: nat :| IsSlice(files, start, a, b);
      SliceRange(files, a, b);
      var c := ChainExtendsSlice(files, a, b);
      SliceOlderClosed(files, a, c);
      SliceDistinct(files, a, c);
    }
  }

  /** Asking for everything around a compaction finds its files again and gives another legal start. */
  lemma GrownStartOk(levels: Levels, level: nat, in0: seq<File>, in1: seq<File>, grown: seq<File>,
                     lo: Option<UserKey>, hi: Option<UserKey>)
    requires LevelsOk(levels) && level + 1 < NUM_LEVELS && InputsOk(levels, level, in0, in1)
    requires grown == OverlapFilter(levels[level], lo, hi)
    requires Covers(lo, hi, Some(SmallestKey(in0 + in1).user), Some(LargestKey(in0 + in1).user))
    requires level > 0 || ClosedRange(levels[0], lo, hi)
    ensures StartOk(levels[level], level, grown)
    ensures forall f :: f in in0 ==> f in grown
  {
    RangesFollowFiles(in0);
    RangeOfUnion(in0, in1);
    FilterMembers(levels[level], lo, hi);
    assert in0[0] in grown;
    if level > 0 {
      var a, b := FilterIsSlice(levels[level], lo, hi);
      assert IsSlice(levels[level], grown, a, b);
    }
  }

  /** The files of the level below that a choice of files drags in. */
  function LowerFiles(levels: Levels, level: nat, in0: seq<File>): seq<File>
    requires level + 1 < NUM_LEVELS && in0 != []
  {
    OverlapFilter(levels[level + 1], Some(SmallestKey(in0).user), Some(LargestKey(in0).user))
  }

  /** What a query for the files around a range returns: at level 0 those of the least closed range. */
  ghost predicate FilesAround(levels: Levels, level: nat, lo: Option<UserKey>, hi: Option<UserKey>, found: seq<File>)
    requires level < NUM_LEVELS
  {
    if level == 0 then IsLeastClosed(levels[0], lo, hi, found) else found == OverlapFilter(levels[level], lo, hi)
  }

  /** More files of the upper level for the same files of the lower one, within the size limit of a compaction. */
  ghost predicate WorthGrowing(levels: Levels, level: nat, in0: seq<File>, in1: seq<File>, more: seq<File>, maxFileSize: nat)
    requires level + 1 < NUM_LEVELS && more != []
  {
    |more| > |in0| && TotalFileSize(in1) + TotalFileSize(more) < 25 * maxFileSize && LowerFiles(levels, level, more) == in1
  }

  /** The inputs are grown to `out0` if everything around them is worth it. */
  ghost predicate GrownBy(levels: Levels, level: nat, in0: seq<File>, in1: seq<File>, wide: seq<File>, maxFileSize: nat, out0: seq<File>)
    requires level + 1 < NUM_LEVELS && RangesOk(levels[level]) && in0 + in1 != []
  {
    && FilesAround(levels, level, Some(SmallestKey(in0 + in1).user), Some(LargestKey(in0 + in1).user), wide) && wide != []
    && var more := WithBoundaries(levels[level], wide);
       out0 == if WorthGrowing(levels, level, in0, in1, more, maxFileSize) then more else in0
  }

  /** A wider range finds no fewer files, and if no more, then the same. */
  lemma {:induction false} FilterGrows(files: seq<File>, lo: UserKey, hi: UserKey, lo2: UserKey, hi2: UserKey)
    requires lo2 <= lo && hi <= hi2
    ensures |OverlapFilter(files, Some(lo), Some(hi))| <= |OverlapFilter(files, Some(lo2), Some(hi2))|
    ensures |OverlapFilter(files, Some(lo), Some(hi))| == |OverlapFilter(files, Some(lo2), Some(hi2))| ==>
              OverlapFilter(files, Some(lo), Some(hi)) == OverlapFilter(files, Some(lo2), Some(hi2))
  {
    if files != [] { FilterGrows(files[..|files| - 1], lo, hi, lo2, hi2); }
  }

  lemma WiderRange(a: seq<File>, b: seq<File>)
    requires a != [] && b != [] && forall f :: f in a ==> f in b
    ensures SmallestKey(b).user <= SmallestKey(a).user && LargestKey(a).user <= LargestKey(b).user
  {
    var i, j := RangeIsTight(a);
    var _, _ := RangeIsTight(b);
    assert a[i] in b && a[j] in b;
  }

  /** The lower inputs stay the same files if they stay as many. */
  lemma SameLowerFiles(levels: Levels, level: nat, in0: seq<File>, more: seq<File>)
    requires level + 1 < NUM_LEVELS && in0 != [] && more != [] && forall f :: f in in0 ==> f in more
    ensures |LowerFiles(levels, level, more)| == |LowerFiles(levels, level, in0)| <==> LowerFiles(levels, level, more) == LowerFiles(levels, level, in0)
  {
    WiderRange(in0, more);
    FilterGrows(levels[level + 1], SmallestKey(in0).user, LargestKey(in0).user, SmallestKey(more).user, LargestKey(more).user);
  }

  /** The second half of SetupOtherInputs: take more files of `level` if that costs no more files below. */
  method GrowInputs(levels: Levels, level: nat, in0: seq<File>, in1: seq<File>, maxFileSize: nat)
    returns (out0: seq<File>)
    requires LevelsOk(levels) && LevelsUnique(levels) && InputsOk(levels, level, in0, in1) && RangesOk(levels[level])
    ensures InputsOk(levels, level, out0, in1)
    ensures forall f :: f in in0 ==> f in out0
    ensures exists wide :: GrownBy(levels, level, in0, in1, wide, maxFileSize, out0)
  {
    out0 := in0;
    var allStart, allLimit := GetRange(in0 + in1);
    var wide, lo, hi := GetOverlappingInputs(levels, level, Some(allStart), Some(allLimit));
    GrownStartOk(levels, level, in0, in1, wide, lo, hi);
    BoundariesClose(levels, level, wide);
    var more := AddBoundaryInputs(levels[level], wide);
    SameLowerFiles(levels, level, in0, more);
    if |more| > |in0| && TotalFileSize(in1) + TotalFileSize(more) < 25 * maxFileSize {
      var newStart, newLimit := GetRange(more);
      var expanded1, _, _ := GetOverlappingInputs(levels, level + 1, Some(newStart), Some(newLimit));
      if |expanded1| == |in1| {
        out0 := more;
      }
    }
    assert GrownBy(levels, level, in0, in1, wide, maxFileSize, out0);
  }

  /** The first half of SetupOtherInputs: boundary files and the overlapping files one level down. */
  method FirstInputs(levels: Levels, level: nat, start: seq<File>) returns (in0: seq<File>, in1: seq<File>)
    requires level + 1 < NUM_LEVELS && RangesOk(levels[level]) && start != []
    ensures in0 != [] && in0 == WithBoundaries(levels[level], start) && in1 == LowerFiles(levels, level, in0)
  {
    in0 := AddBoundaryInputs(levels[level], start);
    var smallest, largest := GetRange(in0);
    var below, _, _ := GetOverlappingInputs(levels, level + 1, Some(smallest), Some(largest));
    in1 := below;
  }

  lemma FirstInputsOk(levels: Levels, level: nat, start: seq<File>, in0: seq<File>, in1: seq<File>)
    requires LevelsOk(levels) && LevelsUnique(levels) && level + 1 < NUM_LEVELS
    requires StartOk(levels[level], level, start) && RangesOk(levels[level]) && in0 == WithBoundaries(levels[level], start)
    requires in0 != [] && in1 == LowerFiles(levels, level, in0)
    ensures InputsOk(levels, level, in0, in1) && forall f :: f in start ==> f in in0
  {
    BoundariesClose(levels, level, start);
  }

  /** SetupOtherInputs: the boundary files of the start and the files below; if there are any, the upper inputs grow to
      everything around both when that leaves the lower inputs the same and stays within the size limit. */
  method SetupOtherInputs(levels: Levels, level: nat, start: seq<File>, maxFileSize: nat)
    returns (in0: seq<File>, in1: seq<File>)
    requires LevelsOk(levels) && LevelsUnique(levels) && level + 1 < NUM_LEVELS
    requires StartOk(levels[level], level, start)
    ensures InputsOk(levels, level, in0, in1)
    ensures forall f :: f in start ==> f in in0
    ensures start != [] && RangesOk(levels[level])
    ensures var first := WithBoundaries(levels[level], start);
            && in1 == LowerFiles(levels, level, first)
            && if in1 == [] then in0 == first
               else exists wide :: GrownBy(levels, level, first, in1, wide, maxFileSize, in0)
  {
    BoundariesClose(levels, level, start);
    in0, in1 := FirstInputs(levels, level, start);
    FirstInputsOk(levels, level, start, in0, in1);
    if in1 != [] {
      in0 := GrowInputs(levels, level, in0, in1, maxFileSize);
    }
  }

  lemma RangeOfUnion(a: seq<File>, b: seq<File>)
    requires a != [] && RangesOk(a)
    ensures forall f :: f in a ==> Overlaps(f, Some(SmallestKey(a + b).user), Some(LargestKey(a + b).user))
  {
    var _, _ := RangeIsTight(a + b);
    forall i | 0 <= i < |a| ensures Overlaps(a[i], Some(SmallestKey(a + b).user), Some(LargestKey(a + b).user)) {
      assert (a + b)[i] == a[i];
    }
  }

  // ------------------------------------------------------------------ where a compaction starts

  predicate Past(f: File, pointer: Option<InternalKey>) {
    pointer.None? || Less(pointer.value, f.largest)
  }

  /** The `i`-th file is the first that ends past the pointer, or the first of all if none does. */
  ghost predicate NextAfter(files: seq<File>, pointer: Option<InternalKey>, i: nat) {
    && i < |files|
    && if Past(files[i], pointer) then forall j :: 0 <= j < i ==> !Past(files[j], pointer)
       else i == 0 && forall j :: 0 <= j < |files| ==> !Past(files[j], pointer)
  }

  /** PickCompaction for a level that is too big: the first file after the level's compaction pointer, or the first
      file; in level 0 everything that overlaps it. */
  method PickCompactionStart(levels: Levels, level: nat, compactPointer: Option<InternalKey>) returns (start: seq<File>)
    requires LevelsOk(levels) && level + 1 < NUM_LEVELS && levels[level] != []
    ensures StartOk(levels[level], level, start)
    ensures exists i: nat :: NextAfter(levels[level], compactPointer, i) && levels[level][i] in start
              && if level > 0 then start == [levels[level][i]]
                 else IsLeastClosed(levels[0], Some(levels[0][i].smallest.user), Some(levels[0][i].largest.user), start)
  {
    var files := levels[level];
    var i := 0;
    while i < |files| && compactPointer.Some? && Compare(files[i].largest, compactPointer.value) <= 0
      invariant i <= |files| && forall j :: 0 <= j < i ==> !Past(files[j], compactPointer)
    {
      i := i + 1;
    }
    if i == |files| {
      i := 0;
    }
    start := [files[i]];
    assert NextAfter(files, compactPointer, i);
    if level == 0 {
      var smallest, largest := GetRange(start);
      var overlapping, lo, hi := GetOverlappingInputs(levels, 0, Some(smallest), Some(largest));
      start := overlapping;
      RangesFollowFiles(files);
      FilterMembers(files, lo, hi);
      assert files[i] in start;
    } else {
      assert files[i..i + 1] == [files[i]];
      assert IsSlice(files, start, i, i + 1);
    }
  }

  /** A request that meets no file is closed as it stands, so a widened range meets none either. */
  lemma RequestIsMet(files: seq<File>, level: nat, reqLo: Option<UserKey>, reqHi: Option<UserKey>,
                     lo: Option<UserKey>, hi: Option<UserKey>, f: File)
    requires if level > 0 then lo == reqLo && hi == reqHi else LeastClosedRange(files, reqLo, reqHi, lo, hi)
    requires f in files && Overlaps(f, lo, hi)
    ensures SomeOverlap(files, reqLo, reqHi)
  {
    if level == 0 && !SomeOverlap(files, reqLo, reqHi) {
      assert ClosedRange(files, reqLo, reqHi) && Covers(reqLo, reqHi, reqLo, reqHi);
      assert Covers(reqLo, reqHi, lo, hi);
      assert Overlaps(f, reqLo, reqHi);
    }
  }

  /** How many files of a manual compaction to take: up to the one that fills an output. */
  method TakeUpTo(files: seq<File>, limit: nat) returns (n: nat)
    requires files != []
    ensures 0 < n <= |files|
    ensures n < |files| ==> TotalFileSize(files[..n]) >= limit
    ensures forall k :: 0 < k < n ==> TotalFileSize(files[..k]) < limit
  {
    var total := 0;
    n := 0;
    while n < |files|
      invariant n <= |files| && total == TotalFileSize(files[..n])
      invariant forall k :: 0 < k <= n ==> TotalFileSize(files[..k]) < limit
    {
      SizeOfPrefix(files, n);
      total := total + files[n].size;
      n := n + 1;
      if total >= limit {
        return;
      }
    }
  }

  lemma {:induction false} SizeOfPrefix(files: seq<File>, n: nat)
    requires n < |files|
    ensures TotalFileSize(files[..n + 1]) == TotalFileSize(files[..n]) + files[n].size
    decreases n
  {
    if n > 0 {
      SizeOfPrefix(files[1..], n - 1);
      assert files[..n + 1][1..] == files[1..][..n] && files[..n][1..] == files[1..][..n - 1];
    }
  }

  lemma PrefixIsSlice(files: seq<File>, a: nat, b: nat, n: nat)
    requires a <= b <= |files| && 0 < n <= b - a
    ensures IsSlice(files, files[a..b][..n], a, a + n)
  {
  }

  /** `start` is the part of `found` that fills an output file, or all of it. */
  ghost predicate CutAtLimit(found: seq<File>, start: seq<File>, limit: nat) {
    && start <= found && (start != found ==> TotalFileSize(start) >= limit)
    && forall k :: 0 < k < |start| ==> TotalFileSize(start[..k]) < limit
  }

  /** CompactRange: the files overlapping the request; above level 0 cut off once they hold enough bytes. */
  method CompactRangeStart(levels: Levels, level: nat, begin: Option<InternalKey>, end: Option<InternalKey>, maxFileSize: nat)
    returns (start: seq<File>)
    requires LevelsOk(levels) && level + 1 < NUM_LEVELS
    ensures start != [] ==> StartOk(levels[level], level, start)
    ensures start == [] <==> !SomeOverlap(levels[level], UserOf(begin), UserOf(end))
    ensures if level == 0 then IsLeastClosed(levels[0], UserOf(begin), UserOf(end), start)
            else CutAtLimit(OverlapFilter(levels[level], UserOf(begin), UserOf(end)), start, maxFileSize)
  {
    var overlapping, lo, hi := GetOverlappingInputs(levels, level, begin, end);
    start := overlapping;
    FilterMembers(levels[level], lo, hi);
    if start == [] {
      assert forall f :: f in levels[level] ==> !Overlaps(f, lo, hi);
      return;
    }
    RequestIsMet(levels[level], level, UserOf(begin), UserOf(end), lo, hi, start[0]);
    if level > 0 {
      ghost var a, b := FilterIsSlice(levels[level], lo, hi);
      var n := TakeUpTo(start, maxFileSize);
      PrefixIsSlice(levels[level], a, b, n);
      PrefixIsCut(overlapping, n, maxFileSize);
      start := start[..n];
    }
  }

  lemma PrefixIsCut(found: seq<File>, n: nat, limit: nat)
    requires 0 < n <= |found| && (n < |found| ==> TotalFileSize(found[..n]) >= limit)
    requires forall k :: 0 < k < n ==> TotalFileSize(found[..k]) < limit
    ensures CutAtLimit(found, found[..n], limit)
  {
    assert found[..|found|] == found;
    assert forall k :: 0 < k < n ==> found[..n][..k] == found[..k];
  }
}
