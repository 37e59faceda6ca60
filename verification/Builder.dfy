/** VersionSet::Builder: applying version edits and saving the result as the next version (db/version_set.cc). */
module Builder {
  import opened Common
  import opened Keys
  import opened Version

  /** BySmallestKey. */
  predicate FileLess(a: File, b: File) {
    Less(a.smallest, b.smallest) || (a.smallest == b.smallest && a.number < b.number)
  }

  ghost predicate InFileOrder(files: seq<File>) {
    forall i, j :: 0 <= i < j < |files| ==> FileLess(files[i], files[j])
  }

  function Undeleted(files: seq<File>, deleted: set<nat>): seq<File> {
    if files == [] then []
    else (if files[0].number in deleted then [] else [files[0]]) + Undeleted(files[1..], deleted)
  }

  /** What SaveTo makes of one level: base and added files merged in order, deleted ones left out. */
  function SaveLevel(base: seq<File>, added: seq<File>, deleted: set<nat>): seq<File>
    decreases |base| + |added|
  {
    if added == [] then Undeleted(base, deleted)
    else if base != [] && !FileLess(added[0], base[0]) then
      Undeleted([base[0]], deleted) + SaveLevel(base[1..], added, deleted)
    else
      Undeleted([added[0]], deleted) + SaveLevel(base, added[1..], deleted)
  }

  lemma {:induction false} UndeletedMembers(files: seq<File>, deleted: set<nat>)
    ensures forall f :: f in Undeleted(files, deleted) <==> f in files && f.number !in deleted
    ensures InFileOrder(files) ==> InFileOrder(Undeleted(files, deleted))
  {
    if files != [] {
      UndeletedMembers(files[1..], deleted);
      var rest := Undeleted(files[1..], deleted);
      if InFileOrder(files) {
        forall i | 0 <= i < |rest| ensures FileLess(files[0], rest[i]) {
          assert rest[i] in rest;
        }
      }
    }
  }

  lemma {:induction false} NothingDeleted(base: seq<File>)
    ensures Undeleted(base, {}) == base
  {
    if base != [] { NothingDeleted(base[1..]); }
  }

  lemma {:induction false} SaveLevelMembers(base: seq<File>, added: seq<File>, deleted: set<nat>)
    ensures forall f :: f in SaveLevel(base, added, deleted) <==> (f in base || f in added) && f.number !in deleted
    decreases |base| + |added|
  {
    if added == [] {
      UndeletedMembers(base, deleted);
    } else if base != [] && !FileLess(added[0], base[0]) {
      UndeletedMembers([base[0]], deleted);
      SaveLevelMembers(base[1..], added, deleted);
      assert base == [base[0]] + base[1..];
    } else {
      UndeletedMembers([added[0]], deleted);
      SaveLevelMembers(base, added[1..], deleted);
      assert added == [added[0]] + added[1..];
    }
  }

  /** Merging two ordered lists with no file number in common gives an ordered list. */
  lemma {:induction false} SaveLevelOrdered(base: seq<File>, added: seq<File>, deleted: set<nat>)
    requires InFileOrder(base) && InFileOrder(added)
    requires forall f, g :: f in base && g in added ==> f.number != g.number
    ensures InFileOrder(SaveLevel(base, added, deleted))
    decreases |base| + |added|
  {
    if added == [] {
      UndeletedMembers(base, deleted);
    } else if base != [] && !FileLess(added[0], base[0]) {
      SaveLevelOrdered(base[1..], added, deleted);
      ConsOrdered(base[0], base[1..], added, deleted);
    } else {
      SaveLevelOrdered(base, added[1..], deleted);
      ConsOrdered(added[0], base, added[1..], deleted);
    }
  }

  lemma ConsOrdered(f: File, base: seq<File>, added: seq<File>, deleted: set<nat>)
    requires InFileOrder(SaveLevel(base, added, deleted)) && InFileOrder(base) && InFileOrder(added)
    requires base != [] ==> FileLess(f, base[0])
    requires added != [] ==> FileLess(f, added[0])
    ensures InFileOrder(Undeleted([f], deleted) + SaveLevel(base, added, deleted))
  {
    var rest := SaveLevel(base, added, deleted);
    SaveLevelMembers(base, added, deleted);
    forall i | 0 <= i < |rest| ensures FileLess(f, rest[i]) {
      assert rest[i] in rest;
      if rest[i] in base {
        var k :| 0 <= k < |base| && base[k] == rest[i];
        assert k > 0 ==> FileLess(base[0], base[k]);
      } else {
        var k :| 0 <= k < |added| && added[k] == rest[i];
        assert k > 0 ==> FileLess(added[0], added[k]);
      }
    }
  }

  /** An ordered list of pairwise disjoint files is a sorted level. */
  lemma OrderedDisjoint(files: seq<File>)
    requires InFileOrder(files) && RangesOk(files)
    requires forall f, g :: f in files && g in files && f != g ==>
                              Less(f.largest, g.smallest) || Less(g.largest, f.smallest)
    ensures DisjointRanges(files)
  {
    forall i, j | 0 <= i < j < |files| ensures Less(files[i].largest, files[j].smallest) {
      assert FileLess(files[i], files[j]);
      assert files[i] != files[j];
    }
  }

  lemma DisjointIsOrdered(files: seq<File>)
    requires DisjointRanges(files)
    ensures InFileOrder(files)
  {
    forall i, j | 0 <= i < j < |files| ensures FileLess(files[i], files[j]) {
      assert Less(files[i].largest, files[j].smallest);
    }
  }

  /** std::set insertion in file order. */
  function InsertFile(files: seq<File>, f: File): seq<File> {
    if files == [] || FileLess(f, files[0]) then [f] + files else [files[0]] + InsertFile(files[1..], f)
  }

  lemma {:induction false} InsertFileOrdered(files: seq<File>, f: File)
    requires InFileOrder(files) && forall g :: g in files ==> g.number != f.number
    ensures InFileOrder(InsertFile(files, f)) && forall g :: g in InsertFile(files, f) <==> g in files || g == f
  {
    if files != [] && !FileLess(f, files[0]) {
      InsertFileOrdered(files[1..], f);
      assert files == [files[0]] + files[1..];
      var rest := InsertFile(files[1..], f);
      forall i | 0 <= i < |rest| ensures FileLess(files[0], rest[i]) {
        assert rest[i] in rest;
      }
    }
  }

  /** An ordered list is determined by its members: one edit with all files, or one edit a file, give the same level. */
  lemma OrderedUnique(a: seq<File>, b: seq<File>)
    requires InFileOrder(a) && InFileOrder(b) && forall f :: f in a <==> f in b
    ensures a == b
  {
    IncreasingUnique((f: File, g: File) => FileLess(f, g), a, b);
  }

  // ------------------------------------------------------------------ SaveTo as it is written

  /** std::upper_bound from position `from`: the first base file that `f` sorts before. */
  method UpperBound(base: seq<File>, from: nat, f: File) returns (hi: nat)
    requires InFileOrder(base) && from <= |base|
    ensures from <= hi <= |base|
    ensures forall i :: from <= i < hi ==> !FileLess(f, base[i])
    ensures hi < |base| ==> FileLess(f, base[hi])
  {
    var lo := from;
    hi := |base|;
    while lo < hi
      invariant from <= lo <= hi <= |base|
      invariant forall i :: from <= i < lo ==> !FileLess(f, base[i])
      invariant hi < |base| ==> FileLess(f, base[hi])
    {
      var mid := (lo + hi) / 2;
      if FileLess(f, base[mid]) {
        hi := mid;
      } else {
        forall i | from <= i < mid ensures !FileLess(f, base[i]) {
          assert FileLess(base[i], base[mid]);
        }
        lo := mid + 1;
      }
    }
  }

  lemma UndeletedStep(files: seq<File>, i: nat, deleted: set<nat>)
    requires i < |files|
    ensures Undeleted(files[i..], deleted) == Undeleted([files[i]], deleted) + Undeleted(files[i + 1..], deleted)
  {
    assert files[i..][1..] == files[i + 1..];
  }

  lemma SaveLevelStep(base: seq<File>, b: nat, added: seq<File>, k: nat, deleted: set<nat>)
    requires b <= |base| && k < |added|
    ensures b < |base| && !FileLess(added[k], base[b]) ==>
              SaveLevel(base[b..], added[k..], deleted)
              == Undeleted([base[b]], deleted) + SaveLevel(base[b + 1..], added[k..], deleted)
    ensures b == |base| || FileLess(added[k], base[b]) ==>
              SaveLevel(base[b..], added[k..], deleted)
              == Undeleted([added[k]], deleted) + SaveLevel(base[b..], added[k + 1..], deleted)
  {
    assert added[k..][1..] == added[k + 1..];
    if b < |base| {
      assert base[b..][1..] == base[b + 1..];
    }
  }

  /** What is written so far and what is to come make up the whole. */
  predicate Saving(base: seq<File>, b: nat, added: seq<File>, k: nat, deleted: set<nat>, files: seq<File>)
    requires b <= |base| && k <= |added|
  {
    files + SaveLevel(base[b..], added[k..], deleted) == SaveLevel(base, added, deleted)
  }

  lemma SavingBase(base: seq<File>, b: nat, added: seq<File>, k: nat, deleted: set<nat>, files: seq<File>)
    requires b < |base| && k < |added| && !FileLess(added[k], base[b]) && Saving(base, b, added, k, deleted, files)
    ensures Saving(base, b + 1, added, k, deleted, files + Undeleted([base[b]], deleted))
  {
    SaveLevelStep(base, b, added, k, deleted);
    ConcatAssoc(files, Undeleted([base[b]], deleted), SaveLevel(base[b + 1..], added[k..], deleted));
  }

  /** The base files that come before the added file `k`. */
  method CopyBase(base: seq<File>, from: nat, end: nat, added: seq<File>, k: nat, deleted: set<nat>, start: seq<File>)
    returns (files: seq<File>)
    requires from <= end <= |base| && k < |added| && forall i :: from <= i < end ==> !FileLess(added[k], base[i])
    requires Saving(base, from, added, k, deleted, start)
    ensures Saving(base, end, added, k, deleted, files)
  {
    var b := from;
    files := start;
    while b != end
      invariant from <= b <= end && Saving(base, b, added, k, deleted, files)
      decreases end - b
    {
      SavingBase(base, b, added, k, deleted, files);
      files := MaybeAddFile(files, base[b], deleted);
      b := b + 1;
    }
  }

  /** SaveTo for one level: copy the base files up to each added file, then the added file, then the rest. */
  method SaveToLevel(base: seq<File>, added: seq<File>, deleted: set<nat>) returns (files: seq<File>)
    requires InFileOrder(base)
    ensures files == SaveLevel(base, added, deleted)
  {
    files := [];
    var b := 0;
    assert base[0..] == base && added[0..] == added;
    for k := 0 to |added|
      invariant b <= |base| && Saving(base, b, added, k, deleted, files)
    {
      var bpos := UpperBound(base, b, added[k]);
      files := CopyBase(base, b, bpos, added, k, deleted, files);
      b := bpos;
      SaveLevelStep(base, b, added, k, deleted);
      ConcatAssoc(files, Undeleted([added[k]], deleted), SaveLevel(base[b..], added[k + 1..], deleted));
      files := MaybeAddFile(files, added[k], deleted);
    }
    files := AppendUndeleted(files, base, b, deleted);
  }

  method AppendUndeleted(files: seq<File>, base: seq<File>, from: nat, deleted: set<nat>) returns (r: seq<File>)
    requires from <= |base|
    ensures r == files + Undeleted(base[from..], deleted)
  {
    r := files;
    var b := from;
    while b < |base|
      invariant from <= b <= |base|
      invariant r + Undeleted(base[b..], deleted) == files + Undeleted(base[from..], deleted)
    {
      UndeletedStep(base, b, deleted);
      ConcatAssoc(r, Undeleted([base[b]], deleted), Undeleted(base[b + 1..], deleted));
      r := MaybeAddFile(r, base[b], deleted);
      b := b + 1;
    }
  }

  method MaybeAddFile(files: seq<File>, f: File, deleted: set<nat>) returns (r: seq<File>)
    ensures r == files + Undeleted([f], deleted)
  {
    if f.number in deleted {
      r := files;
    } else {
      r := files + [f];
    }
  }
}
