/** Iterators over sorted runs and their merge (table/merger.cc). */
module Merger {
  import opened Keys

  /** One sorted run with a position; `|entries|` marks it invalid, as LevelFileNumIterator does. */
  class Cursor {
    const entries: seq<Entry>
    var pos: nat

    ghost predicate Ok()
      reads this
    {
      Sorted(entries) && pos <= |entries|
    }

    predicate IsValid()
      reads this
    {
      pos < |entries|
    }

    function Key(): InternalKey
      requires IsValid()
      reads this
    {
      entries[pos].key
    }

    constructor (entries: seq<Entry>)
      requires Sorted(entries)
      ensures Ok() && this.entries == entries && pos == |entries|
    {
      this.entries := entries;
      pos := |entries|;
    }

    method Seek(target: InternalKey)
      requires Ok()
      modifies this
      ensures Ok() && pos == LowerBound(entries, target)
    {
      pos := LowerBound(entries, target);
    }

    method SeekToFirst()
      requires Ok()
      modifies this
      ensures Ok() && pos == 0
    {
      pos := 0;
    }

    method SeekToLast()
      requires Ok()
      modifies this
      ensures Ok() && pos == LastIndex(entries)
    {
      pos := if entries == [] then 0 else |entries| - 1;
    }

    method Next()
      requires Ok() && IsValid()
      modifies this
      ensures Ok() && pos == old(pos) + 1
    {
      pos := pos + 1;
    }

    method Prev()
      requires Ok() && IsValid()
      modifies this
      ensures Ok() && pos == StepBack(entries, old(pos))
    {
      if pos == 0 {
        pos := |entries|;
      } else {
        pos := pos - 1;
      }
    }
  }

  function LastIndex(es: seq<Entry>): nat {
    if es == [] then 0 else |es| - 1
  }

  function StepBack(es: seq<Entry>, pos: nat): nat {
    if pos == 0 then |es| else pos - 1
  }

  // ------------------------------------------------------------------ the sorted union

  ghost predicate DistinctRuns(runs: seq<seq<Entry>>) {
    && (forall i :: 0 <= i < |runs| ==> Sorted(runs[i]))
    && forall i, j, a, b :: 0 <= i < j < |runs| && a in runs[i] && b in runs[j] ==> a.key != b.key
  }

  /** `merged` is the sorted union of the runs. */
  ghost predicate IsMerge(runs: seq<seq<Entry>>, merged: seq<Entry>) {
    && Sorted(merged)
    && (forall i, e :: 0 <= i < |runs| && e in runs[i] ==> e in merged)
    && forall e :: e in merged ==> exists i :: 0 <= i < |runs| && e in runs[i]
  }

  lemma LowerBoundOfMember(es: seq<Entry>, p: nat)
    requires Sorted(es) && p < |es|
    ensures LowerBound(es, es[p].key) == p
  {
    LowerBoundUnique(es, es[p].key, p);
  }

  /** How much of a run lies before position `p` of the union. */
  function Below(run: seq<Entry>, merged: seq<Entry>, p: nat): nat {
    if p < |merged| then LowerBound(run, merged[p].key) else |run|
  }

  lemma LessTransitive(a: InternalKey, b: InternalKey, c: InternalKey)
    requires Less(a, b) && Less(b, c)
    ensures Less(a, c) && !Less(c, a) && !Less(b, a)
  {
  }

  /** An entry of the union that is not before position `p` and not at it comes after it. */
  lemma PastGoesOn(merged: seq<Entry>, p: nat, e: Entry)
    requires Sorted(merged) && p < |merged| && e in merged && e != merged[p] && !Less(e.key, merged[p].key)
    ensures p + 1 < |merged| && !Less(e.key, merged[p + 1].key)
  {
    var j :| 0 <= j < |merged| && merged[j] == e;
    assert p < j;
    if p + 1 < j { assert Less(merged[p + 1].key, merged[j].key); }
  }

  /** The first `r` entries of a run are before `next` and the rest is not. */
  lemma BelowIs(run: seq<Entry>, merged: seq<Entry>, p: nat, r: nat)
    requires Sorted(run) && Sorted(merged) && p < |merged| && r <= |run| && forall e :: e in run ==> e in merged
    requires forall i :: 0 <= i < r ==> Less(run[i].key, merged[p].key) || run[i] == merged[p]
    requires r < |run| ==> !Less(run[r].key, merged[p].key) && run[r] != merged[p]
    ensures Below(run, merged, p + 1) == r
  {
    if r < |run| { PastGoesOn(merged, p, run[r]); }
    if p + 1 < |merged| {
      var next := merged[p + 1].key;
      assert Less(merged[p].key, next);
      forall i | 0 <= i < r ensures Less(run[i].key, next) {
        if run[i] != merged[p] { LessTransitive(run[i].key, merged[p].key, next); }
      }
      LowerBoundUnique(run, next, r);
    }
  }

  /** One step in the union is one step in the run that holds the entry and none in the others. */
  lemma BelowStep(run: seq<Entry>, merged: seq<Entry>, p: nat)
    requires Sorted(run) && Sorted(merged) && p < |merged| && forall e :: e in run ==> e in merged
    ensures Below(run, merged, p) <= |run|
    ensures if merged[p] in run
            then Below(run, merged, p) < |run| && run[Below(run, merged, p)] == merged[p]
                 && Below(run, merged, p + 1) == Below(run, merged, p) + 1
            else Below(run, merged, p + 1) == Below(run, merged, p)
  {
    var r := LowerBound(run, merged[p].key);
    if q :| 0 <= q < |run| && run[q] == merged[p] {
      LowerBoundOfMember(run, q);
      if q + 1 < |run| {
        assert Less(run[q].key, run[q + 1].key);
      }
      BelowIs(run, merged, p, q + 1);
    } else {
      BelowIs(run, merged, p, r);
    }
  }

  class MergingIterator {
    const children: seq<Cursor>
    ghost const merged: seq<Entry>
    var current: int
    var forward: bool

    ghost function Runs(): seq<seq<Entry>> {
      seq(|children|, i requires 0 <= i < |children| => children[i].entries)
    }

    /** What no movement changes. */
    ghost predicate RunsOk() {
      && (forall i, j :: 0 <= i < j < |children| ==> children[i] != children[j])
      && DistinctRuns(Runs()) && IsMerge(Runs(), merged)
    }

    ghost predicate ChildrenOk()
      reads this, children
    {
      RunsOk() && forall i :: 0 <= i < |children| ==> children[i].Ok()
    }

    /** Where a child other than the current one stands when the iterator is at `k`. */
    function ChildPos(i: nat, k: InternalKey): nat
      requires i < |children|
      reads this
    {
      var r := LowerBound(children[i].entries, k);
      if forward then r else StepBack(children[i].entries, r)
    }

    ghost predicate Valid()
      reads this, children
    {
      && ChildrenOk() && -1 <= current < |children|
      && (current >= 0 ==>
            && children[current].IsValid()
            && forall i :: 0 <= i < |children| && i != current ==> children[i].pos == ChildPos(i, children[current].Key()))
    }

    /** The position in the sorted union. */
    ghost function Pos(): nat
      requires current >= 0 ==> current < |children| && children[current].IsValid()
      reads this, children
    {
      if current < 0 then |merged| else LowerBound(merged, children[current].Key())
    }

    ghost predicate IsSmallest()
      reads this, children
    {
      && -1 <= current < |children|
      && (current == -1 ==> forall i :: 0 <= i < |children| ==> !children[i].IsValid())
      && (current >= 0 ==>
            && children[current].IsValid()
            && forall i :: 0 <= i < |children| && children[i].IsValid() ==> !Less(children[i].Key(), children[current].Key()))
    }

    ghost predicate IsLargest()
      reads this, children
    {
      && -1 <= current < |children|
      && (current == -1 ==> forall i :: 0 <= i < |children| ==> !children[i].IsValid())
      && (current >= 0 ==>
            && children[current].IsValid()
            && forall i :: 0 <= i < |children| && children[i].IsValid() ==> !Less(children[current].Key(), children[i].Key()))
    }

    /** FindSmallest: a scan over the valid children. */
    method FindSmallest()
      requires ChildrenOk()
      modifies `current
      ensures ChildrenOk() && IsSmallest()
    {
      var smallest := -1;
      for i := 0 to |children|
        invariant -1 <= smallest < i
        invariant smallest == -1 ==> forall j :: 0 <= j < i ==> !children[j].IsValid()
        invariant smallest >= 0 ==> children[smallest].IsValid()
        invariant smallest >= 0 ==> forall j :: 0 <= j < i && children[j].IsValid() ==>
                                                  !Less(children[j].Key(), children[smallest].Key())
      {
        var child := children[i];
        if child.IsValid() {
          if smallest == -1 {
            smallest := i;
          } else if Compare(child.Key(), children[smallest].Key()) < 0 {
            smallest := i;
          }
        }
      }
      current := smallest;
    }

    /** FindLargest: the same scan from the other end. */
    method FindLargest()
      requires ChildrenOk()
      modifies `current
      ensures ChildrenOk() && IsLargest()
    {
      var largest := -1;
      var i := |children|;
      while i > 0
        invariant 0 <= i <= |children|
        invariant largest == -1 || i <= largest < |children|
        invariant largest == -1 ==> forall j :: i <= j < |children| ==> !children[j].IsValid()
        invariant largest >= 0 ==> children[largest].IsValid()
        invariant largest >= 0 ==> forall j :: i <= j < |children| && children[j].IsValid() ==>
                                                 !Less(children[largest].Key(), children[j].Key())
      {
        i := i - 1;
        var child := children[i];
        if child.IsValid() {
          if largest == -1 {
            largest := i;
          } else if Compare(child.Key(), children[largest].Key()) > 0 {
            largest := i;
          }
        }
      }
      current := largest;
    }

    // ---------------------------------------------------------------- what the scans find

    /** All children stand at position `p` of the union, looking forward. */
    ghost predicate AtCut(p: nat)
      requires ChildrenOk()
      reads this, children
    {
      p <= |merged| && forall i :: 0 <= i < |children| ==> children[i].pos == Below(children[i].entries, merged, p)
    }

    /** All children stand just before position `p` of the union, looking backward. */
    ghost predicate BeforeCut(p: nat)
      requires ChildrenOk()
      reads this, children
    {
      p <= |merged|
      && forall i :: 0 <= i < |children| ==>
           children[i].pos == StepBack(children[i].entries, Below(children[i].entries, merged, p))
    }

    lemma RunStep(i: nat, p: nat)
      requires ChildrenOk() && i < |children| && p < |merged|
      ensures var run := children[i].entries;
              && Below(run, merged, p) <= |run|
              && if merged[p] in run
                 then Below(run, merged, p) < |run| && run[Below(run, merged, p)] == merged[p]
                      && Below(run, merged, p + 1) == Below(run, merged, p) + 1
                 else Below(run, merged, p + 1) == Below(run, merged, p)
    {
      assert Runs()[i] == children[i].entries;
      BelowStep(children[i].entries, merged, p);
    }

    lemma OwnerOf(p: nat) returns (i: nat)
      requires ChildrenOk() && p < |merged|
      ensures i < |children| && merged[p] in children[i].entries
      ensures forall j :: 0 <= j < |children| && j != i ==> merged[p] !in children[j].entries
    {
      assert merged[p] in merged;
      i :| 0 <= i < |Runs()| && merged[p] in Runs()[i];
      forall j | 0 <= j < |children| && j != i ensures merged[p] !in children[j].entries {
        assert Runs()[j] == children[j].entries;
      }
    }

    lemma FoundSmallest(p: nat)
      requires ChildrenOk() && AtCut(p) && IsSmallest() && forward
      ensures Valid() && Pos() == p
    {
      forall i | 0 <= i < |children| ensures Sorted(children[i].entries) && Runs()[i] == children[i].entries {
        assert children[i].Ok();
      }
      if p < |merged| {
        var i := OwnerOf(p);
        RunStep(i, p);
        assert children[i].IsValid() && children[i].Key() == merged[p].key;
        var c := children[current];
        assert !Less(c.entries[c.pos].key, merged[p].key);
        CompareIsNewestFirstTotalOrder(c.Key(), merged[p].key, c.Key());
        assert c.Key() == merged[p].key;
        LowerBoundOfMember(merged, p);
      }
    }

    /** Just before position `p` the owner of the entry there stands on it, every other child on something smaller. */
    lemma BeforeCutPositions(p: nat, i: nat, j: nat)
      requires ChildrenOk() && 0 < p && BeforeCut(p) && i < |children| && j < |children|
      requires merged[p - 1] in children[i].entries
      requires forall m :: 0 <= m < |children| && m != i ==> merged[p - 1] !in children[m].entries
      ensures var k := merged[p - 1].key;
              var r := LowerBound(children[j].entries, k);
              && children[j].pos == (if j == i then r else StepBack(children[j].entries, r))
              && (children[j].IsValid() && j != i ==> Less(children[j].Key(), k))
              && (j == i ==> children[j].IsValid() && children[j].Key() == k)
    {
      assert children[j].Ok();
      RunStep(j, p - 1);
    }

    lemma FoundLargest(p: nat)
      requires ChildrenOk() && BeforeCut(p) && IsLargest() && !forward
      ensures Valid() && Pos() == StepBack(merged, p)
    {
      if p == 0 {
        forall i | 0 <= i < |children| ensures !children[i].IsValid() {
          NothingBelowFirst(i);
        }
      } else {
        var i := OwnerOf(p - 1);
        BeforeCutPositions(p, i, i);
        BeforeCutPositions(p, i, current);
        assert current == i;
        forall j | 0 <= j < |children| && j != i ensures children[j].pos == ChildPos(j, merged[p - 1].key) {
          BeforeCutPositions(p, i, j);
        }
        LowerBoundOfMember(merged, p - 1);
      }
    }

    lemma NothingBelowFirst(i: nat)
      requires ChildrenOk() && i < |children|
      ensures Below(children[i].entries, merged, 0) == 0
    {
      var run := children[i].entries;
      assert Runs()[i] == run && children[i].Ok();
      if run != [] {
        assert run[0] in run && run[0] in merged;
        var j :| 0 <= j < |merged| && merged[j] == run[0];
        assert j > 0 ==> Less(merged[0].key, merged[j].key);
        LowerBoundUnique(run, merged[0].key, 0);
      }
    }

    // ---------------------------------------------------------------- the iterator

    constructor (children: seq<Cursor>, ghost merged: seq<Entry>)
      requires forall i, j :: 0 <= i < j < |children| ==> children[i] != children[j]
      requires forall i :: 0 <= i < |children| ==> children[i].Ok()
      requires DistinctRuns(EntriesOf(children)) && IsMerge(EntriesOf(children), merged)
      ensures Valid() && this.children == children && this.merged == merged && current == -1
    {
      this.children := children;
      this.merged := merged;
      current, forward := -1, true;
      new;
      assert Runs() == EntriesOf(children);
    }

    method SeekToFirst()
      requires Valid()
      modifies this, children
      ensures Valid() && Pos() == 0
    {
      for i := 0 to |children|
        invariant ChildrenOk()
        invariant forall j :: 0 <= j < i ==> children[j].pos == 0
      {
        children[i].SeekToFirst();
      }
      forall i | 0 <= i < |children| ensures children[i].pos == Below(children[i].entries, merged, 0) {
        NothingBelowFirst(i);
      }
      FindSmallest();
      forward := true;
      FoundSmallest(0);
    }

    method SeekToLast()
      requires Valid()
      modifies this, children
      ensures Valid() && Pos() == LastIndex(merged)
    {
      for i := 0 to |children|
        invariant ChildrenOk()
        invariant forall j :: 0 <= j < i ==> children[j].pos == LastIndex(children[j].entries)
      {
        children[i].SeekToLast();
      }
      assert BeforeCut(|merged|);
      FindLargest();
      forward := false;
      FoundLargest(|merged|);
    }

    method Seek(target: InternalKey)
      requires Valid()
      modifies this, children
      ensures Valid() && Pos() == LowerBound(merged, target)
    {
      for i := 0 to |children|
        invariant ChildrenOk()
        invariant forall j :: 0 <= j < i ==> children[j].pos == LowerBound(children[j].entries, target)
      {
        children[i].Seek(target);
      }
      var p := LowerBound(merged, target);
      assert AtCut(p) by {
        forall i | 0 <= i < |children| ensures children[i].pos == Below(children[i].entries, merged, p) {
          SeekIsCut(i, target);
        }
      }
      FindSmallest();
      forward := true;
      FoundSmallest(p);
    }

    /** The direction switch of Next: every other child is brought to its first entry after the current key. */
    method FaceForward()
      requires Valid() && current >= 0 && !forward
      modifies this, children
      ensures Valid() && forward && current == old(current) && Pos() == old(Pos())
    {
      var key := children[current].Key();
      for i := 0 to |children|
        invariant ChildrenOk() && current == old(current) && !forward
        invariant children[current].pos == old(children[current].pos)
        invariant forall j :: 0 <= j < i && j != current ==> children[j].pos == LowerBound(children[j].entries, key)
      {
        if i != current {
          children[i].Seek(key);
          if children[i].IsValid() && Compare(key, children[i].Key()) == 0 {
            OnlyCurrentHolds(i, key);
          }
        }
      }
      forward := true;
    }

    /** Next: children left on the far side by backward movement are first brought after the current key. */
    method Next()
      requires Valid() && current >= 0
      modifies this, children
      ensures Valid() && Pos() == old(Pos()) + 1
    {
      if !forward {
        FaceForward();
      }
      ghost var p := Pos();
      CurrentInUnion();
      StepCurrent(p);
      FindSmallest();
      FoundSmallest(p + 1);
    }

    /** Stepping the current child puts all children at the next position of the union. */
    method StepCurrent(ghost p: nat)
      requires Valid() && current >= 0 && forward && p == Pos() && p < |merged|
      modifies children
      ensures ChildrenOk() && AtCut(p + 1)
    {
      AtCurrentCut(p);
      ghost var at := children[current].pos;
      forall i | 0 <= i < |children|
        ensures Below(children[i].entries, merged, p + 1) == if i == current then at + 1 else children[i].pos
      {
        RunStep(i, p);
      }
      children[current].Next();
      assert forall i :: 0 <= i < |children| && i != current ==> children[i].pos == old(children[i].pos);
    }

    /** The direction switch of Prev: every other child goes to its last entry before the current key; one with
        nothing at or after that key goes to its last entry. */
    method FaceBackward()
      requires Valid() && current >= 0 && forward
      modifies this, children
      ensures Valid() && !forward && current == old(current) && Pos() == old(Pos())
    {
      var key := children[current].Key();
      for i := 0 to |children|
        invariant ChildrenOk() && current == old(current) && forward
        invariant children[current].pos == old(children[current].pos)
        invariant forall j :: 0 <= j < i && j != current ==>
                                children[j].pos == StepBack(children[j].entries, LowerBound(children[j].entries, key))
      {
        if i != current {
          children[i].Seek(key);
          if children[i].IsValid() {
            children[i].Prev();
          } else {
            children[i].SeekToLast();
          }
        }
      }
      forward := false;
    }

    method Prev()
      requires Valid() && current >= 0
      modifies this, children
      ensures Valid() && Pos() == StepBack(merged, old(Pos()))
    {
      if forward {
        FaceBackward();
      }
      ghost var p := Pos();
      CurrentInUnion();
      RunStep(current, p);
      children[current].Prev();
      FindLargest();
      FoundLargest(p);
    }

    /** The current entry is the one at the iterator's position in the union. */
    lemma CurrentInUnion()
      requires Valid() && current >= 0
      ensures Pos() < |merged| && merged[Pos()] == children[current].entries[children[current].pos]
    {
      var e := children[current].entries[children[current].pos];
      assert Runs()[current] == children[current].entries && e in Runs()[current] && e in merged;
      var j :| 0 <= j < |merged| && merged[j] == e;
      LowerBoundOfMember(merged, j);
    }

    lemma OnlyCurrentHolds(i: nat, key: InternalKey)
      requires ChildrenOk() && i < |children| && 0 <= current < |children| && i != current
      requires children[current].IsValid() && children[current].Key() == key && children[i].IsValid()
      ensures children[i].Key() != key
    {
      assert children[i].entries[children[i].pos] in Runs()[i];
      assert children[current].entries[children[current].pos] in Runs()[current];
    }

    lemma AtCurrentCut(p: nat)
      requires Valid() && current >= 0 && forward && p == Pos()
      ensures AtCut(p) && merged[p] in children[current].entries
      ensures forall i :: 0 <= i < |children| && i != current ==> merged[p] !in children[i].entries
    {
      CurrentInUnion();
      var i := OwnerOf(p);
      assert i == current;
      RunStep(current, p);
    }

    /** Seeking every run to `target` puts all of them at the same position of the union. */
    lemma SeekIsCut(i: nat, target: InternalKey)
      requires ChildrenOk() && i < |children|
      ensures var run := children[i].entries;
              LowerBound(run, target) == Below(run, merged, LowerBound(merged, target))
    {
      var run, p := children[i].entries, LowerBound(merged, target);
      assert Runs()[i] == run && children[i].Ok();
      var r := LowerBound(run, target);
      LowerBoundSplits(run, target);
      LowerBoundSplits(merged, target);
      if r < |run| {
        assert run[r] in run && run[r] in merged;
        var j :| 0 <= j < |merged| && merged[j] == run[r];
        assert p <= j;
        assert p < j ==> Less(merged[p].key, merged[j].key);
      }
      if p < |merged| {
        forall m | 0 <= m < r ensures Less(run[m].key, merged[p].key) {
        }
        LowerBoundUnique(run, merged[p].key, r);
      }
    }
  }

  ghost function EntriesOf(children: seq<Cursor>): seq<seq<Entry>> {
    seq(|children|, i requires 0 <= i < |children| => children[i].entries)
  }
}
