/** The compaction loop itself: DoCompactionWork with its cursors over the deeper levels. */
module CompactionJob {
  import opened Common
  import opened Keys
  import opened Version
  import opened Compaction

  // ------------------------------------------------------------------ specification of one pass

  /** last_sequence_for_key when entry `i` is reached. */
  function LastSequenceBefore(input: seq<Entry>, i: nat): nat
    requires i < |input|
  {
    if i > 0 && input[i - 1].key.user == input[i].key.user then input[i - 1].key.seqno else MAX_SEQUENCE
  }

  ghost predicate Dropped(input: seq<Entry>, i: nat, snapshot: nat, levels: Levels, level: nat)
    requires i < |input|
  {
    || LastSequenceBefore(input, i) <= snapshot
    || Obsolete(input[i], snapshot, BaseLevelForKey(levels, level, input[i].key.user))
  }

  ghost function KeptPrefix(input: seq<Entry>, n: nat, snapshot: nat, levels: Levels, level: nat): seq<Entry>
    requires n <= |input|
  {
    if n == 0 then []
    else KeptPrefix(input, n - 1, snapshot, levels, level)
         + if Dropped(input, n - 1, snapshot, levels, level) then [] else [input[n - 1]]
  }

  ghost function Flatten(outputs: seq<seq<Entry>>): seq<Entry> {
    if outputs == [] then [] else Flatten(outputs[..|outputs| - 1]) + outputs[|outputs| - 1]
  }

  lemma {:induction false} KeptMembers(input: seq<Entry>, n: nat, snapshot: nat, levels: Levels, level: nat)
    requires Sorted(input) && n <= |input|
    ensures Sorted(KeptPrefix(input, n, snapshot, levels, level))
    ensures forall e :: e in KeptPrefix(input, n, snapshot, levels, level) <==>
                          exists i :: 0 <= i < n && input[i] == e && !Dropped(input, i, snapshot, levels, level)
  {
    if n > 0 {
      KeptMembers(input, n - 1, snapshot, levels, level);
      var prefix := KeptPrefix(input, n - 1, snapshot, levels, level);
      forall i | 0 <= i < |prefix| ensures Less(prefix[i].key, input[n - 1].key) {
        assert prefix[i] in prefix;
      }
    }
  }

  /** Looking one entry back is enough: rule (A) drops exactly the hidden entries. */
  lemma PreviousHides(input: seq<Entry>, i: nat, snapshot: nat)
    requires Sorted(input) && UniqueEntries(Content(input)) && i < |input| && snapshot < MAX_SEQUENCE
    ensures LastSequenceBefore(input, i) <= snapshot <==> Hidden(Content(input), input[i], snapshot)
  {
    var e := input[i];
    forall x | x in input && x.key.user == e.key.user && e.key.seqno < x.key.seqno
      ensures i > 0 && input[i - 1].key.user == e.key.user && input[i - 1].key.seqno <= x.key.seqno
    {
      var j :| 0 <= j < |input| && input[j] == x;
      assert j < i;
      assert Less(input[i - 1].key, e.key);
      if j < i - 1 { assert Less(input[j].key, input[i - 1].key); }
    }
    if LastSequenceBefore(input, i) <= snapshot {
      assert Less(input[i - 1].key, e.key) && input[i - 1] in Content(input) && e in Content(input);
    }
  }

  /** The pass keeps exactly the survivors. If the smallest snapshot were the largest sequence number, the loop's
      initial value for "no newer entry seen" would itself count as old enough and nothing at all would be kept. */
  lemma PassKeepsSurvivors(input: seq<Entry>, snapshot: SequenceNumber, levels: Levels, level: nat)
    requires Sorted(input) && UniqueEntries(Content(input))
    ensures Content(KeptPrefix(input, |input|, snapshot, levels, level)) ==
              if snapshot < MAX_SEQUENCE then Survivors(Content(input), snapshot, levels, level) else {}
  {
    KeptMembers(input, |input|, snapshot, levels, level);
    forall i | 0 <= i < |input|
      ensures Dropped(input, i, snapshot, levels, level) <==>
                snapshot == MAX_SEQUENCE || input[i] !in Survivors(Content(input), snapshot, levels, level)
    {
      if snapshot < MAX_SEQUENCE { PreviousHides(input, i, snapshot); }
    }
  }

  // ------------------------------------------------------------------ the loop

  class Job {
    const levels: Levels
    const level: nat
    const grandparents: seq<File>
    const maxFileSize: nat
    const levelPtrs: array<nat>
    var grandparentIndex: nat
    var seenKey: bool
    var overlappedBytes: nat

    ghost predicate Valid()
      reads this, levelPtrs
    {
      && (forall l :: 1 <= l < NUM_LEVELS ==> DisjointRanges(levels[l]))
      && levelPtrs.Length == NUM_LEVELS
      && forall l :: 0 <= l < NUM_LEVELS ==> levelPtrs[l] <= |levels[l]|
    }

    /** The cursors have only moved past files that end before `user`. */
    ghost predicate PointersBehind(user: UserKey)
      requires Valid()
      reads this, levelPtrs
    {
      forall l, i :: level + 2 <= l < NUM_LEVELS && 0 <= i < levelPtrs[l] ==> levels[l][i].largest.user < user
    }

    constructor (levels: Levels, level: nat, grandparents: seq<File>, maxFileSize: nat)
      requires forall l :: 1 <= l < NUM_LEVELS ==> DisjointRanges(levels[l])
      ensures Valid() && fresh(levelPtrs) && forall user :: PointersBehind(user)
      ensures this.levels == levels && this.level == level
    {
      this.levels := levels;
      this.level := level;
      this.grandparents := grandparents;
      this.maxFileSize := maxFileSize;
      levelPtrs := new nat[NUM_LEVELS](_ => 0);
      grandparentIndex, seenKey, overlappedBytes := 0, false, 0;
    }

    /** IsBaseLevelForKey: queried in nondecreasing key order, so the cursors never have to move back. */
    method IsBaseLevelForKey(user: UserKey) returns (base: bool)
      requires Valid() && PointersBehind(user)
      modifies levelPtrs
      ensures Valid() && PointersBehind(user)
      ensures base <==> BaseLevelForKey(levels, level, user)
    {
      var l := level + 2;
      while l < NUM_LEVELS
        invariant level + 2 <= l
        invariant Valid() && PointersBehind(user)
        invariant forall m, i :: level + 2 <= m < l && m < NUM_LEVELS && 0 <= i < |levels[m]| ==>
                                   !(levels[m][i].smallest.user <= user <= levels[m][i].largest.user)
      {
        var files := levels[l];
        while levelPtrs[l] < |files|
          invariant Valid() && PointersBehind(user)
          invariant forall i :: 0 <= i < levelPtrs[l] ==> files[i].largest.user < user
          decreases |files| - levelPtrs[l]
        {
          var f := files[levelPtrs[l]];
          if user <= f.largest.user {
            if user >= f.smallest.user {
              return false;
            }
            break;
          }
          levelPtrs[l] := levelPtrs[l] + 1;
        }
        forall i | 0 <= i < |files| ensures !(files[i].smallest.user <= user <= files[i].largest.user) {
          if levelPtrs[l] < i {
            assert Less(files[levelPtrs[l]].largest, files[i].smallest);
          }
        }
        l := l + 1;
      }
      return true;
    }

    /** ShouldStopBefore: an output is cut once it spans too many grandparent bytes. */
    method ShouldStopBefore(key: InternalKey) returns (stop: bool)
      modifies `grandparentIndex, `seenKey, `overlappedBytes
      ensures seenKey
      ensures overlappedBytes <= 10 * maxFileSize
      ensures stop ==> overlappedBytes == 0
    {
      while grandparentIndex < |grandparents| && Compare(key, grandparents[grandparentIndex].largest) > 0
        decreases |grandparents| - grandparentIndex
      {
        if seenKey {
          overlappedBytes := overlappedBytes + grandparents[grandparentIndex].size;
        }
        grandparentIndex := grandparentIndex + 1;
      }
      seenKey := true;
      if overlappedBytes > 10 * maxFileSize {
        overlappedBytes := 0;
        return true;
      } else {
        return false;
      }
    }

    /** builder->Add, after opening a new output if none is open. */
    static method AddToOutput(outputs: seq<seq<Entry>>, open: bool, e: Entry) returns (r: seq<seq<Entry>>)
      requires open ==> outputs != []
      requires forall k :: 0 <= k < |outputs| ==> outputs[k] != []
      ensures r != [] && (forall k :: 0 <= k < |r| ==> r[k] != []) && Flatten(r) == Flatten(outputs) + [e]
    {
      if !open {
        r := outputs + [[e]];
        assert r[..|r| - 1] == outputs;
      } else {
        var n := |outputs| - 1;
        r := outputs[..n] + [outputs[n] + [e]];
        assert r[..n] == outputs[..n];
      }
    }

    /** DoCompactionWork over the merged input stream; `fileSize` is the table builder's running size. */
    method DoCompactionWork(input: seq<Entry>, snapshot: SequenceNumber, fileSize: seq<Entry> -> nat)
      returns (outputs: seq<seq<Entry>>)
      requires Valid() && forall user :: PointersBehind(user)
      requires Sorted(input) && UniqueEntries(Content(input))
      modifies levelPtrs, `grandparentIndex, `seenKey, `overlappedBytes
      ensures Sorted(Flatten(outputs)) && forall k :: 0 <= k < |outputs| ==> outputs[k] != []
      ensures Content(Flatten(outputs)) ==
                if snapshot < MAX_SEQUENCE then Survivors(Content(input), snapshot, levels, level) else {}
    {
      outputs := [];
      var open := false;
      var currentUserKey: Option<UserKey> := None;
      var lastSequenceForKey := MAX_SEQUENCE;
      for i := 0 to |input|
        invariant Valid() && (i < |input| ==> PointersBehind(input[i].key.user))
        invariant i > 0 ==> currentUserKey == Some(input[i - 1].key.user) && lastSequenceForKey == input[i - 1].key.seqno
        invariant i == 0 ==> currentUserKey == None
        invariant open ==> outputs != []
        invariant forall k :: 0 <= k < |outputs| ==> outputs[k] != []
        invariant Flatten(outputs) == KeptPrefix(input, i, snapshot, levels, level)
      {
        var ikey := input[i].key;
        var stop := ShouldStopBefore(ikey);
        if stop && open {
          open := false;
        }
        var drop := false;
        if currentUserKey == None || ikey.user != currentUserKey.value {
          currentUserKey := Some(ikey.user);
          lastSequenceForKey := MAX_SEQUENCE;
        }
        assert lastSequenceForKey == LastSequenceBefore(input, i);
        if lastSequenceForKey <= snapshot {
          drop := true;
        } else if ikey.kind == Deletion && ikey.seqno <= snapshot {
          drop := IsBaseLevelForKey(ikey.user);
        }
        lastSequenceForKey := ikey.seqno;
        assert drop <==> Dropped(input, i, snapshot, levels, level);
        if !drop {
          outputs := AddToOutput(outputs, open, input[i]);
          open := true;
          if fileSize(outputs[|outputs| - 1]) >= maxFileSize {
            open := false;
          }
        }
        if i + 1 < |input| {
          assert Less(input[i].key, input[i + 1].key);
        }
      }
      KeptMembers(input, |input|, snapshot, levels, level);
      PassKeepsSurvivors(input, snapshot, levels, level);
    }
  }
}
