/** What a compaction keeps and drops, and exactly when readers cannot tell (db/db_impl.cc, db/version_set.cc). */
module Compaction {
  import opened Common
  import opened Keys
  import opened Version

  // ------------------------------------------------------------------ the drop rules as a set

  /** Rule (A): a newer entry of the same user key is itself old enough for every live snapshot. */
  ghost predicate Hidden(input: set<Entry>, e: Entry, snapshot: nat) {
    exists x :: x in input && x.key.user == e.key.user && e.key.seqno < x.key.seqno <= snapshot
  }

  /** The obsolete deletion marker: old enough, and nothing of its user key below the compaction. */
  ghost predicate Obsolete(e: Entry, snapshot: nat, base: bool) {
    e.key.kind.Deletion? && e.key.seqno <= snapshot && base
  }

  /** No file of a level below the two compacted ones covers `user`. */
  ghost predicate BaseLevelForKey(levels: Levels, level: nat, user: UserKey) {
    forall l, i :: level + 2 <= l < NUM_LEVELS && 0 <= i < |levels[l]| ==>
                     !(levels[l][i].smallest.user <= user <= levels[l][i].largest.user)
  }

  ghost function Survivors(input: set<Entry>, snapshot: nat, levels: Levels, level: nat): set<Entry> {
    set e | e in input && !Hidden(input, e, snapshot)
            && !Obsolete(e, snapshot, BaseLevelForKey(levels, level, e.key.user))
  }

  /** The one way a compaction changes an answer: it drops the deletion marker `t` that every old reader stops at
      while `v`, an older value of the same user key, stays behind outside the inputs and becomes visible. */
  ghost predicate Resurfaces(input: set<Entry>, rest: set<Entry>, snapshot: nat, base: bool, user: UserKey) {
    exists t, v :: Newest(input, user, snapshot, t) && t.key.kind.Deletion? && base
                   && Newest(rest, user, snapshot, v) && v.key.kind.Value? && v.key.seqno < t.key.seqno
  }

  ghost predicate SameReads(a: set<Entry>, b: set<Entry>, user: UserKey, snapshot: nat) {
    forall s: nat :: snapshot <= s ==> Read(a, user, s) == Read(b, user, s)
  }

  lemma OldSurvivor(input: set<Entry>, snapshot: nat, levels: Levels, level: nat, user: UserKey, n: Entry, t: Entry)
    requires UniqueEntries(input) && n in input && n.key.user == user
    requires Newest(input, user, snapshot, t)
    ensures n in Survivors(input, snapshot, levels, level) <==>
              n.key.seqno > snapshot || (n == t && !Obsolete(t, snapshot, BaseLevelForKey(levels, level, user)))
  {
    if n.key.seqno <= snapshot && n != t {
      assert VisibleAt(n, user, snapshot);
      assert Hidden(input, n, snapshot);
    }
  }

  /** Any reader's newest entry that survives or was never an input is still the newest afterwards. */
  lemma NewestStays(input: set<Entry>, kept: set<Entry>, rest: set<Entry>, user: UserKey, s: nat, n: Entry)
    requires UniqueEntries(input + rest) && kept <= input
    requires Newest(input + rest, user, s, n) && n in kept + rest
    ensures Read(kept + rest, user, s) == Read(input + rest, user, s)
  {
    ReadIsNewest(input + rest, user, s, n);
    assert UniqueEntries(kept + rest);
    ReadIsNewest(kept + rest, user, s, n);
  }

  lemma NoOldInput(input: set<Entry>, rest: set<Entry>, snapshot: nat, levels: Levels, level: nat, user: UserKey, s: nat)
    requires UniqueEntries(input + rest) && snapshot <= s && NoneVisible(input, user, snapshot)
    ensures Read(Survivors(input, snapshot, levels, level) + rest, user, s) == Read(input + rest, user, s)
  {
    var kept := Survivors(input, snapshot, levels, level);
    if w :| w in input + rest && VisibleAt(w, user, s) {
      var n := NewestExists(input + rest, user, s, w);
      if n in input {
        assert !VisibleAt(n, user, snapshot);
        forall x | x in input && x.key.user == user ensures x.key.seqno > snapshot {
          assert !VisibleAt(x, user, snapshot);
        }
        assert n in kept;
      }
      NewestStays(input, kept, rest, user, s, n);
    } else {
      ReadNothing(input + rest, user, s);
      ReadNothing(kept + rest, user, s);
    }
  }

  lemma ReadsKept(input: set<Entry>, rest: set<Entry>, snapshot: nat, levels: Levels, level: nat, user: UserKey, t: Entry, s: nat)
    requires UniqueEntries(input + rest) && snapshot <= s && Newest(input, user, snapshot, t)
    requires !Resurfaces(input, rest, snapshot, BaseLevelForKey(levels, level, user), user)
    ensures Read(Survivors(input, snapshot, levels, level) + rest, user, s) == Read(input + rest, user, s)
  {
    var kept := Survivors(input, snapshot, levels, level);
    var base := BaseLevelForKey(levels, level, user);
    assert VisibleAt(t, user, s) && t in input + rest;
    var n := NewestExists(input + rest, user, s, t);
    assert UniqueEntries(input);
    if n in input {
      OldSurvivor(input, snapshot, levels, level, user, n, t);
      if n.key.seqno <= snapshot {
        assert VisibleAt(n, user, snapshot);
        assert n == t;
      }
    }
    if n in kept + rest {
      NewestStays(input, kept, rest, user, s, n);
    } else {
      assert n == t && Obsolete(t, snapshot, base);
      ReadIsNewest(input + rest, user, s, t);
      OnlyRestBelow(input, rest, snapshot, levels, level, user, t, s);
    }
  }

  /** When the newest visible entry is a dropped marker, what is read afterwards comes from outside the inputs. */
  lemma OnlyRestBelow(input: set<Entry>, rest: set<Entry>, snapshot: nat, levels: Levels, level: nat, user: UserKey, t: Entry, s: nat)
    requires UniqueEntries(input + rest) && snapshot <= s && Newest(input, user, snapshot, t)
    requires Newest(input + rest, user, s, t) && Obsolete(t, snapshot, BaseLevelForKey(levels, level, user))
    requires !Resurfaces(input, rest, snapshot, BaseLevelForKey(levels, level, user), user)
    requires t !in rest
    ensures Read(Survivors(input, snapshot, levels, level) + rest, user, s) == None
  {
    var kept := Survivors(input, snapshot, levels, level);
    assert UniqueEntries(input);
    forall x | x in kept ensures !VisibleAt(x, user, s) {
      if VisibleAt(x, user, s) {
        assert x in input + rest;
        OldSurvivor(input, snapshot, levels, level, user, x, t);
      }
    }
    if w :| w in rest && VisibleAt(w, user, s) {
      var v := NewestExists(rest, user, s, w);
      assert v in input + rest && t in input + rest;
      assert v.key.seqno < t.key.seqno;
      forall x | x in rest && VisibleAt(x, user, snapshot) ensures x.key.seqno <= v.key.seqno {
        assert VisibleAt(x, user, s);
      }
      assert VisibleAt(v, user, snapshot) && Newest(rest, user, snapshot, v);
      assert Newest(kept + rest, user, s, v);
      assert UniqueEntries(kept + rest);
      ReadIsNewest(kept + rest, user, s, v);
    } else {
      ReadNothing(kept + rest, user, s);
    }
  }

  /** Exactly when a compaction is invisible: every reader at or above the smallest snapshot gets the same answer
      for `user` afterwards if and only if no dropped deletion marker lets an older value resurface.
      Nothing is assumed about where the other entries `rest` live. */
  lemma CompactionInvisibleIff(input: set<Entry>, rest: set<Entry>, snapshot: nat, levels: Levels, level: nat, user: UserKey)
    requires UniqueEntries(input + rest) && input !! rest
    ensures SameReads(Survivors(input, snapshot, levels, level) + rest, input + rest, user, snapshot) <==>
              !Resurfaces(input, rest, snapshot, BaseLevelForKey(levels, level, user), user)
  {
    var kept := Survivors(input, snapshot, levels, level);
    var base := BaseLevelForKey(levels, level, user);
    if Resurfaces(input, rest, snapshot, base, user) {
      var t, v :| Newest(input, user, snapshot, t) && t.key.kind.Deletion? && base
                  && Newest(rest, user, snapshot, v) && v.key.kind.Value? && v.key.seqno < t.key.seqno;
      assert Newest(input + rest, user, snapshot, t);
      ReadIsNewest(input + rest, user, snapshot, t);
      assert UniqueEntries(input);
      forall x | x in kept ensures !VisibleAt(x, user, snapshot) {
        if VisibleAt(x, user, snapshot) {
          OldSurvivor(input, snapshot, levels, level, user, x, t);
        }
      }
      assert Newest(kept + rest, user, snapshot, v);
      assert UniqueEntries(kept + rest);
      ReadIsNewest(kept + rest, user, snapshot, v);
    } else {
      forall s: nat | snapshot <= s ensures Read(kept + rest, user, s) == Read(input + rest, user, s) {
        if w :| w in input && VisibleAt(w, user, snapshot) {
          var t := NewestExists(input, user, snapshot, w);
          ReadsKept(input, rest, snapshot, levels, level, user, t, s);
        } else {
          NoOldInput(input, rest, snapshot, levels, level, user, s);
        }
      }
    }
  }
}
