/** DBIter: a cursor over the user keys visible at one sequence number, on top of a cursor over internal entries
    (db/db_iter.cc). */
module DbIter {
  import opened Common
  import opened Keys
  import opened Merger

  // ------------------------------------------------------------------ heads: one entry per visible user key

  /** Entry `p` is the newest one of its user key with sequence number at most `s`. */
  predicate Head(es: seq<Entry>, s: nat, p: nat) {
    && p < |es| && es[p].key.seqno <= s
    && (p > 0 ==> es[p - 1].key.user != es[p].key.user || es[p - 1].key.seqno > s)
  }

  /** The entries the iterator yields. */
  predicate ValueHead(es: seq<Entry>, s: nat, p: nat) {
    Head(es, s, p) && es[p].key.kind.Value?
  }

  ghost predicate RunOk(es: seq<Entry>) {
    Sorted(es) && UniqueEntries(Content(es))
  }

  /** Nothing visible of its user key stands before a head, and anything visible right before a non-head is newer. */
  lemma HeadIsFirst(es: seq<Entry>, s: nat, j: nat, p: nat)
    requires Sorted(es) && j < p < |es| && es[j].key.user == es[p].key.user && es[j].key.seqno <= s
    ensures !Head(es, s, p)
  {
    assert Less(es[p - 1].key, es[p].key);
    if j < p - 1 { assert Less(es[j].key, es[p - 1].key); }
  }

  lemma HeadReads(es: seq<Entry>, s: nat, p: nat)
    requires RunOk(es) && Head(es, s, p)
    ensures Read(Content(es), es[p].key.user, s) == Outcome(es[p])
  {
    var user := es[p].key.user;
    forall x | x in Content(es) && VisibleAt(x, user, s) ensures x.key.seqno <= es[p].key.seqno {
      var j :| 0 <= j < |es| && es[j] == x;
      if j < p {
        HeadIsFirst(es, s, j, p);
      } else if p < j {
        assert Less(es[p].key, es[j].key);
      }
    }
    assert Newest(Content(es), user, s, es[p]);
    ReadIsNewest(Content(es), user, s, es[p]);
  }

  lemma VisibleHasHead(es: seq<Entry>, s: nat, user: UserKey) returns (p: nat)
    requires RunOk(es) && Read(Content(es), user, s).Some?
    ensures ValueHead(es, s, p) && es[p].key.user == user
  {
    var e :| Newest(Content(es), user, s, e) && Read(Content(es), user, s) == Outcome(e);
    var i :| 0 <= i < |es| && es[i] == e;
    p := i;
    if p > 0 && es[p - 1].key.user == user && es[p - 1].key.seqno <= s {
      NewestIsFirst(es, s, p);
      assert false;
    }
  }

  /** The entry right before one of the same user key is newer. */
  lemma NewestIsFirst(es: seq<Entry>, s: nat, p: nat)
    requires RunOk(es) && 0 < p < |es| && es[p - 1].key.user == es[p].key.user && es[p - 1].key.seqno <= s
    ensures !Newest(Content(es), es[p].key.user, s, es[p])
  {
    var x := es[p - 1];
    assert Less(x.key, es[p].key);
    assert x in Content(es) && es[p] in Content(es) && VisibleAt(x, es[p].key.user, s);
    assert x.key.seqno != es[p].key.seqno;
  }

  lemma HeadsInUserOrder(es: seq<Entry>, s: nat, i: nat, j: nat)
    requires Sorted(es) && Head(es, s, i) && Head(es, s, j)
    ensures i < j <==> es[i].key.user < es[j].key.user
  {
    if i < j {
      assert Less(es[i].key, es[j].key);
      if es[i].key.user == es[j].key.user { HeadIsFirst(es, s, i, j); }
    } else if j < i {
      assert Less(es[j].key, es[i].key);
    }
  }

  // ------------------------------------------------------------------ the iterator

  /** On entry `at`: going forward the inner iterator is on it; going backward it is before everything of that user key
      that is not too new, and key and value are saved. */
  ghost predicate Stands(es: seq<Entry>, s: nat, at: nat, forward: bool, pos: nat, savedKey: Option<UserKey>,
                         savedValue: Bytes) {
    exists k :: k == at && StandsOn(es, s, k, forward, pos, savedKey, savedValue)
  }

  ghost predicate StandsOn(es: seq<Entry>, s: nat, at: nat, forward: bool, pos: nat, savedKey: Option<UserKey>,
                           savedValue: Bytes) {
    && ValueHead(es, s, at)
    && if forward then pos == at
       else savedKey == Some(es[at].key.user) && savedValue == es[at].value
            && if pos < |es|
               then pos < at && es[pos].key.user < savedKey.value && TooNewIn(es, s, pos + 1, at)
               else TooNewIn(es, s, 0, at)
  }

  lemma StandsForward(es: seq<Entry>, s: nat, at: nat, savedKey: Option<UserKey>, savedValue: Bytes)
    requires ValueHead(es, s, at)
    ensures Stands(es, s, at, true, at, savedKey, savedValue)
  {
    assert StandsOn(es, s, at, true, at, savedKey, savedValue);
  }

  class DBIter {
    const iter: Cursor
    const sequence: SequenceNumber
    var forward: bool
    var valid: bool
    var savedKey: Option<UserKey>
    var savedValue: Bytes
    /** Index of the entry the iterator stands on. */
    ghost var at: nat

    /** What no movement changes. */
    ghost predicate EntriesOk() {
      RunOk(iter.entries)
    }

    ghost predicate Base()
      reads this, iter
    {
      EntriesOk() && iter.Ok()
    }

    ghost predicate Valid()
      reads this, iter
    {
      && Base()
      && (valid ==> Stands(iter.entries, sequence, at, forward, iter.pos, savedKey, savedValue))
    }

    constructor (iter: Cursor, sequence: SequenceNumber)
      requires iter.Ok() && RunOk(iter.entries)
      ensures Valid() && !valid && this.iter == iter && this.sequence == sequence
    {
      this.iter := iter;
      this.sequence := sequence;
      forward, valid, savedKey, savedValue, at := true, false, None, [], 0;
    }

    function CurrentKey(): UserKey
      requires Valid() && valid
      reads this, iter
    {
      if forward then iter.Key().user else savedKey.value
    }

    function CurrentValue(): Bytes
      requires Valid() && valid
      reads this, iter
    {
      if forward then iter.entries[iter.pos].value else savedValue
    }

    /** The value of `user` at this iterator's sequence number, if it has one. */
    ghost function View(user: UserKey): Option<Bytes> {
      Read(Content(iter.entries), user, sequence)
    }

    /** FindNextUserEntry: forward to the first entry to yield, hiding everything up to `skip` once skipping. */
    method FindNextUserEntry(skipping0: bool, skip0: UserKey)
      requires Base() && iter.IsValid() && forward
      modifies this, iter
      ensures Base() && forward && iter.pos == ScanForward(iter.entries, sequence, old(iter.pos), skipping0, skip0)
      ensures valid == iter.IsValid() && (valid ==> at == iter.pos)
    {
      var skipping, skip := skipping0, skip0;
      ghost var target := ScanForward(iter.entries, sequence, iter.pos, skipping0, skip0);
      while true
        invariant Base() && iter.IsValid() && forward
        invariant ScanForward(iter.entries, sequence, iter.pos, skipping, skip) == target
        decreases |iter.entries| - iter.pos
      {
        var ikey := iter.Key();
        if ikey.seqno <= sequence {
          match ikey.kind {
            case Deletion =>
              skip := ikey.user;
              skipping := true;
            case Value =>
              if skipping && ikey.user <= skip {
              } else {
                valid := true;
                savedKey := None;
                at := iter.pos;
                return;
              }
          }
        }
        iter.Next();
        if !iter.IsValid() {
          break;
        }
      }
      savedKey := None;
      valid := false;
    }

    /** The loop of FindPrevUserEntry; `at` follows the last visible entry it met. */
    method ScanBackward() returns (valueType: ValueType)
      requires Base() && iter.IsValid() && !forward
      modifies iter, `savedKey, `savedValue, `at
      ensures Base()
      ensures var r := ScanBack(iter.entries, sequence, old(iter.pos) + 1, |iter.entries|);
              iter.pos == StepBack(iter.entries, r.0) && r.0 <= old(iter.pos) + 1 && at == r.1
      ensures valueType == KindAt(iter.entries, at)
      ensures valueType == Value ==> savedKey == Some(iter.entries[at].key.user) && savedValue == iter.entries[at].value
    {
      valueType := Deletion;
      at := |iter.entries|;
      ghost var start := iter.pos + 1;
      ghost var target := ScanBack(iter.entries, sequence, start, at);
      while true
        invariant Base() && iter.IsValid()
        invariant ScanBack(iter.entries, sequence, iter.pos + 1, at) == target && iter.pos < start
        invariant valueType == KindAt(iter.entries, at)
        invariant valueType == Value ==> savedKey == Some(iter.entries[at].key.user) && savedValue == iter.entries[at].value
        decreases iter.pos
      {
        var ikey := iter.Key();
        if ikey.seqno <= sequence {
          if valueType != Deletion && ikey.user < savedKey.value {
            break;
          }
          at := iter.pos;
          valueType := ikey.kind;
          if valueType == Deletion {
            savedKey, savedValue := None, [];
          } else {
            savedKey := Some(ikey.user);
            savedValue := iter.entries[iter.pos].value;
          }
        }
        iter.Prev();
        if !iter.IsValid() {
          break;
        }
      }
    }

    /** FindPrevUserEntry: backward over one user key after another until one whose newest visible entry is a value. */
    method FindPrevUserEntry()
      requires Base() && !forward
      modifies this, iter
      ensures Base() && (valid ==> old(iter.IsValid()) && !forward)
      ensures old(iter.IsValid()) ==>
                var r := ScanBack(iter.entries, sequence, old(iter.pos) + 1, |iter.entries|);
                iter.pos == StepBack(iter.entries, r.0) && r.0 <= old(iter.pos) + 1
                && valid == IsValue(iter.entries, r.1) && (valid ==> at == r.1)
      ensures valid ==> IsValue(iter.entries, at)
                        && savedKey == Some(iter.entries[at].key.user) && savedValue == iter.entries[at].value
    {
      var valueType := Deletion;
      if iter.IsValid() {
        valueType := ScanBackward();
      }
      if valueType == Deletion {
        valid := false;
        savedKey, savedValue := None, [];
        forward := true;
      } else {
        valid := true;
      }
    }

    // ---------------------------------------------------------------- the public operations

    /** The entry the iterator stands on is what its user key reads as. */
    lemma StandsOnView()
      requires Valid() && valid
      ensures CurrentKey() == iter.entries[at].key.user && View(CurrentKey()) == Some(CurrentValue())
    {
      HeadReads(iter.entries, sequence, at);
    }

    /** On a value head going forward: the iterator stands there. */
    lemma LandsForward()
      requires Base() && forward && at == iter.pos && ValueHead(iter.entries, sequence, at)
      ensures Valid() && (valid ==> CurrentKey() == iter.entries[at].key.user && View(CurrentKey()) == Some(CurrentValue()))
    {
      StandsForward(iter.entries, sequence, at, savedKey, savedValue);
      if valid { StandsOnView(); }
    }

    method Next()
      requires Valid() && valid
      modifies this, iter
      ensures Valid()
      ensures valid ==> old(CurrentKey()) < CurrentKey() && View(CurrentKey()) == Some(CurrentValue())
      ensures forall u: UserKey :: old(CurrentKey()) < u && (valid ==> u < CurrentKey()) ==> View(u) == None
    {
      ghost var from := at;
      var skip;
      if !forward {
        forward := true;
        skip := savedKey.value;
        if !iter.IsValid() {
          iter.SeekToFirst();
        } else {
          iter.Next();
        }
      } else {
        skip := iter.Key().user;
      }
      SkipCurrent(iter.entries, sequence, from, iter.pos);
      ghost var p0 := iter.pos;
      FindNextUserEntry(true, skip);
      ForwardFinds(iter.entries, sequence, p0, p0, true, skip, true, skip);
      forall u: UserKey | skip < u && (valid ==> u < iter.Key().user) ensures View(u) == None {
        NothingPassed(iter.entries, sequence, p0, from, true, skip, iter.pos, u);
      }
      if valid { LandsForward(); }
    }

    method Seek(target: UserKey)
      requires Valid()
      modifies this, iter
      ensures Valid()
      ensures valid ==> target <= CurrentKey() && View(CurrentKey()) == Some(CurrentValue())
      ensures forall u: UserKey :: target <= u && (valid ==> u < CurrentKey()) ==> View(u) == None
    {
      forward := true;
      savedKey, savedValue := None, [];
      iter.Seek(LookupKey(target, sequence));
      ghost var p0 := iter.pos;
      if iter.IsValid() {
        SeekStart(iter.entries, sequence, target);
        FindNextUserEntry(false, 0.0);
        SkipStarts(iter.entries, sequence, p0, false, 0.0);
        ForwardFinds(iter.entries, sequence, p0, p0, false, 0.0, false, 0.0);
      } else {
        valid := false;
      }
      forall u: UserKey | target <= u && (valid ==> u < iter.Key().user) ensures View(u) == None {
        NothingFrom(iter.entries, sequence, target, iter.pos, u);
      }
      if valid { LandsForward(); }
    }

    method SeekToFirst()
      requires Valid()
      modifies this, iter
      ensures Valid()
      ensures valid ==> View(CurrentKey()) == Some(CurrentValue())
      ensures forall u: UserKey :: (valid ==> u < CurrentKey()) ==> View(u) == None
    {
      forward := true;
      savedValue := [];
      iter.SeekToFirst();
      if iter.IsValid() {
        FindNextUserEntry(false, 0.0);
        SkipStarts(iter.entries, sequence, 0, false, 0.0);
        ForwardFinds(iter.entries, sequence, 0, 0, false, 0.0, false, 0.0);
      } else {
        valid := false;
      }
      forall u: UserKey | valid ==> u < iter.Key().user ensures View(u) == None {
        NothingPassed(iter.entries, sequence, 0, 0, false, 0.0, iter.pos, u);
      }
      if valid { LandsForward(); }
    }

    method Prev()
      requires Valid() && valid
      modifies this, iter
      ensures Valid()
      ensures valid ==> CurrentKey() < old(CurrentKey()) && View(CurrentKey()) == Some(CurrentValue())
      ensures forall u: UserKey :: u < old(CurrentKey()) && (valid ==> CurrentKey() < u) ==> View(u) == None
    {
      ghost var from := at;
      StandsOnView();
      if forward {
        var exhausted := StepBelow();
        if exhausted {
          valid := false;
          savedKey, savedValue := None, [];
          forall u: UserKey | u < iter.entries[from].key.user ensures View(u) == None {
            NothingBefore(iter.entries, sequence, 0, from, u);
          }
          return;
        }
        forward := false;
      }
      FindPrevFrom(from);
    }

    /** The direction switch of Prev: back until the user key changes, or off the beginning. */
    method StepBelow() returns (exhausted: bool)
      requires Base() && iter.IsValid() && forward
      modifies `savedKey, iter
      ensures Base() && savedKey == Some(iter.entries[old(iter.pos)].key.user)
      ensures exhausted == !iter.IsValid()
      ensures var start := if exhausted then 0 else iter.pos + 1;
              start <= old(iter.pos) && forall j :: start <= j <= old(iter.pos) ==> iter.entries[j].key.user == savedKey.value
      ensures !exhausted ==> iter.entries[iter.pos].key.user < savedKey.value
    {
      savedKey := Some(iter.Key().user);
      while true
        invariant Base() && iter.IsValid() && iter.pos <= old(iter.pos) && savedKey == Some(iter.entries[old(iter.pos)].key.user)
        invariant forall j :: iter.pos <= j <= old(iter.pos) ==> iter.entries[j].key.user == savedKey.value
        decreases iter.pos
      {
        iter.Prev();
        if !iter.IsValid() { return true; }
        assert Less(iter.Key(), iter.entries[iter.pos + 1].key);
        if iter.Key().user < savedKey.value { return false; }
      }
    }

    /** What FindPrevUserEntry does to the iterator: it lands on the last head at or before its position. */
    method FindLastHead()
      requires Base() && !forward
      modifies this, iter
      ensures Valid()
      ensures var start := if old(iter.IsValid()) then old(iter.pos) + 1 else 0;
              if valid then LastHead(iter.entries, sequence, start, at)
              else NoHeadBefore(iter.entries, sequence, 0, start, false, 0.0)
    {
      ghost var was, start := iter.IsValid(), if iter.IsValid() then iter.pos + 1 else 0;
      FindPrevUserEntry();
      BackwardLands(iter.entries, sequence, was, start, valid, at, iter.pos, savedKey, savedValue);
    }

    /** Landing on the last head before the old entry leaves nothing visible in between. */
    method FindPrevFrom(ghost from: nat)
      requires Base() && !forward && Head(iter.entries, sequence, from)
      requires forall h :: (if iter.IsValid() then iter.pos else -1) < h < from ==> !ValueHead(iter.entries, sequence, h)
      requires iter.IsValid() ==> iter.pos < from
      modifies this, iter
      ensures Valid()
      ensures valid ==> CurrentKey() < iter.entries[from].key.user && View(CurrentKey()) == Some(CurrentValue())
      ensures forall u: UserKey :: u < iter.entries[from].key.user && (valid ==> CurrentKey() < u) ==> View(u) == None
    {
      FindLastHead();
      ghost var a := if valid then at + 1 else 0;
      if valid {
        StandsOnView();
        HeadsInUserOrder(iter.entries, sequence, at, from);
      }
      forall u: UserKey | u < iter.entries[from].key.user && (valid ==> CurrentKey() < u) ensures View(u) == None {
        NothingBefore(iter.entries, sequence, a, from, u);
      }
    }

    method SeekToLast()
      requires Valid()
      modifies this, iter
      ensures Valid()
      ensures valid ==> View(CurrentKey()) == Some(CurrentValue())
      ensures forall u: UserKey :: (valid ==> CurrentKey() < u) ==> View(u) == None
    {
      forward := false;
      savedValue := [];
      iter.SeekToLast();
      FindLastHead();
      ghost var a := if valid then at + 1 else 0;
      if valid { StandsOnView(); }
      forall u: UserKey | valid ==> CurrentKey() < u ensures View(u) == None {
        NothingAfter(iter.entries, sequence, a, u);
      }
    }
  }

  // ------------------------------------------------------------------ from heads to user keys

  /** Skipping the current user key may start anywhere among the too-new entries before it. */
  lemma SkipCurrent(es: seq<Entry>, s: nat, at: nat, p0: nat)
    requires Sorted(es) && at < |es| && p0 <= at && TooNewIn(es, s, p0, at)
    ensures StartOk(es, s, p0, true, es[at].key.user)
    ensures SkipInv(es, s, p0, p0, true, es[at].key.user, true, es[at].key.user)
  {
    if p0 < at { assert Less(es[p0].key, es[at].key); }
    forall j | p0 <= j < |es| && es[j].key.seqno <= s ensures es[j].key.user >= es[at].key.user {
      if at < j { assert Less(es[at].key, es[j].key); }
    }
    SkipStarts(es, s, p0, true, es[at].key.user);
  }

  lemma SeekStart(es: seq<Entry>, s: SequenceNumber, target: UserKey)
    requires Sorted(es)
    ensures var p0 := LowerBound(es, LookupKey(target, s));
            p0 < |es| ==> StartOk(es, s, p0, false, 0.0) && es[p0].key.user >= target
  {
    var k := LookupKey(target, s);
    var p0 := LowerBound(es, k);
    if 0 < p0 < |es| {
      assert Less(es[p0 - 1].key, k) && !Less(es[p0].key, k);
    }
  }

  /** A user key the forward scan went past has nothing to show, unless it was to be skipped. */
  lemma NothingPassed(es: seq<Entry>, s: nat, p0: nat, from: nat, skipping: bool, skip: UserKey, r: nat, user: UserKey)
    requires RunOk(es) && r <= |es| && NoHeadBefore(es, s, p0, r, skipping, skip) && p0 <= from
    requires if skipping then Head(es, s, from) && es[from].key.user == skip && skip < user else from == 0
    requires r < |es| ==> Head(es, s, r) && user < es[r].key.user
    ensures Read(Content(es), user, s) == None
  {
    if Read(Content(es), user, s).Some? {
      var h := VisibleHasHead(es, s, user);
      if r < |es| { HeadsInUserOrder(es, s, h, r); }
      if skipping { HeadsInUserOrder(es, s, from, h); }
    }
  }

  lemma NothingFrom(es: seq<Entry>, s: SequenceNumber, target: UserKey, r: nat, user: UserKey)
    requires RunOk(es) && target <= user
    requires var p0 := LowerBound(es, LookupKey(target, s));
             p0 <= r <= |es| && NoHeadBefore(es, s, p0, r, false, 0.0)
    requires r < |es| ==> Head(es, s, r) && user < es[r].key.user
    ensures Read(Content(es), user, s) == None
  {
    if Read(Content(es), user, s).Some? {
      var h := VisibleHasHead(es, s, user);
      if r < |es| { HeadsInUserOrder(es, s, h, r); }
    }
  }

  lemma NothingBefore(es: seq<Entry>, s: nat, a: nat, from: nat, user: UserKey)
    requires RunOk(es) && Head(es, s, from) && user < es[from].key.user
    requires forall h :: a <= h < from ==> !ValueHead(es, s, h)
    requires a > 0 ==> Head(es, s, a - 1) && es[a - 1].key.user < user
    ensures Read(Content(es), user, s) == None
  {
    if Read(Content(es), user, s).Some? {
      var h := VisibleHasHead(es, s, user);
      HeadsInUserOrder(es, s, h, from);
      if a > 0 { HeadsInUserOrder(es, s, a - 1, h); }
    }
  }

  lemma NothingAfter(es: seq<Entry>, s: nat, a: nat, user: UserKey)
    requires RunOk(es) && forall h :: a <= h < |es| ==> !ValueHead(es, s, h)
    requires a > 0 ==> Head(es, s, a - 1) && es[a - 1].key.user < user
    ensures Read(Content(es), user, s) == None
  {
    if Read(Content(es), user, s).Some? {
      var h := VisibleHasHead(es, s, user);
      if a > 0 { HeadsInUserOrder(es, s, a - 1, h); }
    }
  }

  // ------------------------------------------------------------------ the two scans as functions

  /** Where FindNextUserEntry stops, scanning from `p`. */
  function ScanForward(es: seq<Entry>, s: nat, p: nat, skipping: bool, skip: UserKey): nat
    decreases |es| - p
  {
    if p >= |es| then |es|
    else
      var k := es[p].key;
      if k.seqno > s then ScanForward(es, s, p + 1, skipping, skip)
      else if k.kind.Deletion? then ScanForward(es, s, p + 1, true, k.user)
      else if skipping && k.user <= skip then ScanForward(es, s, p + 1, skipping, skip)
      else p
  }

  predicate IsValue(es: seq<Entry>, at: nat) {
    at < |es| && es[at].key.kind.Value?
  }

  function KindAt(es: seq<Entry>, at: nat): ValueType {
    if IsValue(es, at) then Value else Deletion
  }

  /** Where FindPrevUserEntry stops, scanning down from just below `p`, and the last visible entry it met. */
  function ScanBack(es: seq<Entry>, s: nat, p: nat, at: nat): (nat, nat)
    requires p <= |es|
  {
    if p == 0 then (0, at)
    else
      var k := es[p - 1].key;
      if k.seqno > s then ScanBack(es, s, p - 1, at)
      else if IsValue(es, at) && k.user < es[at].key.user then (p, at)
      else ScanBack(es, s, p - 1, p - 1)
  }

  // ------------------------------------------------------------------ what the scans find

  /** The scan may start at `p0`: it is not in the middle of a user key, or it starts by skipping that key. */
  ghost predicate StartOk(es: seq<Entry>, s: nat, p0: nat, skipping: bool, skip: UserKey) {
    p0 < |es| &&
    if skipping then
      && es[p0].key.user <= skip
      && forall j :: p0 <= j < |es| && es[j].key.seqno <= s ==> es[j].key.user >= skip
    else p0 > 0 ==> es[p0 - 1].key.user != es[p0].key.user || es[p0 - 1].key.seqno > s
  }

  /** No entry from `p0` up to `p` is to be yielded by a scan that skips up to `skip`. */
  ghost predicate NoHeadBefore(es: seq<Entry>, s: nat, p0: nat, p: nat, skipping: bool, skip: UserKey) {
    forall h {:trigger ValueHead(es, s, h)} :: p0 <= h < p && ValueHead(es, s, h) ==> skipping && es[h].key.user <= skip
  }

  ghost predicate FirstHead(es: seq<Entry>, s: nat, p0: nat, skipping: bool, skip: UserKey, h: nat) {
    && p0 <= h && ValueHead(es, s, h) && (skipping ==> es[h].key.user > skip)
    && NoHeadBefore(es, s, p0, h, skipping, skip)
  }

  /** A visible entry of `user` stands from `p0` up to `p`. */
  ghost predicate SeenBefore(es: seq<Entry>, s: nat, p0: nat, p: nat, user: UserKey) {
    exists j :: p0 <= j < p && j < |es| && es[j].key.user == user && es[j].key.seqno <= s
  }

  /** Everything visible from `p0` up to `p` is hidden by `skip`. */
  ghost predicate AllHidden(es: seq<Entry>, s: nat, p0: nat, p: nat, skipping: bool, skip: UserKey) {
    forall j :: p0 <= j < p && j < |es| && es[j].key.seqno <= s ==> skipping && es[j].key.user <= skip
  }

  /** The state of FindNextUserEntry when it reaches `p`: everything visible it passed is hidden by `skip`. */
  ghost predicate SkipFacts(es: seq<Entry>, s: nat, p0: nat, p: nat, skipping0: bool, skip0: UserKey,
                            skipping: bool, skip: UserKey) {
    && p0 <= p <= |es| && StartOk(es, s, p0, skipping0, skip0)
    && (skipping0 ==> skipping && skip0 <= skip)
    && (skipping ==> (skipping0 && skip == skip0) || SeenBefore(es, s, p0, p, skip))
    && AllHidden(es, s, p0, p, skipping, skip)
    && NoHeadBefore(es, s, p0, p, skipping0, skip0)
  }

  ghost predicate SkipInv(es: seq<Entry>, s: nat, p0: nat, p: nat, skipping0: bool, skip0: UserKey,
                          skipping: bool, skip: UserKey) {
    exists k :: k == p && SkipFacts(es, s, p0, k, skipping0, skip0, skipping, skip)
  }

  lemma SkipStarts(es: seq<Entry>, s: nat, p0: nat, skipping: bool, skip: UserKey)
    requires p0 <= |es| && StartOk(es, s, p0, skipping, skip)
    ensures SkipInv(es, s, p0, p0, skipping, skip, skipping, skip)
  {
    assert SkipFacts(es, s, p0, p0, skipping, skip, skipping, skip);
  }

  /** A visible entry never precedes the key being skipped, and one of that very key is no head. */
  lemma SkipInOrder(es: seq<Entry>, s: nat, p0: nat, p: nat, skipping0: bool, skip0: UserKey, skipping: bool, skip: UserKey)
    requires Sorted(es) && p < |es| && SkipInv(es, s, p0, p, skipping0, skip0, skipping, skip) && es[p].key.seqno <= s
    ensures skipping ==> skip <= es[p].key.user
    ensures skipping0 ==> skip0 <= es[p].key.user
    ensures skipping && es[p].key.user <= skip && !(skipping0 && skip == skip0) ==> !Head(es, s, p)
  {
    if skipping && !(skipping0 && skip == skip0) {
      var j :| p0 <= j < p && j < |es| && es[j].key.user == skip && es[j].key.seqno <= s;
      assert Less(es[j].key, es[p].key);
      if es[p].key.user == skip { HeadIsFirst(es, s, j, p); }
    }
  }

  lemma SeenStays(es: seq<Entry>, s: nat, p0: nat, p: nat, user: UserKey)
    ensures SeenBefore(es, s, p0, p, user) ==> SeenBefore(es, s, p0, p + 1, user)
    ensures p0 <= p < |es| && es[p].key.user == user && es[p].key.seqno <= s ==> SeenBefore(es, s, p0, p + 1, user)
  {
  }

  lemma HiddenExtends(es: seq<Entry>, s: nat, p0: nat, p: nat, skipping: bool, skip: UserKey, skip': UserKey)
    requires p < |es| && AllHidden(es, s, p0, p, skipping, skip) && (skipping ==> skip <= skip')
    requires es[p].key.seqno <= s ==> es[p].key.user <= skip'
    ensures AllHidden(es, s, p0, p + 1, true, skip')
    ensures es[p].key.seqno > s ==> AllHidden(es, s, p0, p + 1, skipping, skip)
  {
  }

  lemma NoHeadExtends(es: seq<Entry>, s: nat, p0: nat, p: nat, skipping: bool, skip: UserKey)
    requires p < |es| && NoHeadBefore(es, s, p0, p, skipping, skip)
    requires ValueHead(es, s, p) ==> skipping && es[p].key.user <= skip
    ensures NoHeadBefore(es, s, p0, p + 1, skipping, skip)
  {
  }

  /** Passing an entry that is too new or hidden keeps the state. */
  lemma SkipPasses(es: seq<Entry>, s: nat, p0: nat, p: nat, skipping0: bool, skip0: UserKey, skipping: bool, skip: UserKey)
    requires Sorted(es) && p < |es| && SkipInv(es, s, p0, p, skipping0, skip0, skipping, skip)
    requires es[p].key.seqno > s || (es[p].key.kind.Value? && skipping && es[p].key.user <= skip)
    ensures SkipInv(es, s, p0, p + 1, skipping0, skip0, skipping, skip)
  {
    SeenStays(es, s, p0, p, skip);
    HiddenExtends(es, s, p0, p, skipping, skip, skip);
    if es[p].key.seqno <= s {
      SkipInOrder(es, s, p0, p, skipping0, skip0, skipping, skip);
    }
    NoHeadExtends(es, s, p0, p, skipping0, skip0);
    assert SkipFacts(es, s, p0, p + 1, skipping0, skip0, skipping, skip);
  }

  /** A visible deletion marker hides everything up to its own user key. */
  lemma SkipMarker(es: seq<Entry>, s: nat, p0: nat, p: nat, skipping0: bool, skip0: UserKey, skipping: bool, skip: UserKey)
    requires Sorted(es) && p < |es| && SkipInv(es, s, p0, p, skipping0, skip0, skipping, skip)
    requires es[p].key.seqno <= s && es[p].key.kind.Deletion?
    ensures SkipInv(es, s, p0, p + 1, skipping0, skip0, true, es[p].key.user)
  {
    SeenStays(es, s, p0, p, es[p].key.user);
    SkipInOrder(es, s, p0, p, skipping0, skip0, skipping, skip);
    HiddenExtends(es, s, p0, p, skipping, skip, es[p].key.user);
    NoHeadExtends(es, s, p0, p, skipping0, skip0);
    assert SkipFacts(es, s, p0, p + 1, skipping0, skip0, true, es[p].key.user);
  }

  lemma SkipYields(es: seq<Entry>, s: nat, p0: nat, p: nat, skipping0: bool, skip0: UserKey, skipping: bool, skip: UserKey)
    requires Sorted(es) && p < |es| && SkipInv(es, s, p0, p, skipping0, skip0, skipping, skip)
    requires es[p].key.seqno <= s && es[p].key.kind.Value? && !(skipping && es[p].key.user <= skip)
    ensures FirstHead(es, s, p0, skipping0, skip0, p)
  {
    assert p > p0 ==> Less(es[p - 1].key, es[p].key);
  }

  lemma {:induction false} ForwardFinds(es: seq<Entry>, s: nat, p0: nat, p: nat, skipping0: bool, skip0: UserKey,
                                        skipping: bool, skip: UserKey)
    requires Sorted(es) && SkipInv(es, s, p0, p, skipping0, skip0, skipping, skip)
    ensures var r := ScanForward(es, s, p, skipping, skip);
            && r <= |es| && NoHeadBefore(es, s, p0, r, skipping0, skip0)
            && (r < |es| ==> FirstHead(es, s, p0, skipping0, skip0, r))
    decreases |es| - p
  {
    if p < |es| {
      var k := es[p].key;
      if k.seqno > s || (k.kind.Value? && skipping && k.user <= skip) {
        SkipPasses(es, s, p0, p, skipping0, skip0, skipping, skip);
        ForwardFinds(es, s, p0, p + 1, skipping0, skip0, skipping, skip);
      } else if k.kind.Deletion? {
        SkipMarker(es, s, p0, p, skipping0, skip0, skipping, skip);
        ForwardFinds(es, s, p0, p + 1, skipping0, skip0, true, k.user);
      } else {
        SkipYields(es, s, p0, p, skipping0, skip0, skipping, skip);
      }
    }
  }

  /** Entries from index `a` up to `b` are too new to be seen. */
  ghost predicate TooNewIn(es: seq<Entry>, s: nat, a: nat, b: nat) {
    forall j :: a <= j < b && j < |es| ==> es[j].key.seqno > s
  }

  /** The state of FindPrevUserEntry when everything from `p` to below `start` has been examined: `at` is the last
      visible entry it met, or |es|. */
  ghost predicate BackFacts(es: seq<Entry>, s: nat, start: nat, p: nat, at: nat) {
    && p <= start <= |es| && p <= at
    && (at < |es| ==> at < start && es[at].key.seqno <= s && TooNewIn(es, s, p, at))
    && (at >= |es| ==> TooNewIn(es, s, p, start))
    && forall h {:trigger ValueHead(es, s, h)} :: p <= h < start && ValueHead(es, s, h) ==> h == at
  }

  ghost predicate BackInv(es: seq<Entry>, s: nat, start: nat, p: nat, at: nat) {
    exists k :: k == p && BackFacts(es, s, start, k, at)
  }

  ghost predicate LastHead(es: seq<Entry>, s: nat, start: nat, h: nat) {
    h < start && ValueHead(es, s, h) && forall g :: h < g < start ==> !ValueHead(es, s, g)
  }

  lemma BackStarts(es: seq<Entry>, s: nat, start: nat)
    requires start <= |es|
    ensures BackInv(es, s, start, start, |es|)
  {
    assert BackFacts(es, s, start, start, |es|);
  }

  /** Passing an entry that is too new. */
  lemma BackPasses(es: seq<Entry>, s: nat, start: nat, p: nat, at: nat)
    requires 0 < p && BackInv(es, s, start, p, at) && es[p - 1].key.seqno > s
    ensures BackInv(es, s, start, p - 1, at)
  {
    assert BackFacts(es, s, start, p - 1, at);
  }

  /** Taking a visible entry in place of the last one: that was no value, or it has the same user key and is older. */
  lemma BackTakes(es: seq<Entry>, s: nat, start: nat, p: nat, at: nat)
    requires Sorted(es) && 0 < p && BackInv(es, s, start, p, at) && es[p - 1].key.seqno <= s
    requires IsValue(es, at) ==> es[p - 1].key.user >= es[at].key.user
    ensures BackInv(es, s, start, p - 1, p - 1)
  {
    if IsValue(es, at) {
      assert Less(es[p - 1].key, es[at].key);
      HeadIsFirst(es, s, p - 1, at);
    }
    assert BackFacts(es, s, start, p - 1, p - 1);
  }

  ghost predicate BackFound(es: seq<Entry>, s: nat, start: nat, p: nat, at: nat) {
    if IsValue(es, at)
    then LastHead(es, s, start, at) && p <= at && TooNewIn(es, s, p, at) && (p > 0 ==> es[p - 1].key.user < es[at].key.user)
    else NoHeadBefore(es, s, 0, start, false, 0.0)
  }

  ghost predicate BackDone(es: seq<Entry>, s: nat, start: nat, p: nat, at: nat) {
    exists k :: k == at && BackFound(es, s, start, p, k)
  }

  /** Where the scan stops, the last entry it took is a head, or there is none. */
  lemma BackStops(es: seq<Entry>, s: nat, start: nat, p: nat, at: nat)
    requires Sorted(es) && BackInv(es, s, start, p, at)
    requires p == 0 || (es[p - 1].key.seqno <= s && IsValue(es, at) && es[p - 1].key.user < es[at].key.user)
    ensures BackDone(es, s, start, p, at)
  {
    assert IsValue(es, at) && at > p ==> es[at - 1].key.seqno > s;
    assert BackFound(es, s, start, p, at);
  }

  lemma {:induction false} BackFinds(es: seq<Entry>, s: nat, start: nat, p: nat, at: nat)
    requires Sorted(es) && BackInv(es, s, start, p, at)
    ensures BackDone(es, s, start, ScanBack(es, s, p, at).0, ScanBack(es, s, p, at).1)
    decreases p
  {
    if p == 0 || (es[p - 1].key.seqno <= s && IsValue(es, at) && es[p - 1].key.user < es[at].key.user) {
      BackStops(es, s, start, p, at);
    } else if es[p - 1].key.seqno > s {
      BackPasses(es, s, start, p, at);
      BackFinds(es, s, start, p - 1, at);
    } else {
      BackTakes(es, s, start, p, at);
      BackFinds(es, s, start, p - 1, p - 1);
    }
  }

  /** A whole backward scan from position `start` ends on the last head before it, with the iterator where it should be. */
  lemma BackLands(es: seq<Entry>, s: nat, start: nat)
    requires Sorted(es) && start <= |es|
    ensures var r := ScanBack(es, s, start, |es|);
            if IsValue(es, r.1)
            then r.0 <= |es| && LastHead(es, s, start, r.1)
                 && Stands(es, s, r.1, false, StepBack(es, r.0), Some(es[r.1].key.user), es[r.1].value)
            else NoHeadBefore(es, s, 0, start, false, 0.0)
  {
    BackStarts(es, s, start);
    BackFinds(es, s, start, start, |es|);
    var r := ScanBack(es, s, start, |es|);
    if IsValue(es, r.1) {
      assert StandsOn(es, s, r.1, false, StepBack(es, r.0), Some(es[r.1].key.user), es[r.1].value);
    }
  }

  /** The same of what FindPrevUserEntry leaves behind; from an exhausted iterator it finds nothing. */
  lemma BackwardLands(es: seq<Entry>, s: nat, was: bool, start: nat, valid: bool, at: nat, pos: nat,
                      savedKey: Option<UserKey>, savedValue: Bytes)
    requires Sorted(es) && start <= |es| && (valid ==> was) && (!was ==> start == 0)
    requires was ==> var r := ScanBack(es, s, start, |es|);
                     pos == StepBack(es, r.0) && valid == IsValue(es, r.1) && (valid ==> at == r.1)
    requires valid ==> IsValue(es, at) && savedKey == Some(es[at].key.user) && savedValue == es[at].value
    ensures valid ==> LastHead(es, s, start, at) && Stands(es, s, at, false, pos, savedKey, savedValue)
    ensures !valid ==> NoHeadBefore(es, s, 0, start, false, 0.0)
  {
    if was { BackLands(es, s, start); }
  }
}
