/** User keys, internal keys and the order everything else rests on (db/dbformat.h, db/dbformat.cc).

    The user comparator is supplied by the caller of LevelDB and is only ever asked to compare. The model orders
    user keys like real numbers; module Bytewise shows that byte strings under the default bytewise order embed
    into the reals with the order unchanged, so nothing about that order is lost. */
module Keys {
  import opened Common

  type UserKey = real

  type Byte = x: int | 0 <= x < 256

  type Bytes = seq<Byte>

  /** kMaxSequenceNumber: eight bits of a 64-bit tag are left for the value type. */
  const MAX_SEQUENCE: nat := 0x100_0000_0000_0000 - 1

  type SequenceNumber = n: nat | n <= MAX_SEQUENCE

  datatype ValueType = Deletion | Value

  datatype InternalKey = InternalKey(user: UserKey, seqno: SequenceNumber, kind: ValueType)

  datatype Entry = Entry(key: InternalKey, value: Bytes)

  /** PackSequenceAndType. */
  function Tag(k: InternalKey): nat {
    k.seqno * 256 + if k.kind.Value? then 1 else 0
  }

  /** InternalKeyComparator::Compare: increasing user key, then decreasing tag. */
  function Compare(a: InternalKey, b: InternalKey): int {
    if a.user < b.user then -1
    else if a.user > b.user then 1
    else if Tag(a) > Tag(b) then -1
    else if Tag(a) < Tag(b) then 1
    else 0
  }

  predicate Less(a: InternalKey, b: InternalKey) {
    a.user < b.user || (a.user == b.user && Tag(a) > Tag(b))
  }

  /** The comparison is a total order whose ties are equal keys, and for one user key it puts newer entries first. */
  lemma CompareIsNewestFirstTotalOrder(a: InternalKey, b: InternalKey, c: InternalKey)
    ensures Compare(a, b) < 0 <==> Less(a, b)
    ensures Compare(a, b) == -Compare(b, a)
    ensures Compare(a, b) == 0 <==> a == b
    ensures Compare(a, b) <= 0 && Compare(b, c) <= 0 ==> Compare(a, c) <= 0
    ensures a.user == b.user && a.seqno > b.seqno ==> Compare(a, b) < 0
  {
    assert a.seqno != b.seqno ==> Tag(a) != Tag(b);
  }

  /** LookupKey: the internal key a read of `user` at snapshot `s` seeks to. */
  function LookupKey(user: UserKey, s: SequenceNumber): InternalKey {
    InternalKey(user, s, Value)
  }

  /** A run of entries in strictly increasing internal-key order: a table, a memtable, or a merged stream. */
  ghost predicate Sorted(es: seq<Entry>) {
    forall i, j :: 0 <= i < j < |es| ==> Less(es[i].key, es[j].key)
  }

  ghost function Content(es: seq<Entry>): set<Entry> {
    set e | e in es
  }

  /** The position a Seek lands on: the first entry at or after `k`. */
  function LowerBound(es: seq<Entry>, k: InternalKey): (r: nat)
    ensures r <= |es|
    ensures forall i :: 0 <= i < r ==> Less(es[i].key, k)
    ensures r < |es| ==> !Less(es[r].key, k)
  {
    if es == [] || !Less(es[0].key, k) then 0 else 1 + LowerBound(es[1..], k)
  }

  lemma LowerBoundSplits(es: seq<Entry>, k: InternalKey)
    requires Sorted(es)
    ensures forall i :: LowerBound(es, k) <= i < |es| ==> !Less(es[i].key, k)
  {
    var r := LowerBound(es, k);
    forall i | r <= i < |es| ensures !Less(es[i].key, k) {
      if i > r { assert Less(es[r].key, es[i].key); }
    }
  }

  lemma LowerBoundUnique(es: seq<Entry>, k: InternalKey, r: nat)
    requires Sorted(es) && r <= |es|
    requires forall i :: 0 <= i < r ==> Less(es[i].key, k)
    requires r < |es| ==> !Less(es[r].key, k)
    ensures LowerBound(es, k) == r
  {
  }

  /** MemTable::Add: the skip list keeps its entries in order. */
  function Insert(run: seq<Entry>, e: Entry): seq<Entry> {
    var r := LowerBound(run, e.key);
    run[..r] + [e] + run[r..]
  }

  lemma InsertKeepsRun(run: seq<Entry>, e: Entry)
    requires Sorted(run) && forall x :: x in run ==> x.key != e.key
    ensures Sorted(Insert(run, e)) && Content(Insert(run, e)) == Content(run) + {e}
  {
    var r := LowerBound(run, e.key);
    LowerBoundSplits(run, e.key);
    forall i | r <= i < |run| ensures Less(e.key, run[i].key) {
      assert run[i] in run;
      CompareIsNewestFirstTotalOrder(e.key, run[i].key, e.key);
    }
    SortedAround(run[..r], e, run[r..]);
    ContentAround(run[..r], e, run[r..]);
    assert run == run[..r] + run[r..];
  }

  lemma SortedAround(a: seq<Entry>, e: Entry, b: seq<Entry>)
    requires Sorted(a) && Sorted(b)
    requires forall i :: 0 <= i < |a| ==> Less(a[i].key, e.key)
    requires forall i :: 0 <= i < |b| ==> Less(e.key, b[i].key)
    ensures Sorted(a + [e] + b)
  {
    var all := a + [e] + b;
    var n := |a|;
    forall i, j | 0 <= i < j < |all| ensures Less(all[i].key, all[j].key) {
      assert i < n ==> all[i] == a[i];
      assert i > n ==> all[i] == b[i - n - 1];
      assert j < n ==> all[j] == a[j];
      assert j > n ==> all[j] == b[j - n - 1];
    }
  }

  lemma ContentAround(a: seq<Entry>, e: Entry, b: seq<Entry>)
    ensures Content(a + [e] + b) == Content(a + b) + {e}
  {
  }

  function InsertAll(run: seq<Entry>, batch: seq<Entry>): seq<Entry> {
    if batch == [] then run
    else Insert(InsertAll(run, batch[..|batch| - 1]), batch[|batch| - 1])
  }

  // ------------------------------------------------------------------ reading

  ghost predicate VisibleAt(e: Entry, user: UserKey, s: nat) {
    e.key.user == user && e.key.seqno <= s
  }

  ghost predicate NoneVisible(content: set<Entry>, user: UserKey, s: nat) {
    forall x :: x in content ==> !VisibleAt(x, user, s)
  }

  /** `e` is the newest entry of `user` that a reader at sequence `s` may see. */
  ghost predicate Newest(content: set<Entry>, user: UserKey, s: nat, e: Entry) {
    && e in content && VisibleAt(e, user, s)
    && forall x :: x in content && VisibleAt(x, user, s) ==> x.key.seqno <= e.key.seqno
  }

  /** Every write consumes a fresh sequence number, so one user key never has two entries with the same number. */
  ghost predicate UniqueEntries(content: set<Entry>) {
    forall x, y :: x in content && y in content && x.key.user == y.key.user && x.key.seqno == y.key.seqno ==> x == y
  }

  function Outcome(e: Entry): Option<Bytes> {
    if e.key.kind.Value? then Some(e.value) else None
  }

  /** What reading `user` at sequence `s` must answer: the newest visible entry, a deletion reading as absent. */
  ghost function Read(content: set<Entry>, user: UserKey, s: nat): Option<Bytes> {
    if exists e :: Newest(content, user, s, e) then
      var e :| Newest(content, user, s, e); Outcome(e)
    else None
  }

  lemma {:induction false} NewestExists(content: set<Entry>, user: UserKey, s: nat, w: Entry) returns (e: Entry)
    requires w in content && VisibleAt(w, user, s)
    ensures Newest(content, user, s, e)
    decreases content
  {
    var rest := content - {w};
    if v :| v in rest && VisibleAt(v, user, s) {
      var r := NewestExists(rest, user, s, v);
      e := if r.key.seqno >= w.key.seqno then r else w;
      forall x | x in content && VisibleAt(x, user, s) ensures x.key.seqno <= e.key.seqno {
        assert x == w || x in rest;
      }
    } else {
      e := w;
      forall x | x in content && VisibleAt(x, user, s) ensures x.key.seqno <= e.key.seqno {
        assert x == w || x in rest;
      }
    }
  }

  lemma ReadIsNewest(content: set<Entry>, user: UserKey, s: nat, e: Entry)
    requires UniqueEntries(content)
    requires Newest(content, user, s, e)
    ensures Read(content, user, s) == Outcome(e)
  {
    forall d | Newest(content, user, s, d) ensures d == e {
      assert d in content;
    }
  }

  lemma ReadNothing(content: set<Entry>, user: UserKey, s: nat)
    requires NoneVisible(content, user, s)
    ensures Read(content, user, s) == None
  {
  }

  /** A search in one sorted run finds the newest visible entry of the run, or shows there is none. */
  lemma SeekFindsNewest(es: seq<Entry>, user: UserKey, s: SequenceNumber)
    requires Sorted(es)
    ensures var r := LowerBound(es, LookupKey(user, s));
            if r < |es| && es[r].key.user == user
            then Newest(Content(es), user, s, es[r])
            else NoneVisible(Content(es), user, s)
  {
    var k := LookupKey(user, s);
    var r := LowerBound(es, k);
    LowerBoundSplits(es, k);
    forall x | x in es && VisibleAt(x, user, s)
      ensures r < |es| && es[r].key.user == user && x.key.seqno <= es[r].key.seqno
    {
      var i :| 0 <= i < |es| && es[i] == x;
      assert r <= i;
      if r < i { assert Less(es[r].key, es[i].key); }
    }
    if r < |es| { assert !Less(es[r].key, k); }
  }
}
