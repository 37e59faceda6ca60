/** The queue of writers: the one in front writes a group of batches for all of them (db/db_impl.cc). */
module WriteQueue {
  import opened Common
  import opened Batches

  /** A thread inside Write. One without a batch only waits for the writes before it. */
  datatype PendingWrite = PendingWrite(id: nat, batch: Option<seq<BatchOp>>, sync: bool)

  const GROUP_LIMIT: nat := 0x10_0000
  const SMALL_WRITE: nat := 0x2_0000

  /** WriteBatchInternal::ByteSize. */
  function ByteSize(ops: seq<BatchOp>): nat {
    BATCH_HEADER + |EncodeOps(ops)|
  }

  /** A group may grow to a megabyte, but a small first write is not slowed down by more than 128 kilobytes. */
  function MaxSize(first: seq<BatchOp>): nat {
    if ByteSize(first) <= SMALL_WRITE then ByteSize(first) + SMALL_WRITE else GROUP_LIMIT
  }

  function OpsOfWriter(w: PendingWrite): seq<BatchOp> {
    if w.batch.Some? then w.batch.value else []
  }

  /** The operations of a list of writers, in order. */
  function Joined(writers: seq<PendingWrite>): seq<BatchOp> {
    if writers == [] then [] else Joined(writers[..|writers| - 1]) + OpsOfWriter(writers[|writers| - 1])
  }

  /** The same for the first `n` of them, and the size of their batches. */
  function JoinedTo(writers: seq<PendingWrite>, n: nat): seq<BatchOp>
    requires n <= |writers|
  {
    if n == 0 then [] else JoinedTo(writers, n - 1) + OpsOfWriter(writers[n - 1])
  }

  function SizeOfWriter(w: PendingWrite): nat {
    if w.batch.Some? then ByteSize(w.batch.value) else 0
  }

  function TotalTo(writers: seq<PendingWrite>, n: nat): nat
    requires n <= |writers|
  {
    if n == 0 then 0 else TotalTo(writers, n - 1) + SizeOfWriter(writers[n - 1])
  }

  lemma {:induction false} JoinedPrefix(writers: seq<PendingWrite>, n: nat)
    requires n <= |writers|
    ensures JoinedTo(writers, n) == Joined(writers[..n])
  {
    if n > 0 {
      JoinedPrefix(writers, n - 1);
      assert writers[..n][..n - 1] == writers[..n - 1];
    }
  }

  lemma {:induction false} JoinedConcat(a: seq<PendingWrite>, b: seq<PendingWrite>)
    ensures Joined(a + b) == Joined(a) + Joined(b)
  {
    if b == [] {
      assert a + b == a;
    } else {
      var n := |b| - 1;
      assert (a + b)[..|a| + n] == a + b[..n];
      JoinedConcat(a, b[..n]);
      ConcatAssoc(Joined(a), Joined(b[..n]), OpsOfWriter(b[n]));
    }
  }

  /** The k-th writer's batch still fits. */
  predicate Fits(writers: seq<PendingWrite>, k: nat)
    requires 0 < k <= |writers| && writers[0].batch.Some?
  {
    writers[k - 1].batch.Some? ==> TotalTo(writers, k) <= MaxSize(writers[0].batch.value)
  }

  /** Whether the group of the first `n` writers may not take in the next one. */
  predicate GroupIsFull(writers: seq<PendingWrite>, n: nat)
    requires 0 < n < |writers| && writers[0].batch.Some?
  {
    || (writers[n].sync && !writers[0].sync)
    || !Fits(writers, n + 1)
  }

  /** The first `n` writers may be written together. */
  ghost predicate CanGroup(writers: seq<PendingWrite>, n: nat) {
    && 0 < n <= |writers| && writers[0].batch.Some?
    && (!writers[0].sync ==> forall i :: 0 <= i < n ==> !writers[i].sync)
    && forall k :: 1 < k <= n ==> Fits(writers, k)
  }

  ghost predicate IsGroup(writers: seq<PendingWrite>, n: nat) {
    CanGroup(writers, n) && (n < |writers| ==> GroupIsFull(writers, n))
  }

  lemma GroupGoesOn(writers: seq<PendingWrite>, n: nat, m: nat)
    requires CanGroup(writers, m) && 0 < n < m
    ensures !GroupIsFull(writers, n)
  {
    assert Fits(writers, n + 1);
  }

  /** A queue has one group only: what is taken in depends on nothing else. */
  lemma GroupIsUnique(writers: seq<PendingWrite>, n: nat, m: nat)
    requires IsGroup(writers, n) && IsGroup(writers, m)
    ensures n == m
  {
    if n < m {
      GroupGoesOn(writers, n, m);
    } else if m < n {
      GroupGoesOn(writers, m, n);
    }
  }

  /** What the loop of BuildBatchGroup has put together. */
  ghost predicate Gathered(writers: seq<PendingWrite>, n: nat, size: nat, result: seq<BatchOp>) {
    exists k :: k == n && CanGroup(writers, k) && size == TotalTo(writers, k) && result == JoinedTo(writers, k)
  }

  lemma GroupTakes(writers: seq<PendingWrite>, n: nat)
    requires CanGroup(writers, n) && n < |writers| && Fits(writers, n + 1) && (writers[n].sync ==> writers[0].sync)
    ensures CanGroup(writers, n + 1)
  {
  }

  lemma GatherStart(writers: seq<PendingWrite>)
    requires writers != [] && writers[0].batch.Some?
    ensures Gathered(writers, 1, ByteSize(writers[0].batch.value), writers[0].batch.value)
  {
    OneWriter(writers);
    assert CanGroup(writers, 1);
  }

  lemma GatherOne(writers: seq<PendingWrite>, n: nat, size: nat, result: seq<BatchOp>, now: nat, more: seq<BatchOp>)
    requires Gathered(writers, n, size, result) && n < |writers| && (writers[n].sync ==> writers[0].sync)
    requires now == size + SizeOfWriter(writers[n]) && more == result + OpsOfWriter(writers[n])
    requires writers[n].batch.Some? ==> now <= MaxSize(writers[0].batch.value)
    ensures Gathered(writers, n + 1, now, more)
  {
    assert Fits(writers, n + 1);
    GroupTakes(writers, n);
  }

  lemma GatherStops(writers: seq<PendingWrite>, n: nat, size: nat, result: seq<BatchOp>)
    requires Gathered(writers, n, size, result)
    requires n < |writers| ==> (writers[n].sync && !writers[0].sync)
                               || (writers[n].batch.Some? && size + SizeOfWriter(writers[n]) > MaxSize(writers[0].batch.value))
    ensures IsGroup(writers, n) && result == Joined(writers[..n])
  {
    JoinedPrefix(writers, n);
  }

  /** BuildBatchGroup: the first writer's batch and as many after it as fit; no sync write joins one that is not. */
  method BuildBatchGroup(writers: seq<PendingWrite>) returns (n: nat, result: seq<BatchOp>)
    requires writers != [] && writers[0].batch.Some?
    ensures IsGroup(writers, n) && result == Joined(writers[..n])
  {
    var first := writers[0];
    result := first.batch.value;
    var size: nat := ByteSize(result);
    var maxSize := MaxSize(first.batch.value);
    n := 1;
    GatherStart(writers);
    while n < |writers|
      invariant n <= |writers| && Gathered(writers, n, size, result)
    {
      var w := writers[n];
      if w.sync && !first.sync {
        break;
      }
      ghost var before, sofar := size, result;
      if w.batch.Some? {
        if size + ByteSize(w.batch.value) > maxSize {
          break;
        }
        size := size + ByteSize(w.batch.value);
        result := result + w.batch.value;
      }
      GatherOne(writers, n, before, sofar, size, result);
      n := n + 1;
    }
    GatherStops(writers, n, size, result);
  }

  lemma OneWriter(writers: seq<PendingWrite>)
    requires writers != [] && writers[0].batch.Some?
    ensures JoinedTo(writers, 1) == writers[0].batch.value && TotalTo(writers, 1) == ByteSize(writers[0].batch.value)
  {
  }

  // ------------------------------------------------------------------ the queue as a state machine

  /** One record of the log. */
  datatype Record = Record(ops: seq<BatchOp>, synced: bool)

  /** A writer that has returned, and how many records were in the log by then. */
  datatype Returned = Returned(writer: PendingWrite, upto: nat)

  /** `leading` is the size of the group the front writer is writing with the mutex released. */
  datatype State = State(queue: seq<PendingWrite>, leading: Option<nat>, log: seq<Record>, returned: seq<Returned>)

  datatype Event = Arrive(w: PendingWrite) | Lead | Finish

  function Back(writers: seq<PendingWrite>, upto: nat): seq<Returned> {
    seq(|writers|, i requires 0 <= i < |writers| => Returned(writers[i], upto))
  }

  ghost predicate Next(st: State, ev: Event, after: State) {
    match ev
    case Arrive(w) => after == st.(queue := st.queue + [w])
    case Lead =>
      && st.leading == None && st.queue != []
      && exists n :: (if st.queue[0].batch.Some? then IsGroup(st.queue, n) else n == 1) && after == st.(leading := Some(n))
    case Finish =>
      && st.leading.Some? && st.leading.value <= |st.queue| && st.queue != []
      && var group := st.queue[..st.leading.value];
         var log := if st.queue[0].batch.Some? then st.log + [Record(Joined(group), st.queue[0].sync)] else st.log;
         after == State(st.queue[st.leading.value..], None, log, st.returned + Back(group, |log|))
  }

  function WritersOf(returned: seq<Returned>): seq<PendingWrite> {
    seq(|returned|, i requires 0 <= i < |returned| => returned[i].writer)
  }

  function LogOps(log: seq<Record>): seq<BatchOp> {
    if log == [] then [] else LogOps(log[..|log| - 1]) + log[|log| - 1].ops
  }

  function Arrivals(events: seq<Event>): seq<PendingWrite> {
    if events == [] then []
    else Arrivals(events[..|events| - 1]) + if events[|events| - 1].Arrive? then [events[|events| - 1].w] else []
  }

  /** The group being written is still what it was when it was formed, however many writers have queued up since. */
  ghost predicate LeaderOk(st: State) {
    st.leading.Some? ==>
      0 < st.leading.value <= |st.queue|
      && (st.queue[0].batch.None? ==> st.leading.value == 1)
      && (st.queue[0].batch.Some? && !st.queue[0].sync ==> forall i :: 0 <= i < st.leading.value ==> !st.queue[i].sync)
  }

  /** A writer that asked for a sync came back only after a synced record. */
  predicate SyncedBy(log: seq<Record>, r: Returned) {
    r.writer.sync && r.writer.batch.Some? ==> 0 < r.upto <= |log| && log[r.upto - 1].synced
  }

  ghost predicate SyncKept(st: State) {
    forall k :: 0 <= k < |st.returned| ==> SyncedBy(st.log, st.returned[k])
  }

  /** Nothing is lost, doubled or reordered: the log holds the operations of those who returned, the others still wait. */
  ghost predicate OrderKept(st: State, arrived: seq<PendingWrite>) {
    && WritersOf(st.returned) + st.queue == arrived
    && LogOps(st.log) == Joined(WritersOf(st.returned))
  }

  /** When the k-th writer came back, the log held the operations of the first `m` writers, its own among them. */
  predicate PlacedAt(log: seq<Record>, returned: seq<Returned>, k: nat, m: nat) {
    && k < m <= |returned| && returned[k].upto <= |log|
    && LogOps(log[..returned[k].upto]) == Joined(WritersOf(returned[..m]))
  }

  ghost predicate HasPlace(log: seq<Record>, returned: seq<Returned>, k: nat) {
    exists m: nat :: PlacedAt(log, returned, k, m)
  }

  ghost predicate PlacesKept(st: State) {
    forall k :: 0 <= k < |st.returned| ==> HasPlace(st.log, st.returned, k)
  }

  ghost predicate QueueOk(st: State, arrived: seq<PendingWrite>) {
    LeaderOk(st) && SyncKept(st) && OrderKept(st, arrived) && PlacesKept(st)
  }

  // ------------------------------------------------------------------ every step keeps it

  lemma ArriveKeeps(st: State, w: PendingWrite, after: State, arrived: seq<PendingWrite>)
    requires QueueOk(st, arrived) && Next(st, Arrive(w), after)
    ensures QueueOk(after, arrived + [w])
  {
    ConcatAssoc(WritersOf(st.returned), st.queue, [w]);
  }

  lemma LeadKeeps(st: State, after: State, arrived: seq<PendingWrite>)
    requires QueueOk(st, arrived) && Next(st, Lead, after)
    ensures QueueOk(after, arrived)
  {
  }

  lemma LogGrows(log: seq<Record>, r: Record)
    ensures LogOps(log + [r]) == LogOps(log) + r.ops
  {
    assert (log + [r])[..|log|] == log;
  }

  lemma BackWriters(returned: seq<Returned>, group: seq<PendingWrite>, upto: nat)
    ensures WritersOf(returned + Back(group, upto)) == WritersOf(returned) + group
    ensures WritersOf((returned + Back(group, upto))[..|returned|]) == WritersOf(returned)
  {
    assert (returned + Back(group, upto))[..|returned|] == returned;
  }

  /** What Finish appends to the log is what the group of writers brought. */
  lemma FinishLogs(st: State, after: State)
    requires LeaderOk(st) && Next(st, Finish, after)
    ensures st.log <= after.log && LogOps(after.log) == LogOps(st.log) + Joined(st.queue[..st.leading.value])
    ensures |st.log| < |after.log| <==> st.queue[0].batch.Some?
  {
    var group := st.queue[..st.leading.value];
    LogGrows(st.log, Record(Joined(group), st.queue[0].sync));
    if st.queue[0].batch.None? {
      assert group == [st.queue[0]] && group[..0] == [];
    }
  }

  lemma SplitQueue(back: seq<PendingWrite>, queue: seq<PendingWrite>, n: nat)
    requires n <= |queue|
    ensures back + queue[..n] + queue[n..] == back + queue
  {
    assert queue == queue[..n] + queue[n..];
  }

  lemma FinishOrder(st: State, after: State, arrived: seq<PendingWrite>)
    requires LeaderOk(st) && OrderKept(st, arrived) && Next(st, Finish, after)
    ensures OrderKept(after, arrived) && WritersOf(after.returned) == WritersOf(st.returned) + st.queue[..st.leading.value]
  {
    var back, group := WritersOf(st.returned), st.queue[..st.leading.value];
    FinishLogs(st, after);
    BackWriters(st.returned, group, |after.log|);
    JoinedConcat(back, group);
    SplitQueue(back, st.queue, st.leading.value);
  }

  lemma FinishSync(st: State, after: State)
    requires LeaderOk(st) && SyncKept(st) && Next(st, Finish, after)
    ensures SyncKept(after)
  {
    FinishLogs(st, after);
    forall k | 0 <= k < |after.returned| ensures SyncedBy(after.log, after.returned[k]) {
      if k < |st.returned| {
        assert after.returned[k] == st.returned[k] && SyncedBy(st.log, st.returned[k]);
      }
    }
  }

  lemma PlaceStays(log: seq<Record>, more: seq<Record>, returned: seq<Returned>, added: seq<Returned>, k: nat, m: nat)
    requires PlacedAt(log, returned, k, m) && log <= more
    ensures PlacedAt(more, returned + added, k, m)
  {
    assert (returned + added)[..m] == returned[..m];
    assert more[..returned[k].upto] == log[..returned[k].upto];
  }

  lemma FinishPlaces(st: State, after: State, arrived: seq<PendingWrite>)
    requires QueueOk(st, arrived) && Next(st, Finish, after)
    ensures PlacesKept(after)
  {
    var group := st.queue[..st.leading.value];
    var all := |after.returned|;
    FinishLogs(st, after);
    FinishOrder(st, after, arrived);
    assert after.log[..|after.log|] == after.log && after.returned[..all] == after.returned;
    forall k | 0 <= k < all ensures HasPlace(after.log, after.returned, k) {
      if k < |st.returned| {
        assert HasPlace(st.log, st.returned, k);
        var m: nat :| PlacedAt(st.log, st.returned, k, m);
        PlaceStays(st.log, after.log, st.returned, Back(group, |after.log|), k, m);
      } else {
        assert PlacedAt(after.log, after.returned, k, all);
      }
    }
  }

  lemma StepKeepsQueue(st: State, ev: Event, after: State, arrived: seq<PendingWrite>)
    requires QueueOk(st, arrived) && Next(st, ev, after)
    ensures QueueOk(after, arrived + if ev.Arrive? then [ev.w] else [])
  {
    match ev
    case Arrive(w) => ArriveKeeps(st, w, after, arrived);
    case Lead =>
      LeadKeeps(st, after, arrived);
      assert arrived + [] == arrived;
    case Finish =>
      FinishOrder(st, after, arrived);
      FinishSync(st, after);
      FinishPlaces(st, after, arrived);
      assert arrived + [] == arrived;
  }

  // ------------------------------------------------------------------ runs

  const EMPTY := State([], None, [], [])

  ghost predicate Run(states: seq<State>, events: seq<Event>) {
    && |states| == |events| + 1 && states[0] == EMPTY
    && forall i {:trigger events[i]} :: 0 <= i < |events| ==> Next(states[i], events[i], states[i + 1])
  }

  lemma {:induction false} RunIsOk(states: seq<State>, events: seq<Event>, n: nat)
    requires Run(states, events) && n <= |events|
    ensures QueueOk(states[n], Arrivals(events[..n]))
  {
    if n == 0 {
      assert events[..0] == [];
    } else {
      var last := n - 1;
      RunIsOk(states, events, last);
      assert events[..n][..last] == events[..last];
      StepKeepsQueue(states[last], events[last], states[n], Arrivals(events[..last]));
    }
  }

  /** In every state of every run: the writers came back in the order they arrived; the log holds exactly their operations,
      in that order; and one who asked for a sync came back only when its operations stood in the log no later than a
      synced record. */
  lemma WritersAreServed(states: seq<State>, events: seq<Event>, n: nat)
    requires Run(states, events) && n <= |events|
    ensures WritersOf(states[n].returned) + states[n].queue == Arrivals(events[..n])
    ensures LogOps(states[n].log) == Joined(WritersOf(states[n].returned))
    ensures forall k :: 0 <= k < |states[n].returned| ==>
              HasPlace(states[n].log, states[n].returned, k) && SyncedBy(states[n].log, states[n].returned[k])
  {
    RunIsOk(states, events, n);
  }
}
