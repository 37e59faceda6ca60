/** The timer queue on top of the heap (libuv src/timer.c). */
module Timers {
  import opened Heap

  const UINT64_MAX: nat := 0xffff_ffff_ffff_ffff
  const INT_MAX: nat := 0x7fff_ffff

  datatype Status = Done | Invalid

  /** A deadline in 64 bits: an overflowing sum is cut off at the largest number. */
  function Deadline(time: nat, timeout: nat): nat {
    var sum := (time + timeout) % (UINT64_MAX + 1);
    if sum < timeout then UINT64_MAX else sum
  }

  lemma DeadlineSaturates(time: nat, timeout: nat)
    requires time <= UINT64_MAX && timeout <= UINT64_MAX
    ensures Deadline(time, timeout) == if time + timeout <= UINT64_MAX then time + timeout else UINT64_MAX
  {
  }

  class Loop {
    const heap: TimerHeap
    var time: nat
    var timerCounter: nat

    /** The heap holds active timers only, each under its own, already issued, start number. */
    ghost predicate Valid()
      reads this, heap, heap.nodes, TimersOf(heap.nodes)
    {
      && heap.Valid() && time <= UINT64_MAX
      && (forall n :: n in heap.nodes ==> n.timer.active && n.timer.key.startId < timerCounter)
      && forall m, n :: m in heap.nodes && n in heap.nodes && m != n ==> m.timer != n.timer && m.timer.key.startId != n.timer.key.startId
    }

    /** A handle of this loop is active just when it is in the heap, and no other handle shares its timer. */
    ghost predicate Owns(h: HeapNode)
      reads this, heap, h.timer
    {
      && (h.timer.active <==> h in heap.nodes)
      && forall n :: n in heap.nodes && n != h ==> n.timer != h.timer
    }

    constructor (time: nat)
      requires time <= UINT64_MAX
      ensures Valid() && fresh(heap) && heap.nodes == [] && this.time == time
    {
      heap := new TimerHeap();
      this.time, timerCounter := time, 0;
    }

    /** uv_timer_stop. */
    method Stop(h: HeapNode)
      requires Valid() && Owns(h)
      modifies heap, NodeSet(heap.nodes), h.timer`active
      ensures Valid() && Owns(h) && !h.timer.active
      ensures NodeSet(heap.nodes) == NodeSet(old(heap.nodes)) - {h}
    {
      if !h.timer.active {
        return;
      }
      heap.Remove(h);
      assert forall n :: n in heap.nodes ==> n in NodeSet(heap.nodes);
      assert h.timer !in TimersOf(heap.nodes);
      h.timer.active := false;
    }

    /** The rest of uv_timer_start once the timer is not running. */
    method Launch(h: HeapNode, timeout: nat, repeat: nat)
      requires Valid() && Owns(h) && !h.timer.active
      modifies this`timerCounter, heap, NodeSet(heap.nodes), h, h.timer
      ensures Valid() && Owns(h) && NodeSet(heap.nodes) == NodeSet(old(heap.nodes)) + {h}
      ensures h.timer.key == Key(Deadline(time, timeout), old(timerCounter)) && h.timer.repeat == repeat && h.timer.hasCallback
      ensures timerCounter == old(timerCounter) + 1 && h.timer.closing == old(h.timer.closing)
    {
      Arm(h, timeout, repeat);
      Enter(h);
    }

    /** The handle's fields are set; it is not in the heap yet. */
    method Arm(h: HeapNode, timeout: nat, repeat: nat)
      requires Valid() && Owns(h) && !h.timer.active
      modifies this`timerCounter, h.timer`hasCallback, h.timer`key, h.timer`repeat
      ensures Valid() && h !in heap.nodes && h.timer !in TimersOf(heap.nodes)
      ensures h.timer.key == Key(Deadline(time, timeout), old(timerCounter)) && timerCounter == old(timerCounter) + 1
      ensures h.timer.repeat == repeat && h.timer.hasCallback
      ensures forall n :: n in heap.nodes ==> n.timer.key.startId < old(timerCounter)
    {
      assert h !in heap.nodes && h.timer !in TimersOf(heap.nodes);
      ghost var keys := Keys(heap.nodes);
      h.timer.hasCallback := true;
      h.timer.key := Key(Deadline(time, timeout), timerCounter);
      h.timer.repeat := repeat;
      timerCounter := timerCounter + 1;
      assert Keys(heap.nodes) == keys;
    }

    method Enter(h: HeapNode)
      requires Valid() && h !in heap.nodes && h.timer !in TimersOf(heap.nodes)
      requires h.timer.key.startId < timerCounter && forall n :: n in heap.nodes ==> n.timer.key.startId < h.timer.key.startId
      modifies heap, NodeSet(heap.nodes), h, h.timer`active
      ensures Valid() && Owns(h) && NodeSet(heap.nodes) == NodeSet(old(heap.nodes)) + {h}
    {
      heap.Insert(h);
      InSet(heap.nodes);
      ghost var keys := Keys(heap.nodes);
      h.timer.active := true;
      assert Keys(heap.nodes) == keys;
    }

    /** uv_timer_start: a timer that is already running starts over. */
    method Start(h: HeapNode, hasCallback: bool, timeout: nat, repeat: nat) returns (status: Status)
      requires Valid() && Owns(h) && timeout <= UINT64_MAX && repeat <= UINT64_MAX
      modifies this`timerCounter, heap, NodeSet(heap.nodes), h, h.timer
      ensures Valid() && Owns(h)
      ensures status == Invalid <==> old(h.timer.closing) || !hasCallback
      ensures status == Invalid ==> heap.nodes == old(heap.nodes) && timerCounter == old(timerCounter)
      ensures status == Invalid ==> h.timer.key == old(h.timer.key) && h.timer.repeat == old(h.timer.repeat)
      ensures status == Invalid ==> h.timer.active == old(h.timer.active) && h.timer.hasCallback == old(h.timer.hasCallback)
      ensures status == Done ==> NodeSet(heap.nodes) == NodeSet(old(heap.nodes)) + {h} && timerCounter == old(timerCounter) + 1
      ensures status == Done ==> h.timer.key == Key(Deadline(time, timeout), old(timerCounter)) && h.timer.repeat == repeat && h.timer.hasCallback
      ensures h.timer.closing == old(h.timer.closing)
    {
      if h.timer.closing || !hasCallback {
        return Invalid;
      }
      if h.timer.active {
        Stop(h);
      }
      Launch(h, timeout, repeat);
      return Done;
    }

    /** uv_timer_again: a repeating timer starts over with its repeat value as the timeout; if the handle is closing it
        is stopped and not started again, which the caller is not told. */
    method Again(h: HeapNode) returns (status: Status)
      requires Valid() && Owns(h) && h.timer.repeat <= UINT64_MAX
      modifies this`timerCounter, heap, NodeSet(heap.nodes), h, h.timer
      ensures Valid() && Owns(h)
      ensures status == Invalid <==> !old(h.timer.hasCallback)
      ensures h.timer.repeat == old(h.timer.repeat) && h.timer.hasCallback == old(h.timer.hasCallback) && h.timer.closing == old(h.timer.closing)
      ensures status == Invalid || h.timer.repeat == 0 ==>
                heap.nodes == old(heap.nodes) && h.timer.key == old(h.timer.key) && timerCounter == old(timerCounter)
      ensures status == Done && h.timer.repeat > 0 && !h.timer.closing ==>
                (NodeSet(heap.nodes) == NodeSet(old(heap.nodes)) + {h} && timerCounter == old(timerCounter) + 1
                 && h.timer.key == Key(Deadline(time, h.timer.repeat), old(timerCounter)))
      ensures status == Done && h.timer.repeat > 0 && h.timer.closing ==>
                NodeSet(heap.nodes) == NodeSet(old(heap.nodes)) - {h} && h.timer.key == old(h.timer.key) && !h.timer.active
    {
      if !h.timer.hasCallback {
        return Invalid;
      }
      if h.timer.repeat != 0 {
        Stop(h);
        var _ := Start(h, h.timer.hasCallback, h.timer.repeat, h.timer.repeat);
      }
      return Done;
    }

    /** uv__next_timeout: how long the loop may sleep, -1 for no limit. No timer is due before that. */
    method NextTimeout() returns (r: int)
      requires Valid()
      ensures r == -1 <==> heap.nodes == []
      ensures -1 <= r <= INT_MAX
      ensures r == 0 <==> exists n :: n in heap.nodes && n.timer.key.timeout <= time
      ensures r > 0 ==> forall n :: n in heap.nodes ==> time + r <= n.timer.key.timeout
      ensures 0 < r < INT_MAX ==> exists n :: n in heap.nodes && n.timer.key.timeout == time + r
    {
      var h := heap.Min();
      if h == null {
        return -1;
      }
      if h.timer.key.timeout <= time {
        return 0;
      }
      var diff := h.timer.key.timeout - time;
      if diff > INT_MAX {
        diff := INT_MAX;
      }
      return diff;
    }

    /** Every timer of the heap could be started again, and none of them is closing. */
    ghost predicate Runnable()
      reads this, heap, TimersOf(heap.nodes)
    {
      forall n :: n in heap.nodes ==> n.timer.hasCallback && !n.timer.closing && n.timer.repeat <= UINT64_MAX
    }

    ghost function Due(): set<HeapNode>
      reads this, heap, TimersOf(heap.nodes)
    {
      set n | n in heap.nodes && n.timer.key.timeout <= time
    }

    /** uv__run_timers comes to an end: the clock can still be passed, or no timer that is due repeats. */
    ghost predicate Ends()
      reads this, heap, TimersOf(heap.nodes)
    {
      time < UINT64_MAX || forall n :: n in Due() ==> n.timer.repeat == 0
    }

    /** One round of uv__run_timers: a timer leaves the heap and, if it repeats, returns. */
    method Fire(h: HeapNode, ghost before: set<HeapNode>)
      requires Valid() && Runnable() && h in heap.nodes && before == NodeSet(heap.nodes)
      modifies this`timerCounter, heap, NodeSet(heap.nodes), h.timer
      ensures Valid() && Runnable() && h.timer.repeat == old(h.timer.repeat)
      ensures NodeSet(heap.nodes) == if h.timer.repeat == 0 then before - {h} else before
      ensures h.timer.key == if h.timer.repeat == 0 then old(h.timer.key) else Key(Deadline(time, h.timer.repeat), old(timerCounter))
      ensures (h.timer.active <==> h.timer.repeat > 0) && old(timerCounter) <= timerCounter
      ensures forall n :: n in before && n != h ==> n.timer != h.timer
    {
      assert forall n :: n in heap.nodes <==> n in before;
      assert Owns(h);
      Stop(h);
      InSet(heap.nodes);
      var status := Again(h);
      InSet(heap.nodes);
    }

    /** Unless the clock stands at its last value, a timer that repeats returns with a deadline that is not due. */
    method RunOne(h: HeapNode, ghost before: set<HeapNode>)
      requires Valid() && Runnable() && Ends() && h in Due() && before == NodeSet(heap.nodes)
      modifies this`timerCounter, heap, NodeSet(heap.nodes), h.timer
      ensures Valid() && Runnable() && h.timer.repeat == old(h.timer.repeat)
      ensures NodeSet(heap.nodes) == if h.timer.repeat == 0 then before - {h} else before
      ensures h.timer.key == if h.timer.repeat == 0 then old(h.timer.key) else Key(Deadline(time, h.timer.repeat), old(timerCounter))
      ensures h.timer.repeat > 0 ==> h.timer.key.timeout > time
      ensures (h.timer.active <==> h.timer.repeat > 0) && old(timerCounter) <= timerCounter
      ensures forall n :: n in before && n != h ==> n.timer != h.timer
    {
      Fire(h, before);
      DeadlineSaturates(time, h.timer.repeat);
    }

    /** Otherwise the loop never ends: at the last value of the clock a timer that is due and repeats is due again, so any
        number of rounds can be run. */
    method RunRounds(k: nat) returns (rounds: nat)
      requires Valid() && Runnable() && !Ends()
      modifies this`timerCounter, heap, NodeSet(heap.nodes), TimersOf(heap.nodes)
      ensures rounds == k && Valid() && Runnable() && !Ends()
    {
      rounds := 0;
      while rounds < k
        invariant rounds <= k && Valid() && Runnable() && !Ends()
        invariant NodeSet(heap.nodes) <= NodeSet(old(heap.nodes)) && TimersOf(heap.nodes) <= old(TimersOf(heap.nodes))
      {
        var h := DueTimer();
        StaysDue(h);
        rounds := rounds + 1;
      }
    }

    /** The head of the heap, which is due because something is. */
    method DueTimer() returns (h: HeapNode)
      requires Valid() && !Ends()
      ensures h in Due()
    {
      ghost var some :| some in Due();
      var least := heap.Min();
      h := least;
    }

    method StaysDue(h: HeapNode)
      requires Valid() && Runnable() && !Ends() && h in Due()
      modifies this`timerCounter, heap, NodeSet(heap.nodes), h.timer
      ensures Valid() && Runnable() && !Ends()
      ensures NodeSet(heap.nodes) <= NodeSet(old(heap.nodes)) && TimersOf(heap.nodes) <= old(TimersOf(heap.nodes))
    {
      ghost var again :| again in Due() && again.timer.repeat > 0;
      InSet(heap.nodes);
      Fire(h, NodeSet(heap.nodes));
      InSet(heap.nodes);
      DeadlineSaturates(time, h.timer.repeat);
      assert again in Due() && again.timer.repeat > 0;
    }

    method RunDue(h: HeapNode, ghost keys: map<HeapNode, Key>, ghost due: set<HeapNode>, ghost nodes: set<HeapNode>, ghost oneShot: set<HeapNode>)
      returns (ghost rest: set<HeapNode>, ghost left: set<HeapNode>)
      requires Valid() && Runnable() && Ends() && h in due && due == Due() && nodes == NodeSet(heap.nodes) && Kept(keys, oneShot)
      modifies this`timerCounter, heap, nodes, h.timer
      ensures Valid() && Runnable() && Ends()
      ensures rest == due - {h} && rest == Due() && Kept(keys, oneShot)
      ensures left == NodeSet(heap.nodes) && left == nodes - {h} * oneShot && TimersOf(heap.nodes) <= old(TimersOf(heap.nodes))
      ensures h.timer.repeat == old(h.timer.repeat) && (h.timer.active <==> h.timer.repeat > 0)
      ensures h.timer.key == if h.timer.repeat == 0 then old(h.timer.key) else Key(Deadline(time, h.timer.repeat), old(timerCounter))
      ensures old(timerCounter) <= timerCounter && (h.timer.repeat > 0 ==> h.timer.key.startId < timerCounter)
    {
      InSet(heap.nodes);
      RunOne(h, nodes);
      InSet(heap.nodes);
      forall n | n in nodes && n != h ensures n.timer.key == old(n.timer.key) && n.timer.repeat == old(n.timer.repeat) {
      }
      rest, left := due - {h}, NodeSet(heap.nodes);
    }

    /** Every timer that is due is still as `keys` and `oneShot` recorded it. */
    ghost predicate Kept(keys: map<HeapNode, Key>, oneShot: set<HeapNode>)
      reads this, heap, TimersOf(heap.nodes)
    {
      forall n :: n in Due() ==> n in keys && keys[n] == n.timer.key && (n.timer.repeat == 0 <==> n in oneShot)
    }

    ghost function OneShot(): set<HeapNode>
      reads this, heap, TimersOf(heap.nodes)
    {
      set n | n in heap.nodes && n.timer.repeat == 0
    }

    ghost function KeyMap(): map<HeapNode, Key>
      reads this, heap, TimersOf(heap.nodes)
    {
      map n | n in heap.nodes :: n.timer.key
    }

    lemma LeastIsFirst(h: HeapNode, keys: map<HeapNode, Key>, oneShot: set<HeapNode>)
      requires Valid() && Kept(keys, oneShot) && h in Due()
      requires forall n :: n in heap.nodes ==> !KeyLess(n.timer.key, h.timer.key)
      ensures forall n :: n in Due() && n != h ==> n in keys && h in keys && KeyLess(keys[h], keys[n])
    {
    }

    /** The least timer of the heap, if it is due. */
    method NextDue(ghost keys: map<HeapNode, Key>, ghost oneShot: set<HeapNode>, ghost due: set<HeapNode>) returns (h: HeapNode?)
      requires Valid() && Kept(keys, oneShot) && due == Due()
      ensures h == null <==> due == {}
      ensures h != null ==> h in due && h in keys && forall n :: n in due && n != h ==> n in keys && KeyLess(keys[h], keys[n])
    {
      h := heap.Min();
      if h != null {
        if h.timer.key.timeout > time {
          return null;
        }
        LeastIsFirst(h, keys, oneShot);
      }
    }

    /** Everything between two rounds of uv__run_timers. */
    ghost predicate BetweenRounds(keys: map<HeapNode, Key>, oneShot: set<HeapNode>, rest: set<HeapNode>, left: set<HeapNode>)
      reads this, heap, heap.nodes, TimersOf(heap.nodes)
    {
      exists k :: k == keys && Valid() && Runnable() && Ends() && Kept(k, oneShot) && rest == Due() && left == NodeSet(heap.nodes)
    }

    /** The timer fires, and the others are as they were. */
    method FireSettled(h: HeapNode, ghost keys: map<HeapNode, Key>, ghost due: set<HeapNode>, ghost nodes: set<HeapNode>,
                       ghost oneShot: set<HeapNode>, ghost was: map<HeapNode, Setting>, ghost fired: seq<HeapNode>)
      returns (ghost rest: set<HeapNode>, ghost left: set<HeapNode>)
      requires BetweenRounds(keys, oneShot, due, nodes) && h in due && nodes <= was.Keys && h in was && h !in fired
      requires Progress(was, SettingsOf(was.Keys), fired, time, timerCounter)
      modifies this`timerCounter, heap, nodes, h.timer
      ensures BetweenRounds(keys, oneShot, rest, left) && rest == due - {h} && left == nodes - {h} * oneShot
      ensures TimersOf(heap.nodes) <= old(TimersOf(heap.nodes))
      ensures Progress(was, SettingsOf(was.Keys), fired + [h], time, timerCounter)
    {
      ghost var before, counter := SettingsOf(was.Keys), timerCounter;
      rest, left := RunDue(h, keys, due, nodes, oneShot);
      ghost var after := SettingsOf(was.Keys);
      forall n | n in was && n != h ensures after[n] == before[n] {
        assert n.timer != h.timer;
      }
      SettledNext(was, before, after, fired, h, time, counter, timerCounter);
    }

    /** One round: nothing is due, or the least timer fires. */
    method Round(ghost keys: map<HeapNode, Key>, ghost was: map<HeapNode, Setting>, ghost due: set<HeapNode>, ghost oneShot: set<HeapNode>,
                 fired: seq<HeapNode>, ghost rest: set<HeapNode>, ghost left: set<HeapNode>)
      returns (more: bool, nowFired: seq<HeapNode>, ghost nowRest: set<HeapNode>, ghost nowLeft: set<HeapNode>)
      requires BetweenRounds(keys, oneShot, rest, left) && FiredOk(keys, was.Keys, due, oneShot, fired, rest, left)
      requires Progress(was, SettingsOf(was.Keys), fired, time, timerCounter)
      requires left <= was.Keys
      modifies this`timerCounter, heap, left, TimersOf(heap.nodes)
      ensures BetweenRounds(keys, oneShot, nowRest, nowLeft) && FiredOk(keys, was.Keys, due, oneShot, nowFired, nowRest, nowLeft)
      ensures Progress(was, SettingsOf(was.Keys), nowFired, time, timerCounter)
      ensures more ==> nowRest < rest
      ensures !more ==> nowRest == {}
      ensures nowLeft <= left && TimersOf(heap.nodes) <= old(TimersOf(heap.nodes))
    {
      nowFired, nowRest, nowLeft := fired, rest, left;
      ghost var now := SettingsOf(was.Keys);
      var h := NextDue(keys, oneShot, rest);
      assert SettingsOf(was.Keys) == now;
      if h == null {
        return false, fired, rest, left;
      }
      var node: HeapNode := h;
      FireNext(keys, was.Keys, due, oneShot, fired, rest, left, node);
      nowRest, nowLeft := FireSettled(node, keys, rest, left, oneShot, was, fired);
      nowFired := fired + [node];
      more := true;
    }

    /** uv__run_timers with callbacks that leave the heap alone: exactly the timers that are due fire, each once, in the
        order of their deadlines and, among equals, of their starts. Those that repeat stay in the heap, due again after
        their repeat value and started again in the order in which they fired; the others become inactive, and timers that
        were not due wait as before. */
    method RunTimers() returns (fired: seq<HeapNode>)
      requires Valid() && Runnable() && Ends()
      modifies this`timerCounter, heap, NodeSet(heap.nodes), TimersOf(heap.nodes)
      ensures Valid() && Runnable() && Due() == {} && NodeSet(fired) == old(Due()) && InKeyOrder(old(KeyMap()), fired)
      ensures NodeSet(heap.nodes) == NodeSet(old(heap.nodes)) - NodeSet(fired) * old(OneShot())
      ensures Settled(old(SettingsOf(NodeSet(heap.nodes))), SettingsOf(NodeSet(old(heap.nodes))), fired, time)
      ensures Restarted(SettingsOf(NodeSet(old(heap.nodes))), fired, timerCounter)
      ensures forall h :: h in old(heap.nodes) ==> Owns(h)
    {
      fired := [];
      ghost var keys, was, due, oneShot := KeyMap(), SettingsOf(NodeSet(heap.nodes)), Due(), OneShot();
      ghost var rest, left := due, NodeSet(heap.nodes);
      var more := true;
      assert Kept(keys, oneShot) && left == was.Keys;
      assert InKeyOrder(keys, fired) && FiredBefore(keys, fired, rest);
      NoneFired(was, time, timerCounter);
      while more
        invariant BetweenRounds(keys, oneShot, rest, left) && FiredOk(keys, was.Keys, due, oneShot, fired, rest, left)
        invariant Progress(was, SettingsOf(was.Keys), fired, time, timerCounter)
        invariant left <= was.Keys && TimersOf(heap.nodes) <= old(TimersOf(heap.nodes))
        invariant !more ==> rest == {}
        decreases more, rest
      {
        more, fired, rest, left := Round(keys, was, due, oneShot, fired, rest, left);
      }
      FiredAll(keys, was.Keys, due, oneShot, fired, left);
      InSet(heap.nodes);
    }
  }

  /** How a timer is set: its place in the order, its repeat value, and whether it is running. */
  datatype Setting = Setting(key: Key, repeat: nat, active: bool)

  ghost function SettingsOf(nodes: set<HeapNode>): map<HeapNode, Setting>
    reads TimersIn(nodes)
  {
    map n | n in nodes :: Setting(n.timer.key, n.timer.repeat, n.timer.active)
  }

  /** What becomes of a running timer: one that has not fired waits as it did, one that fired is inactive or, if it repeats,
      waits for a full repeat value from now. */
  predicate SettledAs(was: Setting, now: Setting, fired: bool, time: nat) {
    && now.repeat == was.repeat && (now.active <==> !fired || was.repeat > 0)
    && if fired && was.repeat > 0 then now.key.timeout == Deadline(time, was.repeat) else now.key == was.key
  }

  ghost predicate Settled(was: map<HeapNode, Setting>, now: map<HeapNode, Setting>, fired: seq<HeapNode>, time: nat) {
    was.Keys == now.Keys && forall n :: n in was ==> SettledAs(was[n], now[n], n in fired, time)
  }

  /** Timers that repeat were started again in the order in which they fired. */
  ghost predicate Restarted(now: map<HeapNode, Setting>, fired: seq<HeapNode>, counter: nat) {
    && (forall n :: n in fired ==> n in now && (now[n].repeat > 0 ==> now[n].key.startId < counter))
    && forall i, j :: 0 <= i < j < |fired| && now[fired[i]].repeat > 0 && now[fired[j]].repeat > 0 ==>
         now[fired[i]].key.startId < now[fired[j]].key.startId
  }

  ghost predicate Progress(was: map<HeapNode, Setting>, now: map<HeapNode, Setting>, fired: seq<HeapNode>, time: nat, counter: nat) {
    exists t :: t == time && OwnTimers(was.Keys) && Settled(was, now, fired, t) && Restarted(now, fired, counter)
  }

  lemma NoneFired(was: map<HeapNode, Setting>, time: nat, counter: nat)
    requires OwnTimers(was.Keys) && forall n :: n in was ==> was[n].active
    ensures Progress(was, was, [], time, counter)
  {
    assert Settled(was, was, [], time) && Restarted(was, [], counter);
  }

  /** Firing one more timer changes nothing about the others. */
  lemma SettledNext(was: map<HeapNode, Setting>, before: map<HeapNode, Setting>, after: map<HeapNode, Setting>, fired: seq<HeapNode>,
                    h: HeapNode, time: nat, counter: nat, later: nat)
    requires Progress(was, before, fired, time, counter) && counter <= later
    requires h in was && h !in fired && after.Keys == before.Keys && forall n :: n in was && n != h ==> after[n] == before[n]
    requires after[h].repeat == before[h].repeat && (after[h].active <==> after[h].repeat > 0)
    requires after[h].key == if after[h].repeat == 0 then before[h].key else Key(Deadline(time, after[h].repeat), counter)
    requires after[h].repeat > 0 ==> counter < later
    ensures Progress(was, after, fired + [h], time, later)
  {
    forall n | n in was ensures SettledAs(was[n], after[n], n in fired + [h], time) {
      assert SettledAs(was[n], before[n], n in fired, time);
    }
    assert Settled(was, after, fired + [h], time) && Restarted(after, fired + [h], later);
  }

  function TimersIn(nodes: set<HeapNode>): set<Timer> {
    set n | n in nodes :: n.timer
  }

  predicate OwnTimers(nodes: set<HeapNode>) {
    forall m, n :: m in nodes && n in nodes && m != n ==> m.timer != n.timer
  }

  ghost predicate InKeyOrder(keys: map<HeapNode, Key>, fired: seq<HeapNode>) {
    && (forall n :: n in fired ==> n in keys)
    && forall i, j :: 0 <= i < j < |fired| ==> KeyLess(keys[fired[i]], keys[fired[j]])
  }

  ghost predicate FiredBefore(keys: map<HeapNode, Key>, fired: seq<HeapNode>, due: set<HeapNode>) {
    && NodeSet(fired) !! due
    && forall m, n :: m in fired && n in due ==> m in keys && n in keys && KeyLess(keys[m], keys[n])
  }

  /** `rest` of `due` is still to fire, and `left` of `all` is still in the heap. */
  ghost predicate FiredOk(keys: map<HeapNode, Key>, all: set<HeapNode>, due: set<HeapNode>, oneShot: set<HeapNode>,
                          fired: seq<HeapNode>, rest: set<HeapNode>, left: set<HeapNode>) {
    exists order ::
      && order == fired && InKeyOrder(keys, order) && NodeSet(order) + rest == due && FiredBefore(keys, order, rest)
      && left == all - NodeSet(order) * oneShot
  }

  lemma FireNext(keys: map<HeapNode, Key>, all: set<HeapNode>, due: set<HeapNode>, oneShot: set<HeapNode>,
                 fired: seq<HeapNode>, rest: set<HeapNode>, left: set<HeapNode>, h: HeapNode)
    requires FiredOk(keys, all, due, oneShot, fired, rest, left) && h in rest && h in keys
    requires forall n :: n in rest && n != h ==> n in keys && KeyLess(keys[h], keys[n])
    ensures FiredOk(keys, all, due, oneShot, fired + [h], rest - {h}, left - {h} * oneShot)
  {
    assert InKeyOrder(keys, fired + [h]) && FiredBefore(keys, fired + [h], rest - {h});
    assert NodeSet(fired + [h]) == NodeSet(fired) + {h};
  }

  lemma FiredAll(keys: map<HeapNode, Key>, all: set<HeapNode>, due: set<HeapNode>, oneShot: set<HeapNode>,
                 fired: seq<HeapNode>, left: set<HeapNode>)
    requires FiredOk(keys, all, due, oneShot, fired, {}, left)
    ensures InKeyOrder(keys, fired) && NodeSet(fired) == due && left == all - NodeSet(fired) * oneShot
  {
  }

  lemma InSet(nodes: seq<HeapNode>)
    ensures forall n :: n in nodes <==> n in NodeSet(nodes)
  {
  }
}
