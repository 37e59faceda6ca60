/** The thread pool as a state machine of the steps taken under its locks (libuv src/threadpool.c): the shared queue, the
    slow-I/O queue behind one message, workers that sleep and wake, cancellation, and the loop that runs completions. */
module ThreadPool {
  import opened Common

  type Id = nat

  /** w->work: still to run, finished, or replaced by uv__cancelled. */
  datatype Work = Assigned | Finished | Cancelled

  datatype Elem = Item(id: Id) | SlowMessage | ExitMessage

  /** A worker outside the locks. `slow` means it still counts in slow_io_work_running. */
  datatype Worker =
    | Awake(slow: bool)
    | Asleep(signalled: bool)
    | Executing(id: Id, slow: bool)
    | Exited

  /** `linked` are the items whose own links say that they hang in some queue: inserting an item sets them, a worker that
      takes it resets them, and removing it leaves them as they are. */
  datatype Pool = Pool(wq: seq<Elem>, pending: seq<Id>, workers: seq<Worker>, slowRunning: nat,
                       loopQueue: seq<Id>, local: seq<Id>, moving: Option<Id>, work: map<Id, Work>,
                       linked: set<Id>, ran: seq<Id>, done: seq<Completion>)

  /** One call of w->done, with UV_ECANCELED or without. */
  datatype Completion = Completion(id: Id, canceled: bool)

  function Threshold(workers: seq<Worker>): nat {
    (|workers| + 1) / 2
  }

  // ------------------------------------------------------------------ the worker's turn

  /** The condition under which a worker goes to sleep. */
  predicate NothingToRun(wq: seq<Elem>, slowRunning: nat, threshold: nat) {
    wq == [] || (wq == [SlowMessage] && slowRunning >= threshold)
  }

  datatype Outcome = Sleep | Exit | Run(id: Id, slow: bool)

  /** What a worker leaves behind when it lets go of the mutex, and whether it signalled another one. */
  datatype Turn = Turn(outcome: Outcome, wq: seq<Elem>, pending: seq<Id>, slowRunning: nat, signal: bool)

  predicate OneMessage(wq: seq<Elem>) {
    forall i, j :: 0 <= i < j < |wq| ==> !(wq[i].SlowMessage? && wq[j].SlowMessage?)
  }

  /** From the top of the worker's loop until it sleeps, exits or leaves with an item. */
  function TakeTurn(wq: seq<Elem>, pending: seq<Id>, slowRunning: nat, threshold: nat): Turn
    requires OneMessage(wq)
    decreases |wq|, if wq != [] && wq[0].SlowMessage? then 1 else 0
  {
    if NothingToRun(wq, slowRunning, threshold) then Turn(Sleep, wq, pending, slowRunning, false)
    else if wq[0].ExitMessage? then Turn(Exit, wq, pending, slowRunning, true)
    else
      var rest := wq[1..];
      if wq[0].Item? then Turn(Run(wq[0].id, false), rest, pending, slowRunning, false)
      else if slowRunning >= threshold then TakeTurn(rest + [SlowMessage], pending, slowRunning, threshold)
      else if pending == [] then TakeTurn(rest, pending, slowRunning, threshold)
      else if pending[1..] == [] then Turn(Run(pending[0], true), rest, [], slowRunning + 1, false)
      else Turn(Run(pending[0], true), rest + [SlowMessage], pending[1..], slowRunning + 1, true)
  }

  // ------------------------------------------------------------------ counting

  function Count<T(==)>(s: seq<T>, x: T): nat {
    if s == [] then 0 else (if s[0] == x then 1 else 0) + Count(s[1..], x)
  }

  lemma {:induction false} CountConcat<T>(a: seq<T>, b: seq<T>, x: T)
    ensures Count(a + b, x) == Count(a, x) + Count(b, x)
  {
    if a == [] {
      assert a + b == b;
    } else {
      assert (a + b)[1..] == a[1..] + b;
      CountConcat(a[1..], b, x);
    }
  }

  lemma CountAppend<T>(a: seq<T>, e: T, x: T)
    ensures Count(a + [e], x) == Count(a, x) + if e == x then 1 else 0
  {
    CountConcat(a, [e], x);
    assert [e][1..] == [];
  }

  lemma {:induction false} CountMember<T>(s: seq<T>, x: T)
    ensures x in s <==> Count(s, x) > 0
  {
    if s != [] {
      CountMember(s[1..], x);
      assert s == [s[0]] + s[1..];
    }
  }

  /** QUEUE_REMOVE. */
  function Remove<T(==)>(s: seq<T>, x: T): seq<T> {
    if s == [] then [] else if s[0] == x then s[1..] else [s[0]] + Remove(s[1..], x)
  }

  lemma {:induction false} CountRemove<T>(s: seq<T>, x: T, y: T)
    ensures Count(Remove(s, x), y) == Count(s, y) - if x in s && x == y then 1 else 0
  {
    if s != [] && s[0] != x {
      CountRemove(s[1..], x, y);
      assert ([s[0]] + Remove(s[1..], x))[1..] == Remove(s[1..], x);
    }
  }

  function RunCount(o: Outcome, id: Id): nat {
    if o.Run? && o.id == id then 1 else 0
  }

  lemma HeadMessage(wq: seq<Elem>)
    requires OneMessage(wq) && wq != []
    ensures OneMessage(wq[1..])
    ensures wq[0].SlowMessage? ==> OneMessage(wq[1..] + [SlowMessage]) && SlowMessage !in wq[1..]
    ensures SlowMessage in wq && !wq[0].SlowMessage? ==> SlowMessage in wq[1..]
    ensures SlowMessage in wq[1..] + [SlowMessage]
  {
    var rest := wq[1..];
    assert forall k :: 0 <= k < |rest| ==> rest[k] == wq[k + 1];
    assert (rest + [SlowMessage])[|rest|] == SlowMessage;
  }

  /** A turn loses and duplicates no item. */
  lemma {:induction false} TurnConserves(wq: seq<Elem>, pending: seq<Id>, slowRunning: nat, threshold: nat, id: Id)
    requires OneMessage(wq)
    ensures var t := TakeTurn(wq, pending, slowRunning, threshold);
            Count(t.wq, Item(id)) + Count(t.pending, id) + RunCount(t.outcome, id) == Count(wq, Item(id)) + Count(pending, id)
    decreases |wq|, if wq != [] && wq[0].SlowMessage? then 1 else 0
  {
    if !NothingToRun(wq, slowRunning, threshold) && !wq[0].ExitMessage? {
      HeadMessage(wq);
      CountAppend(wq[1..], SlowMessage, Item(id));
      if wq[0].SlowMessage? {
        if slowRunning >= threshold {
          TurnConserves(wq[1..] + [SlowMessage], pending, slowRunning, threshold, id);
        } else if pending == [] {
          TurnConserves(wq[1..], pending, slowRunning, threshold, id);
        }
      }
    }
  }

  /** A turn keeps at most one message, leaves it queued whenever slow work is still pending, takes slow work only below
      the threshold, and sleeps only when nothing can be run. */
  lemma {:induction false} TurnIsFair(wq: seq<Elem>, pending: seq<Id>, slowRunning: nat, threshold: nat)
    requires OneMessage(wq) && (pending != [] ==> SlowMessage in wq)
    ensures var t := TakeTurn(wq, pending, slowRunning, threshold);
            && OneMessage(t.wq) && (t.pending != [] ==> SlowMessage in t.wq)
            && t.slowRunning == slowRunning + (if t.outcome.Run? && t.outcome.slow then 1 else 0)
            && (t.outcome.Run? && t.outcome.slow ==> slowRunning < threshold)
            && (t.outcome.Sleep? ==> NothingToRun(t.wq, t.slowRunning, threshold))
            && (t.outcome.Exit? ==> t.signal && t.wq != [] && t.wq[0].ExitMessage?)
    decreases |wq|, if wq != [] && wq[0].SlowMessage? then 1 else 0
  {
    if !NothingToRun(wq, slowRunning, threshold) && !wq[0].ExitMessage? {
      HeadMessage(wq);
      if wq[0].SlowMessage? {
        if slowRunning >= threshold {
          TurnIsFair(wq[1..] + [SlowMessage], pending, slowRunning, threshold);
        } else if pending == [] {
          TurnIsFair(wq[1..], pending, slowRunning, threshold);
        }
      }
    }
  }

  // ------------------------------------------------------------------ the steps

  datatype Event =
    | Submit(id: Id, slow: bool, wake: Option<nat>)
    | StopAll(wake: Option<nat>)
    | WorkerTurn(t: nat, wake: Option<nat>)
    | WakeUp(t: nat)
    | FinishWork(t: nat)
    | CancelBegin(id: Id)
    | CancelEnd
    | TakeDone
    | RunDone

  /** uv_cond_signal wakes one sleeping worker if there is one. */
  predicate CanSignal(workers: seq<Worker>, wake: Option<nat>) {
    if wake.Some? then wake.value < |workers| && workers[wake.value] == Asleep(false)
    else forall t :: 0 <= t < |workers| ==> workers[t] != Asleep(false)
  }

  function Signalled(workers: seq<Worker>, wake: Option<nat>): seq<Worker> {
    if wake.Some? && wake.value < |workers| then workers[wake.value := Asleep(true)] else workers
  }

  /** post: slow work goes to its own queue, and one message stands for all of it in the shared one. */
  function Posted(st: Pool, id: Id, slow: bool): Pool {
    if slow then st.(linked := st.linked + {id}, pending := st.pending + [id],
                     wq := if SlowMessage in st.wq then st.wq else st.wq + [SlowMessage])
    else st.(linked := st.linked + {id}, wq := st.wq + [Item(id)])
  }

  function LinkedAfter(linked: set<Id>, o: Outcome): set<Id> {
    if o.Run? then linked - {o.id} else linked
  }

  function AfterTurn(st: Pool, t: nat): Turn
    requires OneMessage(st.wq) && t < |st.workers| && st.workers[t].Awake? && (st.workers[t].slow ==> st.slowRunning > 0)
  {
    TakeTurn(st.wq, st.pending, if st.workers[t].slow then st.slowRunning - 1 else st.slowRunning, Threshold(st.workers))
  }

  function WorkerAfter(o: Outcome): Worker {
    match o
    case Sleep => Asleep(false)
    case Exit => Exited
    case Run(id, slow) => Executing(id, slow)
  }

  /** Whether the item is in some queue. */
  predicate Queued(st: Pool, id: Id) {
    Item(id) in st.wq || id in st.pending || id in st.loopQueue || id in st.local
  }

  /** What uv__work_cancel decides, 0 (true) or UV_EBUSY: it looks at the item alone, its links and its work function. */
  predicate CanCancel(st: Pool, id: Id)
    requires id in st.work
  {
    id in st.linked && st.work[id] != Finished
  }

  /** The item taken out of whichever queue holds it. */
  function Unlinked(st: Pool, id: Id): Pool {
    st.(wq := Remove(st.wq, Item(id)), pending := Remove(st.pending, id), loopQueue := Remove(st.loopQueue, id), local := Remove(st.local, id))
  }

  predicate IsDone(st: Pool, id: Id) {
    exists k :: 0 <= k < |st.done| && st.done[k].id == id
  }

  ghost predicate Next(st: Pool, ev: Event, after: Pool) {
    match ev
    case Submit(id, slow, wake) =>
      && id !in st.work && (if slow && SlowMessage in st.wq then wake == None else CanSignal(st.workers, wake))
      && after == Posted(st, id, slow).(workers := Signalled(st.workers, wake), work := st.work[id := Assigned])
    case StopAll(wake) =>
      && ExitMessage !in st.wq && CanSignal(st.workers, wake)
      && after == st.(wq := st.wq + [ExitMessage], workers := Signalled(st.workers, wake))
    case WorkerTurn(t, wake) =>
      && OneMessage(st.wq) && t < |st.workers| && st.workers[t].Awake? && (st.workers[t].slow ==> st.slowRunning > 0)
      && var turn := AfterTurn(st, t);
         && (if turn.signal then CanSignal(st.workers, wake) else wake == None)
         && after == st.(wq := turn.wq, pending := turn.pending, slowRunning := turn.slowRunning,
                         workers := Signalled(st.workers, wake)[t := WorkerAfter(turn.outcome)],
                         linked := LinkedAfter(st.linked, turn.outcome),
                         ran := if turn.outcome.Run? then st.ran + [turn.outcome.id] else st.ran)
    case WakeUp(t) => t < |st.workers| && st.workers[t].Asleep? && after == st.(workers := st.workers[t := Awake(false)])
    case FinishWork(t) =>
      && t < |st.workers| && st.workers[t].Executing? && st.workers[t].id in st.work
      && after == st.(workers := st.workers[t := Awake(st.workers[t].slow)], loopQueue := st.loopQueue + [st.workers[t].id],
                      linked := st.linked + {st.workers[t].id}, work := st.work[st.workers[t].id := Finished])
    case CancelBegin(id) =>
      && id in st.work && st.moving == None && !IsDone(st, id)
      && after == if CanCancel(st, id) then Unlinked(st, id).(moving := Some(id), work := st.work[id := Cancelled]) else st
    case CancelEnd => st.moving.Some? && after == st.(moving := None, linked := st.linked + {st.moving.value}, loopQueue := st.loopQueue + [st.moving.value])
    case TakeDone => st.local == [] && after == st.(local := st.loopQueue, loopQueue := [])
    case RunDone =>
      && st.local != [] && st.local[0] in st.work
      && after == st.(local := st.local[1..], done := st.done + [Completion(st.local[0], st.work[st.local[0]] == Cancelled)])
  }

  // ------------------------------------------------------------------ the invariant

  function Tally(workers: seq<Worker>, f: Worker -> nat): nat {
    if workers == [] then 0 else Tally(workers[..|workers| - 1], f) + f(workers[|workers| - 1])
  }

  lemma {:induction false} TallyUpdate(workers: seq<Worker>, f: Worker -> nat, t: nat, w: Worker)
    requires t < |workers|
    ensures Tally(workers[t := w], f) + f(workers[t]) == Tally(workers, f) + f(w)
  {
    var n := |workers| - 1;
    if t < n {
      TallyUpdate(workers[..n], f, t, w);
      assert workers[t := w][..n] == workers[..n][t := w];
    } else {
      assert workers[t := w][..n] == workers[..n];
    }
  }

  lemma {:induction false} TallyAtLeast(workers: seq<Worker>, f: Worker -> nat, t: nat)
    requires t < |workers|
    ensures f(workers[t]) <= Tally(workers, f)
  {
    var n := |workers| - 1;
    if t < n { TallyAtLeast(workers[..n], f, t); }
  }

  function Runs(id: Id): Worker -> nat {
    (w: Worker) => if w.Executing? && w.id == id then 1 else 0
  }

  function RunsSlow(): Worker -> nat {
    (w: Worker) => if (w.Executing? && w.slow) || (w.Awake? && w.slow) then 1 else 0
  }

  function CountDone(done: seq<Completion>, id: Id): nat {
    if done == [] then 0 else CountDone(done[..|done| - 1], id) + if done[|done| - 1].id == id then 1 else 0
  }

  /** Places an item waits in before it has run. */
  function InFront(st: Pool, id: Id): nat {
    Count(st.wq, Item(id)) + Count(st.pending, id) + Tally(st.workers, Runs(id))
  }

  /** Places it passes through afterwards. */
  function Behind(st: Pool, id: Id): nat {
    Count(st.loopQueue, id) + Count(st.local, id) + (if st.moving == Some(id) then 1 else 0) + CountDone(st.done, id)
  }

  /** Every submitted item is in exactly one place; it is in front just while its work is still assigned; its work
      function was called once if it is executing or finished, and never if it was cancelled; its links say that it hangs in
      a queue unless it is executing. */
  ghost predicate ItemOk(st: Pool, id: Id) {
    && InFront(st, id) + Behind(st, id) == (if id in st.work then 1 else 0)
    && (id in st.work ==> (InFront(st, id) == 1 <==> st.work[id] == Assigned))
    && (st.moving == Some(id) ==> id in st.work && st.work[id] == Cancelled)
    && (id in st.work ==> (id in st.linked <==> Tally(st.workers, Runs(id)) == 0))
    && Count(st.ran, id) == Tally(st.workers, Runs(id)) + (if id in st.work && st.work[id] == Finished then 1 else 0)
  }

  /** done reports UV_ECANCELED exactly for items whose cancel succeeded. */
  ghost predicate DoneOk(st: Pool) {
    forall k :: 0 <= k < |st.done| ==>
      st.done[k].id in st.work && (st.done[k].canceled <==> st.work[st.done[k].id] == Cancelled)
  }

  ghost predicate SlowOk(st: Pool) {
    && OneMessage(st.wq) && (st.pending != [] ==> SlowMessage in st.wq)
    && st.slowRunning == Tally(st.workers, RunsSlow()) && st.slowRunning <= Threshold(st.workers)
  }

  predicate Active(w: Worker) {
    w.Awake? || w.Executing? || w == Asleep(true)
  }

  /** No wake-up is lost: as long as something can be run, some worker is on its way, or all have exited. */
  ghost predicate SomeoneComes(st: Pool) {
    NothingToRun(st.wq, st.slowRunning, Threshold(st.workers))
    || (exists t :: 0 <= t < |st.workers| && Active(st.workers[t]))
    || (forall t :: 0 <= t < |st.workers| ==> st.workers[t].Exited?)
  }

  ghost predicate PoolOk(st: Pool) {
    SlowOk(st) && (forall id: Id :: ItemOk(st, id)) && DoneOk(st) && SomeoneComes(st)
  }

  // ------------------------------------------------------------------ every step keeps it

  lemma {:induction false} OneMessageCount(wq: seq<Elem>)
    ensures OneMessage(wq) <==> Count(wq, SlowMessage) <= 1
  {
    if wq != [] {
      var rest := wq[1..];
      OneMessageCount(rest);
      CountMember(rest, SlowMessage);
      assert forall k :: 0 <= k < |rest| ==> rest[k] == wq[k + 1];
      if OneMessage(wq) { HeadMessage(wq); }
    }
  }

  /** Appending to the queue, or taking an item out of it, leaves the message where it is. */
  lemma MessageStays(wq: seq<Elem>, e: Elem)
    requires OneMessage(wq)
    ensures OneMessage(Remove(wq, e))
    ensures !e.SlowMessage? && SlowMessage in wq ==> SlowMessage in Remove(wq, e)
    ensures !e.SlowMessage? || SlowMessage !in wq ==> OneMessage(wq + [e])
    ensures SlowMessage in wq || e.SlowMessage? ==> SlowMessage in wq + [e]
  {
    OneMessageCount(wq);
    OneMessageCount(Remove(wq, e));
    OneMessageCount(wq + [e]);
    CountRemove(wq, e, SlowMessage);
    CountAppend(wq, e, SlowMessage);
    CountMember(wq, SlowMessage);
    CountMember(Remove(wq, e), SlowMessage);
    CountMember(wq + [e], SlowMessage);
  }

  lemma SignalKeeps(workers: seq<Worker>, wake: Option<nat>, f: Worker -> nat)
    requires CanSignal(workers, wake) || wake == None
    requires f(Asleep(false)) == f(Asleep(true))
    ensures |Signalled(workers, wake)| == |workers|
    ensures Tally(Signalled(workers, wake), f) == Tally(workers, f)
  {
    if wake.Some? { TallyUpdate(workers, f, wake.value, Asleep(true)); }
  }

  /** The worker's turn as the step changes it: first the signal, then the worker itself. */
  lemma TurnTally(workers: seq<Worker>, wake: Option<nat>, t: nat, w: Worker, f: Worker -> nat)
    requires CanSignal(workers, wake) || wake == None
    requires f(Asleep(false)) == f(Asleep(true))
    requires t < |workers| && workers[t].Awake?
    ensures |Signalled(workers, wake)| == |workers|
    ensures Tally(Signalled(workers, wake)[t := w], f) + f(workers[t]) == Tally(workers, f) + f(w)
  {
    SignalKeeps(workers, wake, f);
    TallyUpdate(Signalled(workers, wake), f, t, w);
  }

  lemma SubmitKeepsSlow(st: Pool, id: Id, slow: bool, wake: Option<nat>, after: Pool)
    requires SlowOk(st) && Next(st, Submit(id, slow, wake), after)
    ensures SlowOk(after) && |after.workers| == |st.workers|
  {
    SignalKeeps(st.workers, wake, RunsSlow());
    MessageStays(st.wq, if slow then SlowMessage else Item(id));
  }

  lemma TurnKeepsSlow(st: Pool, t: nat, wake: Option<nat>, after: Pool)
    requires SlowOk(st) && Next(st, WorkerTurn(t, wake), after)
    ensures SlowOk(after) && |after.workers| == |st.workers|
  {
    var turn := AfterTurn(st, t);
    var running := if st.workers[t].slow then st.slowRunning - 1 else st.slowRunning;
    TurnTally(st.workers, wake, t, WorkerAfter(turn.outcome), RunsSlow());
    TurnIsFair(st.wq, st.pending, running, Threshold(st.workers));
  }

  lemma SlowKept(st: Pool, ev: Event, after: Pool)
    requires SlowOk(st) && Next(st, ev, after)
    ensures SlowOk(after) && |after.workers| == |st.workers|
  {
    match ev
    case Submit(id, slow, wake) => SubmitKeepsSlow(st, id, slow, wake, after);
    case StopAll(wake) =>
      SignalKeeps(st.workers, wake, RunsSlow());
      MessageStays(st.wq, ExitMessage);
    case WorkerTurn(t, wake) => TurnKeepsSlow(st, t, wake, after);
    case WakeUp(t) => TallyUpdate(st.workers, RunsSlow(), t, Awake(false));
    case FinishWork(t) => TallyUpdate(st.workers, RunsSlow(), t, Awake(st.workers[t].slow));
    case CancelBegin(id) => MessageStays(st.wq, Item(id));
    case CancelEnd =>
    case TakeDone =>
    case RunDone =>
  }

  lemma TurnKeepsItem(st: Pool, t: nat, wake: Option<nat>, after: Pool, id: Id)
    requires ItemOk(st, id) && Next(st, WorkerTurn(t, wake), after)
    ensures ItemOk(after, id)
  {
    var turn := AfterTurn(st, t);
    TurnTally(st.workers, wake, t, WorkerAfter(turn.outcome), Runs(id));
    TurnConserves(st.wq, st.pending, if st.workers[t].slow then st.slowRunning - 1 else st.slowRunning,
                  Threshold(st.workers), id);
    if turn.outcome.Run? { CountAppend(st.ran, turn.outcome.id, id); }
  }

  lemma SubmitKeepsItem(st: Pool, added: Id, slow: bool, wake: Option<nat>, after: Pool, id: Id)
    requires ItemOk(st, id) && Next(st, Submit(added, slow, wake), after)
    ensures ItemOk(after, id)
  {
    SignalKeeps(st.workers, wake, Runs(id));
    CountAppend(st.pending, added, id);
    CountAppend(st.wq, SlowMessage, Item(id));
    CountAppend(st.wq, Item(added), Item(id));
  }

  lemma FinishKeepsItem(st: Pool, t: nat, after: Pool, id: Id)
    requires ItemOk(st, id) && Next(st, FinishWork(t), after)
    ensures ItemOk(after, id)
  {
    TallyUpdate(st.workers, Runs(id), t, Awake(st.workers[t].slow));
    TallyAtLeast(st.workers, Runs(id), t);
    CountAppend(st.loopQueue, st.workers[t].id, id);
  }

  lemma {:induction false} CountedIsDone(done: seq<Completion>, id: Id)
    requires CountDone(done, id) > 0
    ensures exists k :: 0 <= k < |done| && done[k].id == id
  {
    var n := |done| - 1;
    if done[n].id != id {
      CountedIsDone(done[..n], id);
      var k :| 0 <= k < n && done[..n][k].id == id;
      assert done[k].id == id;
    }
  }

  /** An item's own links tell whether some queue holds it, as long as its completion has not run and no cancel has it in
      hand. */
  lemma LinkedIsQueued(st: Pool, id: Id)
    requires ItemOk(st, id) && id in st.work && st.moving != Some(id) && !IsDone(st, id)
    ensures id in st.linked <==> Queued(st, id)
  {
    CountMember(st.wq, Item(id));
    CountMember(st.pending, id);
    CountMember(st.loopQueue, id);
    CountMember(st.local, id);
    if CountDone(st.done, id) > 0 { CountedIsDone(st.done, id); }
  }

  /** A queued item is in one queue, once. */
  lemma QueuedOnce(st: Pool, id: Id)
    requires ItemOk(st, id) && Queued(st, id) && id in st.work
    ensures Count(st.wq, Item(id)) + Count(st.pending, id) + Count(st.loopQueue, id) + Count(st.local, id) == 1
  {
    CountMember(st.wq, Item(id));
    CountMember(st.pending, id);
    CountMember(st.loopQueue, id);
    CountMember(st.local, id);
  }

  /** Taking an item out of whichever queue holds it leaves it nowhere, and no other item moves. */
  lemma UnlinkTakesOne(st: Pool, gone: Id, id: Id)
    requires ItemOk(st, gone) && gone in st.work && Queued(st, gone)
    ensures InFront(Unlinked(st, gone), id) + Behind(Unlinked(st, gone), id)
         == InFront(st, id) + Behind(st, id) - if gone == id then 1 else 0
    ensures gone != id ==> InFront(Unlinked(st, gone), id) == InFront(st, id)
  {
    QueuedOnce(st, gone);
    CountMember(st.wq, Item(gone));
    CountMember(st.pending, gone);
    CountMember(st.loopQueue, gone);
    CountMember(st.local, gone);
    CountRemove(st.wq, Item(gone), Item(id));
    CountRemove(st.pending, gone, id);
    CountRemove(st.loopQueue, gone, id);
    CountRemove(st.local, gone, id);
  }

  lemma CancelKeepsItem(st: Pool, gone: Id, after: Pool, id: Id)
    requires ItemOk(st, id) && Next(st, CancelBegin(gone), after) && ItemOk(st, gone)
    ensures ItemOk(after, id)
  {
    if CanCancel(st, gone) {
      LinkedIsQueued(st, gone);
      UnlinkTakesOne(st, gone, id);
    }
  }

  lemma {:induction false} CountDoneAppend(done: seq<Completion>, c: Completion, id: Id)
    ensures CountDone(done + [c], id) == CountDone(done, id) + if c.id == id then 1 else 0
  {
    assert (done + [c])[..|done|] == done;
  }

  lemma ItemKept(st: Pool, ev: Event, after: Pool, id: Id)
    requires ItemOk(st, id) && Next(st, ev, after) && (ev.CancelBegin? ==> ItemOk(st, ev.id))
    ensures ItemOk(after, id)
  {
    match ev
    case Submit(added, slow, wake) => SubmitKeepsItem(st, added, slow, wake, after, id);
    case StopAll(wake) =>
      SignalKeeps(st.workers, wake, Runs(id));
      CountAppend(st.wq, ExitMessage, Item(id));
    case WorkerTurn(t, wake) => TurnKeepsItem(st, t, wake, after, id);
    case WakeUp(t) => TallyUpdate(st.workers, Runs(id), t, Awake(false));
    case FinishWork(t) => FinishKeepsItem(st, t, after, id);
    case CancelBegin(gone) => CancelKeepsItem(st, gone, after, id);
    case CancelEnd => CountAppend(st.loopQueue, st.moving.value, id);
    case TakeDone =>
    case RunDone => CountDoneAppend(st.done, Completion(st.local[0], st.work[st.local[0]] == Cancelled), id);
  }

  lemma {:induction false} DoneCounts(done: seq<Completion>, k: nat)
    requires k < |done|
    ensures CountDone(done, done[k].id) >= 1
  {
    if k < |done| - 1 { DoneCounts(done[..|done| - 1], k); }
  }

  /** An item whose done has run is not executing any more. */
  lemma DoneIsOver(st: Pool, k: nat, t: nat)
    requires k < |st.done| && t < |st.workers| && st.workers[t].Executing? && ItemOk(st, st.done[k].id)
    ensures st.workers[t].id != st.done[k].id
  {
    DoneCounts(st.done, k);
    TallyAtLeast(st.workers, Runs(st.done[k].id), t);
  }

  lemma DoneKept(st: Pool, ev: Event, after: Pool)
    requires DoneOk(st) && (forall id: Id :: ItemOk(st, id)) && Next(st, ev, after)
    ensures DoneOk(after)
  {
    forall k | 0 <= k < |after.done|
      ensures after.done[k].id in after.work && (after.done[k].canceled <==> after.work[after.done[k].id] == Cancelled)
    {
      if ev.FinishWork? { DoneIsOver(st, k, ev.t); }
    }
  }

  lemma RemoveLeavesWork(wq: seq<Elem>, id: Id, slowRunning: nat, threshold: nat)
    requires NothingToRun(wq, slowRunning, threshold)
    ensures Remove(wq, Item(id)) == wq
  {
  }

  /** A signal wakes a sleeper, or there is none: then every worker is active or has exited. */
  lemma SignalReaches(workers: seq<Worker>, wake: Option<nat>)
    requires CanSignal(workers, wake)
    ensures var w := Signalled(workers, wake);
            (exists t :: 0 <= t < |w| && Active(w[t])) || (forall t :: 0 <= t < |w| ==> w[t].Exited?)
  {
    if wake.Some? { assert Active(Signalled(workers, wake)[wake.value]); }
  }

  lemma ComesKept(st: Pool, ev: Event, after: Pool)
    requires SlowOk(st) && SomeoneComes(st) && Next(st, ev, after)
    ensures SomeoneComes(after)
  {
    match ev
    case Submit(id, slow, wake) =>
      if !(slow && SlowMessage in st.wq) { SignalReaches(st.workers, wake); }
    case StopAll(wake) => SignalReaches(st.workers, wake);
    case WorkerTurn(t, wake) => TurnComes(st, t, wake, after);
    case WakeUp(t) => assert Active(after.workers[t]);
    case FinishWork(t) => assert Active(after.workers[t]);
    case CancelBegin(id) => RemoveIfNothing(st, id);
    case CancelEnd =>
    case TakeDone =>
    case RunDone =>
  }

  lemma RemoveIfNothing(st: Pool, id: Id)
    ensures NothingToRun(st.wq, st.slowRunning, Threshold(st.workers)) ==> Remove(st.wq, Item(id)) == st.wq
  {
    if NothingToRun(st.wq, st.slowRunning, Threshold(st.workers)) {
      RemoveLeavesWork(st.wq, id, st.slowRunning, Threshold(st.workers));
    }
  }

  lemma TurnComes(st: Pool, t: nat, wake: Option<nat>, after: Pool)
    requires SlowOk(st) && Next(st, WorkerTurn(t, wake), after)
    ensures SomeoneComes(after)
  {
    var turn := AfterTurn(st, t);
    TurnIsFair(st.wq, st.pending, if st.workers[t].slow then st.slowRunning - 1 else st.slowRunning,
               Threshold(st.workers));
    match turn.outcome
    case Sleep => assert |after.workers| == |st.workers|;
    case Exit =>
      if wake.Some? {
        assert Active(after.workers[wake.value]);
      } else if u :| 0 <= u < |after.workers| && !after.workers[u].Exited? {
        assert Active(after.workers[u]);
      }
    case Run(id, slow) => assert Active(after.workers[t]);
  }

  lemma StepKeepsPool(st: Pool, ev: Event, after: Pool)
    requires PoolOk(st) && Next(st, ev, after)
    ensures PoolOk(after)
  {
    SlowKept(st, ev, after);
    forall id: Id ensures ItemOk(after, id) { ItemKept(st, ev, after, id); }
    DoneKept(st, ev, after);
    ComesKept(st, ev, after);
  }

  // ------------------------------------------------------------------ runs

  /** init_threads: n workers about to take their first turn. */
  function Started(n: nat): Pool {
    Pool([], [], seq(n, _ => Awake(false)), 0, [], [], None, map[], {}, [], [])
  }

  ghost predicate PoolRun(n: nat, states: seq<Pool>, events: seq<Event>) {
    && n >= 1 && |states| == |events| + 1 && states[0] == Started(n)
    && forall i {:trigger events[i]} :: 0 <= i < |events| ==> Next(states[i], events[i], states[i + 1])
  }

  lemma {:induction false} TallyZero(workers: seq<Worker>, f: Worker -> nat)
    requires forall t :: 0 <= t < |workers| ==> f(workers[t]) == 0
    ensures Tally(workers, f) == 0
  {
    if workers != [] { TallyZero(workers[..|workers| - 1], f); }
  }

  lemma StartedOk(n: nat)
    requires n >= 1
    ensures PoolOk(Started(n))
  {
    var st := Started(n);
    TallyZero(st.workers, RunsSlow());
    forall id: Id ensures ItemOk(st, id) { TallyZero(st.workers, Runs(id)); }
  }

  lemma {:induction false} ReachableOk(n: nat, states: seq<Pool>, events: seq<Event>, i: nat)
    requires PoolRun(n, states, events) && i <= |events|
    ensures PoolOk(states[i]) && |states[i].workers| == n
  {
    if i == 0 {
      StartedOk(n);
    } else {
      ReachableOk(n, states, events, i - 1);
      var ev := events[i - 1];
      StepKeepsPool(states[i - 1], ev, states[i]);
      SlowKept(states[i - 1], ev, states[i]);
    }
  }

  /** How many places hold the item: a queue, a worker, a cancel in progress, or the list of completions. */
  function Places(st: Pool, id: Id): nat {
    InFront(st, id) + Behind(st, id)
  }

  /** In every reachable state: pending slow work has its message queued; slow work never takes more than half of the
      workers, rounded up; and work that can be run has a worker on its way to it. */
  lemma PoolIsFair(n: nat, states: seq<Pool>, events: seq<Event>, i: nat)
    requires PoolRun(n, states, events) && i <= |events|
    ensures var st := states[i];
            && (st.pending != [] ==> SlowMessage in st.wq)
            && |st.workers| == n && Tally(st.workers, RunsSlow()) <= (n + 1) / 2
            && (!NothingToRun(st.wq, st.slowRunning, (n + 1) / 2) && Asleep(false) in st.workers
                ==> exists t :: 0 <= t < n && Active(st.workers[t]))
  {
    ReachableOk(n, states, events, i);
  }

  /** In every reachable state a submitted item is in exactly one place, has run at most once, and has had done called at
      most once. */
  lemma ItemsAreConserved(n: nat, states: seq<Pool>, events: seq<Event>, i: nat, id: Id)
    requires PoolRun(n, states, events) && i <= |events|
    ensures var st := states[i];
            && Places(st, id) == (if id in st.work then 1 else 0)
            && CountDone(st.done, id) <= 1 && Count(st.ran, id) <= 1
            && (Count(st.loopQueue, id) + Count(st.local, id) + CountDone(st.done, id) > 0
                ==> (Count(st.ran, id) == 1 <==> st.work[id] == Finished))
  {
    ReachableOk(n, states, events, i);
    assert ItemOk(states[i], id);
  }

  /** Whether uv_cancel has returned 0 for the item in the first i steps. */
  ghost predicate CancelSucceeded(states: seq<Pool>, events: seq<Event>, i: nat, id: Id)
    requires i <= |events| < |states|
  {
    exists j :: 0 <= j < i && events[j] == CancelBegin(id) && id in states[j].work && CanCancel(states[j], id)
  }

  lemma {:induction false} CancelledIffSucceeded(n: nat, states: seq<Pool>, events: seq<Event>, i: nat, id: Id)
    requires PoolRun(n, states, events) && i <= |events|
    ensures id in states[i].work && states[i].work[id] == Cancelled <==> CancelSucceeded(states, events, i, id)
  {
    if i > 0 {
      CancelledIffSucceeded(n, states, events, i - 1, id);
      ReachableOk(n, states, events, i - 1);
      OneStepCancels(states[i - 1], events[i - 1], states[i], id);
      var now := states[i].work;
      if id in now && now[id] == Cancelled && !CancelSucceeded(states, events, i - 1, id) {
        assert events[i - 1] == CancelBegin(id);
      }
    }
  }

  /** The only step that turns an item into a cancelled one is its successful cancel, and nothing turns it back. */
  lemma OneStepCancels(st: Pool, ev: Event, after: Pool, id: Id)
    requires ItemOk(st, id) && Next(st, ev, after)
    ensures id in after.work && after.work[id] == Cancelled
       <==> (id in st.work && st.work[id] == Cancelled) || (ev == CancelBegin(id) && CanCancel(st, id))
  {
    if ev.FinishWork? { TallyAtLeast(st.workers, Runs(id), ev.t); }
  }

  /** done reports UV_ECANCELED exactly when a cancel of the item had returned 0, and exactly then it has not run. */
  lemma CompletionIsHonest(n: nat, states: seq<Pool>, events: seq<Event>, i: nat, k: nat)
    requires PoolRun(n, states, events) && i <= |events| && k < |states[i].done|
    ensures var c := states[i].done[k];
            && (c.canceled <==> CancelSucceeded(states, events, i, c.id))
            && (c.canceled <==> Count(states[i].ran, c.id) == 0)
  {
    var id := states[i].done[k].id;
    ReachableOk(n, states, events, i);
    assert ItemOk(states[i], id);
    DoneCounts(states[i].done, k);
    CancelledIffSucceeded(n, states, events, i, id);
  }

  // ------------------------------------------------------------------ the code between the locks

  function Completions(queue: seq<Id>, work: map<Id, Work>): seq<Completion>
    requires forall id :: id in queue ==> id in work
  {
    seq(|queue|, i requires 0 <= i < |queue| => Completion(queue[i], work[queue[i]] == Cancelled))
  }

  lemma {:induction false} RemoveAbsent<T>(s: seq<T>, x: T)
    requires x !in s
    ensures Remove(s, x) == s
  {
    if s != [] { RemoveAbsent(s[1..], x); }
  }

  /** QUEUE_REMOVE touches one queue only. */
  lemma UnlinkedFromOne(st: Pool, id: Id)
    requires ItemOk(st, id) && Queued(st, id) && id in st.work
    ensures Unlinked(st, id) == if Item(id) in st.wq then st.(wq := Remove(st.wq, Item(id)))
                                else if id in st.pending then st.(pending := Remove(st.pending, id))
                                else if id in st.loopQueue then st.(loopQueue := Remove(st.loopQueue, id))
                                else st.(local := Remove(st.local, id))
  {
    QueuedOnce(st, id);
    CountMember(st.wq, Item(id));
    CountMember(st.pending, id);
    CountMember(st.loopQueue, id);
    CountMember(st.local, id);
    if Item(id) !in st.wq { RemoveAbsent(st.wq, Item(id)); }
    if id !in st.pending { RemoveAbsent(st.pending, id); }
    if id !in st.loopQueue { RemoveAbsent(st.loopQueue, id); }
    if id !in st.local { RemoveAbsent(st.local, id); }
  }

  /** What the threads share under the locks, and the links and work functions of the items. */
  class Globals {
    const nthreads: nat
    var wq: seq<Elem>
    var slowPending: seq<Id>
    var slowRunning: nat
    var loopQueue: seq<Id>
    var local: seq<Id>
    var work: map<Id, Work>
    var linked: set<Id>
    var done: seq<Completion>

    constructor (n: nat)
      requires n >= 1
      ensures nthreads == n && wq == [] && slowPending == [] && slowRunning == 0
      ensures loopQueue == [] && local == [] && work == map[] && linked == {} && done == []
    {
      nthreads := n;
      wq, slowPending, slowRunning, loopQueue, local, work, linked, done := [], [], 0, [], [], map[], {}, [];
    }

    /** The state machine's view of the shared state, given what only the threads themselves know. */
    function Seen(workers: seq<Worker>, moving: Option<Id>, ran: seq<Id>): Pool
      reads this
    {
      Pool(wq, slowPending, workers, slowRunning, loopQueue, local, moving, work, linked, ran, done)
    }

    /** post: whether a worker should be signalled. */
    method Post(id: Id, slow: bool, ghost rest: Pool) returns (signal: bool)
      requires rest == Seen(rest.workers, rest.moving, rest.ran)
      modifies this`wq, this`slowPending, this`linked
      ensures Seen(rest.workers, rest.moving, rest.ran) == Posted(rest, id, slow)
      ensures signal <==> !(slow && SlowMessage in old(wq))
    {
      var q := Item(id);
      linked := linked + {id};
      if slow {
        slowPending := slowPending + [id];
        if SlowMessage in wq { return false; }
        q := SlowMessage;
      }
      wq := wq + [q];
      return true;
    }

    /** The worker's loop from the moment it holds the mutex until it lets it go. */
    method Work(isSlow: bool) returns (o: Outcome, signal: bool)
      requires OneMessage(wq) && (isSlow ==> slowRunning > 0)
      modifies this`wq, this`slowPending, this`slowRunning, this`linked
      ensures linked == LinkedAfter(old(linked), o)
      ensures Turn(o, wq, slowPending, slowRunning, signal)
           == TakeTurn(old(wq), old(slowPending), if isSlow then old(slowRunning) - 1 else old(slowRunning), (nthreads + 1) / 2)
    {
      if isSlow { slowRunning := slowRunning - 1; }
      var threshold := (nthreads + 1) / 2;
      ghost var whole := TakeTurn(wq, slowPending, slowRunning, threshold);
      while !NothingToRun(wq, slowRunning, threshold)
        invariant OneMessage(wq) && linked == old(linked)
        invariant TakeTurn(wq, slowPending, slowRunning, threshold) == whole
        decreases |wq|, if wq != [] && wq[0].SlowMessage? then 1 else 0
      {
        var q := wq[0];
        if q.ExitMessage? { return Exit, true; }
        HeadMessage(wq);
        wq := wq[1..];
        if q.Item? {
          linked := linked - {q.id};
          return Run(q.id, false), false;
        }
        if slowRunning >= threshold {
          wq := wq + [q];
          continue;
        }
        if slowPending == [] { continue; }
        slowRunning := slowRunning + 1;
        var id := slowPending[0];
        slowPending := slowPending[1..];
        linked := linked - {id};
        if slowPending != [] { wq := wq + [SlowMessage]; }
        return Run(id, true), slowPending != [];
      }
      return Sleep, false;
    }

    /** uv__work_cancel looks at the item's links and work function only. It returns 0 (true) just when the item is in a
        queue and has not finished; the item is then in no queue but the loop's, at its end, as cancelled. */
    method Cancel(id: Id, ghost rest: Pool) returns (cancelled: bool)
      requires rest == Seen(rest.workers, None, rest.ran) && id in work && ItemOk(rest, id) && !IsDone(rest, id)
      modifies this
      ensures cancelled <==> Queued(rest, id) && rest.work[id] != Finished
      ensures Seen(rest.workers, None, rest.ran)
           == if cancelled then (var u := Unlinked(rest, id); u.(work := u.work[id := Cancelled], loopQueue := u.loopQueue + [id]))
              else rest
    {
      LinkedIsQueued(rest, id);
      cancelled := id in linked && work[id] != Finished;
      if !cancelled { return; }
      UnlinkedFromOne(rest, id);
      if Item(id) in wq {
        wq := Remove(wq, Item(id));
      } else if id in slowPending {
        slowPending := Remove(slowPending, id);
      } else if id in loopQueue {
        loopQueue := Remove(loopQueue, id);
      } else {
        local := Remove(local, id);
      }
      work := work[id := Cancelled];
      loopQueue := loopQueue + [id];
    }

    /** uv__work_done, with callbacks that do not cancel: the whole queue is taken at once, and every item in it is
        completed in order. */
    method WorkDone()
      requires local == [] && forall id :: id in loopQueue ==> id in work
      modifies this`loopQueue, this`local, this`done
      ensures loopQueue == [] && local == [] && done == old(done) + Completions(old(loopQueue), work)
    {
      ghost var all := loopQueue;
      ghost var n := 0;
      loopQueue, local := [], loopQueue;
      while local != []
        invariant n <= |all| && local == all[n..] && loopQueue == []
        invariant done == old(done) + Completions(all, work)[..n]
        decreases |local|
      {
        done := done + [Completion(local[0], work[local[0]] == Cancelled)];
        local := local[1..];
        n := n + 1;
      }
      assert Completions(all, work)[..n] == Completions(all, work);
    }
  }
}
