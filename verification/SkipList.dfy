/** The memtable's skip list (leveldb db/skiplist.h): one writer whose insert is a series of single pointer stores, and
    readers that take no lock and load one pointer at a time in between. */
module SkipList {
  type Key = real

  const MAX_HEIGHT: nat := 12

  datatype Pointer = Null | To(key: Key)

  datatype Place = Head | Node(key: Key)

  /** The nodes in the arena, each named by its key, which no other node has, and the header's links. */
  datatype Memory = Memory(head: seq<Pointer>, nodes: map<Key, seq<Pointer>>)

  /** Insert between its stores: it is at `level` of the new node, and has set that node's own link there or not yet. */
  datatype Inserting = Idle | Linking(key: Key, height: nat, prev: seq<Place>, level: nat, own: bool)

  /** What a search runs up to: FindGreaterOrEqual and FindLessThan stop at a key, FindLast at the end. */
  datatype Target = Until(key: Key) | End

  datatype Reader = Searching(target: Target, x: Place, level: nat) | Found(target: Target, x: Place, next: Pointer)

  datatype State = State(m: Memory, maxHeight: nat, writer: Inserting, readers: map<nat, Reader>)

  predicate Precedes(x: Place, k: Key) {
    x.Head? || x.key < k
  }

  predicate HasLink(m: Memory, x: Place, level: nat) {
    if x.Head? then level < |m.head| else x.key in m.nodes && level < |m.nodes[x.key]|
  }

  function Load(m: Memory, x: Place, level: nat): Pointer
    requires HasLink(m, x, level)
  {
    if x.Head? then m.head[level] else m.nodes[x.key][level]
  }

  function Store(m: Memory, x: Place, level: nat, p: Pointer): Memory
    requires HasLink(m, x, level)
  {
    if x.Head? then m.(head := m.head[level := p]) else m.(nodes := m.nodes[x.key := m.nodes[x.key][level := p]])
  }

  /** KeyIsAfterNode: a null pointer is infinitely far. */
  predicate IsAfter(target: Target, p: Pointer) {
    p.To? && (target.End? || p.key < target.key)
  }

  // ------------------------------------------------------------------ the shape of the list

  /** The node being inserted is not yet in the lists from the current level upwards. */
  predicate Hidden(w: Inserting, k: Key, level: nat) {
    w.Linking? && k == w.key && level >= w.level
  }

  /** The keys that hang in the list of one level. */
  function Level(m: Memory, w: Inserting, level: nat): set<Key> {
    set k | k in m.nodes && level < |m.nodes[k]| && !Hidden(w, k, level)
  }

  /** The keys a reader can find: those in the list of level 0. */
  function Contents(st: State): set<Key> {
    Level(st.m, st.writer, 0)
  }

  ghost predicate OnLevel(s: set<Key>, x: Place) {
    x.Head? || x.key in s
  }

  /** p leads from x to the next greater key of the set, or nowhere if there is none. */
  ghost predicate IsSuccessor(s: set<Key>, x: Place, p: Pointer) {
    match p
    case Null => forall k :: k in s ==> !Precedes(x, k)
    case To(n) => n in s && Precedes(x, n) && forall k :: k in s && Precedes(x, k) ==> n <= k
  }

  /** The links of one level run through its keys in increasing order, from the header on. */
  ghost predicate Chained(m: Memory, s: set<Key>, level: nat) {
    forall x :: OnLevel(s, x) ==> HasLink(m, x, level) && IsSuccessor(s, x, Load(m, x, level))
  }

  ghost predicate Shape(m: Memory, w: Inserting, maxHeight: nat) {
    && |m.head| == MAX_HEIGHT && 1 <= maxHeight <= MAX_HEIGHT
    && (forall k :: k in m.nodes ==> 1 <= |m.nodes[k]| <= maxHeight)
    && forall l :: 0 <= l < MAX_HEIGHT ==> Chained(m, Level(m, w, l), l)
  }

  /** Where the search left a level: at the last place before the key. */
  ghost predicate IsPrev(m: Memory, s: set<Key>, level: nat, key: Key, p: Place) {
    OnLevel(s, p) && Precedes(p, key) && HasLink(m, p, level) && !IsAfter(Until(key), Load(m, p, level))
  }

  ghost predicate WriterOk(m: Memory, w: Inserting) {
    w.Linking? ==>
      && w.key in m.nodes && |m.nodes[w.key]| == w.height && w.level < w.height <= |w.prev|
      && (forall l :: w.level <= l < w.height ==> IsPrev(m, Level(m, w, l), l, w.key, w.prev[l]))
      && (w.own ==> HasLink(m, w.prev[w.level], w.level) && m.nodes[w.key][w.level] == Load(m, w.prev[w.level], w.level))
  }

  ghost predicate ReaderOk(m: Memory, w: Inserting, r: Reader) {
    r.Searching? ==> r.level < MAX_HEIGHT && OnLevel(Level(m, w, r.level), r.x) && (r.target.Until? ==> Precedes(r.x, r.target.key))
  }

  ghost predicate ListOk(st: State) {
    && Shape(st.m, st.writer, st.maxHeight) && WriterOk(st.m, st.writer)
    && forall r :: r in st.readers ==> ReaderOk(st.m, st.writer, st.readers[r])
  }

  /** Each level is a sublist of the one below, in every state. */
  lemma LevelsNest(m: Memory, w: Inserting, low: nat, high: nat)
    requires low <= high
    ensures Level(m, w, high) <= Level(m, w, low)
  {
  }

  // ------------------------------------------------------------------ the steps

  datatype Event =
    | BeginInsert(key: Key, height: nat, prev: seq<Place>, garbage: seq<Pointer>)
    | SetOwn
    | Publish
    | StartSearch(r: nat, target: Target, level: nat)
    | SearchStep(r: nat)

  /** One round of the search loop: one load, then right, down, or done. */
  function AfterLoad(r: Reader, next: Pointer): Reader
    requires r.Searching?
  {
    if IsAfter(r.target, next) then Searching(r.target, Node(next.key), r.level)
    else if r.level > 0 then Searching(r.target, r.x, r.level - 1)
    else Found(r.target, r.x, next)
  }

  function Max(a: nat, b: nat): nat {
    if a < b then b else a
  }

  ghost predicate Next(st: State, ev: Event, after: State) {
    match ev
    // The search has filled prev below max_height_, the header stands above it; the new node's links hold anything.
    case BeginInsert(key, height, prev, garbage) =>
      && st.writer.Idle? && key !in st.m.nodes && 1 <= height <= MAX_HEIGHT && |garbage| == height
      && |prev| == MAX_HEIGHT && st.maxHeight <= MAX_HEIGHT
      && (forall l :: 0 <= l < st.maxHeight ==> IsPrev(st.m, Level(st.m, Idle, l), l, key, prev[l]))
      && (forall l :: st.maxHeight <= l < height ==> prev[l] == Head)
      && after == st.(m := st.m.(nodes := st.m.nodes[key := garbage]), maxHeight := Max(st.maxHeight, height),
                      writer := Linking(key, height, prev, 0, false))
    case SetOwn =>
      && st.writer.Linking? && !st.writer.own
      && var w := st.writer;
         && w.level < |w.prev| && HasLink(st.m, Node(w.key), w.level) && HasLink(st.m, w.prev[w.level], w.level)
         && after == st.(m := Store(st.m, Node(w.key), w.level, Load(st.m, w.prev[w.level], w.level)), writer := w.(own := true))
    case Publish =>
      && st.writer.Linking? && st.writer.own
      && var w := st.writer;
         && w.level < |w.prev| && HasLink(st.m, w.prev[w.level], w.level)
         && after == st.(m := Store(st.m, w.prev[w.level], w.level, To(w.key)), writer := Published(w))
    case StartSearch(r, target, level) =>
      level < MAX_HEIGHT && after == st.(readers := st.readers[r := Searching(target, Head, level)])
    case SearchStep(r) =>
      && r in st.readers && st.readers[r].Searching? && HasLink(st.m, st.readers[r].x, st.readers[r].level)
      && var reader := st.readers[r];
         after == st.(readers := st.readers[r := AfterLoad(reader, Load(st.m, reader.x, reader.level))])
  }

  function Published(w: Inserting): Inserting
    requires w.Linking?
  {
    if w.level + 1 == w.height then Idle else w.(level := w.level + 1, own := false)
  }

  // ------------------------------------------------------------------ a store at a time

  /** Links only change at one place of one level. */
  lemma StoreElsewhere(m: Memory, x: Place, level: nat, p: Pointer, y: Place, l: nat)
    requires HasLink(m, x, level) && HasLink(m, y, l)
    ensures HasLink(Store(m, x, level, p), y, l)
    ensures Load(Store(m, x, level, p), y, l) == if x == y && level == l then p else Load(m, y, l)
  {
  }

  lemma StoreKeepsLevels(m: Memory, x: Place, level: nat, p: Pointer, w: Inserting, l: nat)
    requires HasLink(m, x, level)
    ensures Level(Store(m, x, level, p), w, l) == Level(m, w, l)
  {
  }

  /** A store at another level, or at a place that is not in the list, leaves a level's chain alone. */
  lemma ChainUntouched(m: Memory, s: set<Key>, l: nat, x: Place, level: nat, p: Pointer)
    requires Chained(m, s, l) && HasLink(m, x, level) && (level != l || !OnLevel(s, x))
    ensures Chained(Store(m, x, level, p), s, l)
  {
    forall y | OnLevel(s, y)
      ensures HasLink(Store(m, x, level, p), y, l) && IsSuccessor(s, y, Load(Store(m, x, level, p), y, l))
    {
      StoreElsewhere(m, x, level, p, y, l);
    }
  }

  /** Publishing a node whose own link is already set: the list grows by exactly that key. */
  lemma ChainGrows(m: Memory, s: set<Key>, l: nat, key: Key, prev: Place)
    requires Chained(m, s, l) && key !in s && IsPrev(m, s, l, key, prev)
    requires HasLink(m, Node(key), l) && Load(m, Node(key), l) == Load(m, prev, l)
    ensures Chained(Store(m, prev, l, To(key)), s + {key}, l)
  {
    var after := Store(m, prev, l, To(key));
    forall y | OnLevel(s + {key}, y)
      ensures HasLink(after, y, l) && IsSuccessor(s + {key}, y, Load(after, y, l))
    {
      if y == Node(key) {
        StoreElsewhere(m, prev, l, To(key), y, l);
      } else {
        assert OnLevel(s, y);
        StoreElsewhere(m, prev, l, To(key), y, l);
        if y != prev && Precedes(y, key) { PrevIsLast(m, s, l, key, prev, y); }
      }
    }
  }

  /** Any other place before the key is before prev, so its successor is at most prev. */
  lemma PrevIsLast(m: Memory, s: set<Key>, l: nat, key: Key, prev: Place, y: Place)
    requires Chained(m, s, l) && IsPrev(m, s, l, key, prev) && OnLevel(s, y) && y != prev && Precedes(y, key)
    ensures prev.Node? && Precedes(y, prev.key) && HasLink(m, y, l)
    ensures Load(m, y, l).To? && Load(m, y, l).key <= prev.key
  {
    assert OnLevel(s, prev) && IsSuccessor(s, prev, Load(m, prev, l));
    assert IsSuccessor(s, y, Load(m, y, l));
  }

  // ------------------------------------------------------------------ every step keeps the list

  lemma BeginKeepsShape(m: Memory, maxHeight: nat, key: Key, height: nat, prev: seq<Place>, garbage: seq<Pointer>,
                        l: nat)
    requires Shape(m, Idle, maxHeight) && key !in m.nodes && |garbage| == height && l < MAX_HEIGHT
    ensures var after := m.(nodes := m.nodes[key := garbage]);
            var w := Linking(key, height, prev, 0, false);
            Level(after, w, l) == Level(m, Idle, l) && Chained(after, Level(after, w, l), l)
  {
    var after := m.(nodes := m.nodes[key := garbage]);
    var s := Level(m, Idle, l);
    assert Level(after, Linking(key, height, prev, 0, false), l) == s;
    forall x | OnLevel(s, x) ensures HasLink(after, x, l) && IsSuccessor(s, x, Load(after, x, l)) {
      assert HasLink(m, x, l) && IsSuccessor(s, x, Load(m, x, l));
    }
  }

  /** Above max_height_ the header's links are null, so the header is where a search would have stopped. */
  lemma HeaderIsPrev(m: Memory, maxHeight: nat, key: Key, l: nat)
    requires Shape(m, Idle, maxHeight) && maxHeight <= l < MAX_HEIGHT
    ensures IsPrev(m, Level(m, Idle, l), l, key, Head)
  {
    var s := Level(m, Idle, l);
    assert s == {};
    assert OnLevel(s, Head);
    assert IsSuccessor(s, Head, Load(m, Head, l));
  }

  lemma BeginKept(st: State, key: Key, height: nat, prev: seq<Place>, garbage: seq<Pointer>, after: State)
    requires ListOk(st) && Next(st, BeginInsert(key, height, prev, garbage), after)
    ensures Shape(after.m, after.writer, after.maxHeight) && WriterOk(after.m, after.writer)
    ensures forall l :: 0 <= l < MAX_HEIGHT ==> Level(after.m, after.writer, l) == Level(st.m, st.writer, l)
  {
    forall l | 0 <= l < MAX_HEIGHT
      ensures Level(after.m, after.writer, l) == Level(st.m, st.writer, l)
      ensures Chained(after.m, Level(after.m, after.writer, l), l)
    {
      BeginKeepsShape(st.m, st.maxHeight, key, height, prev, garbage, l);
    }
    forall l | 0 <= l < height ensures IsPrev(after.m, Level(after.m, after.writer, l), l, key, prev[l]) {
      if l >= st.maxHeight { HeaderIsPrev(st.m, st.maxHeight, key, l); }
      assert IsPrev(st.m, Level(st.m, Idle, l), l, key, prev[l]);
    }
  }

  lemma OwnKept(st: State, after: State)
    requires ListOk(st) && Next(st, SetOwn, after)
    ensures Shape(after.m, after.writer, after.maxHeight) && WriterOk(after.m, after.writer)
    ensures forall l :: 0 <= l < MAX_HEIGHT ==> Level(after.m, after.writer, l) == Level(st.m, st.writer, l)
  {
    var w := st.writer;
    var p := Load(st.m, w.prev[w.level], w.level);
    assert IsPrev(st.m, Level(st.m, w, w.level), w.level, w.key, w.prev[w.level]);
    forall l | 0 <= l < MAX_HEIGHT
      ensures Level(after.m, after.writer, l) == Level(st.m, w, l)
      ensures Chained(after.m, Level(after.m, after.writer, l), l)
    {
      StoreKeepsLevels(st.m, Node(w.key), w.level, p, w, l);
      assert Level(after.m, after.writer, l) == Level(after.m, w, l);
      ChainUntouched(st.m, Level(st.m, w, l), l, Node(w.key), w.level, p);
    }
    forall l | w.level <= l < w.height ensures IsPrev(after.m, Level(after.m, after.writer, l), l, w.key, w.prev[l]) {
      assert IsPrev(st.m, Level(st.m, w, l), l, w.key, w.prev[l]);
      StoreElsewhere(st.m, Node(w.key), w.level, p, w.prev[l], l);
    }
    StoreElsewhere(st.m, Node(w.key), w.level, p, Node(w.key), w.level);
    StoreElsewhere(st.m, Node(w.key), w.level, p, w.prev[w.level], w.level);
  }

  /** What one publishing store does to every level: the current one gains the key, the others stay. */
  lemma PublishedLevel(m: Memory, w: Inserting, l: nat)
    requires w.Linking? && w.level < |w.prev| && HasLink(m, w.prev[w.level], w.level)
    requires w.key in m.nodes && |m.nodes[w.key]| == w.height && w.level < w.height
    ensures Level(Store(m, w.prev[w.level], w.level, To(w.key)), Published(w), l)
         == Level(m, w, l) + if l == w.level then {w.key} else {}
  {
    StoreKeepsLevels(m, w.prev[w.level], w.level, To(w.key), Published(w), l);
  }

  lemma PublishKept(st: State, after: State)
    requires ListOk(st) && Next(st, Publish, after)
    ensures Shape(after.m, after.writer, after.maxHeight) && WriterOk(after.m, after.writer)
    ensures forall l :: 0 <= l < MAX_HEIGHT ==>
      Level(after.m, after.writer, l) == Level(st.m, st.writer, l) + if l == st.writer.level then {st.writer.key} else {}
  {
    var w := st.writer;
    var prev := w.prev[w.level];
    var s := Level(st.m, w, w.level);
    assert IsPrev(st.m, s, w.level, w.key, prev);
    forall l | 0 <= l < MAX_HEIGHT
      ensures Level(after.m, after.writer, l) == Level(st.m, w, l) + if l == w.level then {w.key} else {}
      ensures Chained(after.m, Level(after.m, after.writer, l), l)
    {
      PublishedLevel(st.m, w, l);
      if l == w.level {
        ChainGrows(st.m, s, l, w.key, prev);
      } else {
        assert Level(st.m, w, l) + {} == Level(st.m, w, l);
        ChainUntouched(st.m, Level(st.m, w, l), l, prev, w.level, To(w.key));
      }
    }
    forall l | w.level < l < w.height ensures IsPrev(after.m, Level(after.m, after.writer, l), l, w.key, w.prev[l]) {
      PublishedLevel(st.m, w, l);
      assert IsPrev(st.m, Level(st.m, w, l), l, w.key, w.prev[l]);
      StoreElsewhere(st.m, prev, w.level, To(w.key), w.prev[l], l);
    }
  }

  /** The writer's steps only add to a level, which a search in progress does not mind. */
  lemma ReaderUnmoved(m: Memory, w: Inserting, m': Memory, w': Inserting, r: Reader)
    requires ReaderOk(m, w, r)
    requires r.Searching? ==> Level(m, w, r.level) <= Level(m', w', r.level)
    ensures ReaderOk(m', w', r)
  {
  }

  lemma SearchStepKept(m: Memory, w: Inserting, maxHeight: nat, r: Reader)
    requires Shape(m, w, maxHeight) && ReaderOk(m, w, r) && r.Searching?
    ensures HasLink(m, r.x, r.level) && ReaderOk(m, w, AfterLoad(r, Load(m, r.x, r.level)))
  {
    var s := Level(m, w, r.level);
    assert Chained(m, s, r.level);
    assert OnLevel(s, r.x);
    if r.level > 0 { LevelsNest(m, w, r.level - 1, r.level); }
  }

  lemma StepKeepsList(st: State, ev: Event, after: State)
    requires ListOk(st) && Next(st, ev, after)
    ensures ListOk(after)
  {
    match ev {
      case BeginInsert(key, height, prev, garbage) => BeginKept(st, key, height, prev, garbage, after);
      case SetOwn => OwnKept(st, after);
      case Publish => PublishKept(st, after);
      case StartSearch(r, target, level) =>
      case SearchStep(r) => SearchStepKept(st.m, st.writer, st.maxHeight, st.readers[r]);
    }
    forall r | r in after.readers ensures ReaderOk(after.m, after.writer, after.readers[r]) {
      if after.readers == st.readers { ReaderUnmoved(st.m, st.writer, after.m, after.writer, st.readers[r]); }
    }
  }

  // ------------------------------------------------------------------ runs

  function Empty(): State {
    State(Memory(seq(MAX_HEIGHT, _ => Null), map[]), 1, Idle, map[])
  }

  ghost predicate Run(states: seq<State>, events: seq<Event>) {
    && |states| == |events| + 1 && states[0] == Empty()
    && forall i {:trigger events[i]} :: 0 <= i < |events| ==> Next(states[i], events[i], states[i + 1])
  }

  lemma EmptyOk()
    ensures ListOk(Empty())
  {
    forall l | 0 <= l < MAX_HEIGHT ensures Chained(Empty().m, Level(Empty().m, Idle, l), l) {
      assert Level(Empty().m, Idle, l) == {};
    }
  }

  /** In every state between two stores of any insert, every level is a sorted chain and a sublist of the one below. */
  lemma {:induction false} EveryStateIsAList(states: seq<State>, events: seq<Event>, i: nat)
    requires Run(states, events) && i <= |events|
    ensures ListOk(states[i])
    ensures forall low: nat, high: nat ::
      low <= high ==> Level(states[i].m, states[i].writer, high) <= Level(states[i].m, states[i].writer, low)
  {
    if i == 0 {
      EmptyOk();
    } else {
      EveryStateIsAList(states, events, i - 1);
      StepKeepsList(states[i - 1], events[i - 1], states[i]);
    }
  }

  /** The only step that changes what readers can find is the insert's store at level 0, which adds exactly its key. */
  lemma ContentsGrow(st: State, ev: Event, after: State)
    requires ListOk(st) && Next(st, ev, after)
    ensures Contents(after) == Contents(st) + if ev == Publish && st.writer.level == 0 then {st.writer.key} else {}
    ensures ev == Publish ==> st.writer.Linking? && (st.writer.level == 0 <==> st.writer.key !in Contents(st))
  {
    match ev
    case BeginInsert(key, height, prev, garbage) => BeginKept(st, key, height, prev, garbage, after);
    case SetOwn => OwnKept(st, after);
    case Publish => PublishKept(st, after);
    case StartSearch(r, target, level) =>
    case SearchStep(r) =>
  }

  /** next is the first key of s at or after the target, and x the last one before it. */
  ghost predicate Splits(s: set<Key>, target: Target, x: Place, next: Pointer) {
    && OnLevel(s, x) && (target.Until? ==> Precedes(x, target.key))
    && (next.To? ==> next.key in s && target.Until? && target.key <= next.key)
    && forall k :: k in s ==> (x.Node? && k <= x.key) || (next.To? && next.key <= k)
  }

  /** Whatever is inserted meanwhile, a search ends with the first key at or after its target, and the last one before it,
      of the list as it is at the moment of the search's last load. */
  lemma SearchIsAtomic(states: seq<State>, events: seq<Event>, i: nat, r: nat)
    requires Run(states, events) && i < |events| && events[i] == SearchStep(r)
    requires r in states[i + 1].readers && states[i + 1].readers[r].Found?
    ensures var f := states[i + 1].readers[r]; Splits(Contents(states[i]), f.target, f.x, f.next)
  {
    EveryStateIsAList(states, events, i);
    var st := states[i];
    assert Next(st, events[i], states[i + 1]);
    var reader := st.readers[r];
    assert OnLevel(Contents(st), reader.x);
    assert Chained(st.m, Contents(st), 0);
  }

  lemma {:induction false} ContentsOnlyGrow(states: seq<State>, events: seq<Event>, i: nat, j: nat)
    requires Run(states, events) && i <= j <= |events|
    ensures Contents(states[i]) <= Contents(states[j])
    decreases j - i
  {
    if i < j {
      ContentsOnlyGrow(states, events, i, j - 1);
      EveryStateIsAList(states, events, j - 1);
      ContentsGrow(states[j - 1], events[j - 1], states[j]);
    }
  }

  /** A key whose insert came before the search is never missed by it. */
  lemma EarlierInsertsAreSeen(states: seq<State>, events: seq<Event>, i: nat, j: nat, r: nat, key: Key)
    requires Run(states, events) && i <= j < |events| && events[j] == SearchStep(r)
    requires r in states[j + 1].readers && states[j + 1].readers[r].Found? && states[j + 1].readers[r].target == Until(key)
    requires key in Contents(states[i])
    ensures states[j + 1].readers[r].next == To(key)
  {
    ContentsOnlyGrow(states, events, i, j);
    SearchIsAtomic(states, events, j, r);
  }

  /** The insert that has begun but has not stored at level 0 yet. */
  function Unseen(w: Inserting): set<Key> {
    if w.Linking? && w.level == 0 then {w.key} else {}
  }

  function Begun(ev: Event): set<Key> {
    if ev.BeginInsert? then {ev.key} else {}
  }

  lemma NodesGrow(st: State, ev: Event, after: State)
    requires Next(st, ev, after)
    ensures after.m.nodes.Keys == st.m.nodes.Keys + Begun(ev)
  {
  }

  lemma {:induction false} NodesAreBegun(states: seq<State>, events: seq<Event>, i: nat, key: Key)
    requires Run(states, events) && i <= |events|
    ensures key in states[i].m.nodes <==> exists j :: 0 <= j < i && key in Begun(events[j])
  {
    if i > 0 {
      NodesAreBegun(states, events, i - 1, key);
      NodesGrow(states[i - 1], events[i - 1], states[i]);
    }
  }

  /** What readers can find is exactly what the inserts so far have added, but for one that has not published yet. */
  lemma HoldsWhatWasInserted(states: seq<State>, events: seq<Event>, i: nat, key: Key)
    requires Run(states, events) && i <= |events|
    ensures key in Contents(states[i])
       <==> key !in Unseen(states[i].writer) && exists j :: 0 <= j < i && key in Begun(events[j])
  {
    EveryStateIsAList(states, events, i);
    NodesAreBegun(states, events, i, key);
  }

  // ------------------------------------------------------------------ the code itself

  /** The list between inserts, with the loops and stores of the source; each store is one step of the machine above. */
  class List {
    var head: seq<Pointer>
    var nodes: map<Key, seq<Pointer>>
    var maxHeight: nat

    function Mem(): Memory
      reads this
    {
      Memory(head, nodes)
    }

    ghost predicate Valid()
      reads this
    {
      Shape(Mem(), Idle, maxHeight)
    }

    /** Every key in the list. */
    function Keys(): set<Key>
      reads this
    {
      Level(Mem(), Idle, 0)
    }

    constructor ()
      ensures Valid() && Keys() == {}
    {
      head, nodes, maxHeight := seq(MAX_HEIGHT, _ => Null), map[], 1;
      new;
      EmptyOk();
    }

    /** The loop shared by FindGreaterOrEqual, FindLessThan and FindLast, which differ in what they return. */
    method Search(target: Target) returns (x: Place, next: Pointer, prev: seq<Place>)
      requires Valid()
      ensures Splits(Keys(), target, x, next) && |prev| == MAX_HEIGHT
      ensures target.Until? ==> forall l :: 0 <= l < maxHeight ==> IsPrev(Mem(), Level(Mem(), Idle, l), l, target.key, prev[l])
    {
      ghost var m := Mem();
      x, prev := Head, seq(MAX_HEIGHT, _ => Head);
      var level := maxHeight - 1;
      ghost var ahead := Keys();
      while true
        invariant 0 <= level < maxHeight && |prev| == MAX_HEIGHT
        invariant OnLevel(Level(m, Idle, level), x) && (target.Until? ==> Precedes(x, target.key))
        invariant ahead == set k | k in Keys() && Precedes(x, k)
        invariant target.Until? ==> forall l :: level < l < maxHeight ==> IsPrev(m, Level(m, Idle, l), l, target.key, prev[l])
        decreases |ahead|, level
      {
        assert Chained(m, Level(m, Idle, level), level);
        next := Load(Mem(), x, level);
        assert IsSuccessor(Level(m, Idle, level), x, next);
        if IsAfter(target, next) {
          x := Node(next.key);
          ghost var less := set k | k in Keys() && Precedes(x, k);
          LevelsNest(m, Idle, 0, level);
          Smaller(less, ahead, next.key);
          ahead := less;
        } else {
          prev := prev[level := x];
          if level == 0 { return; }
          LevelsNest(m, Idle, level - 1, level);
          level := level - 1;
        }
      }
    }

    method Contains(key: Key) returns (found: bool)
      requires Valid()
      ensures found <==> key in Keys()
    {
      var _, next, _ := Search(Until(key));
      found := next == To(key);
    }

    /** prev[i]->SetNext or x->NoBarrier_SetNext. */
    method SetNext(x: Place, level: nat, p: Pointer)
      requires HasLink(Mem(), x, level)
      modifies this`head, this`nodes
      ensures Mem() == Store(old(Mem()), x, level, p)
    {
      if x.Head? {
        head := head[level := p];
      } else {
        nodes := nodes[x.key := nodes[x.key][level := p]];
      }
    }

    /** The two stores that link the node into one level. */
    method LinkLevel(key: Key, prev: seq<Place>, i: nat, ghost st: State) returns (ghost after: State)
      requires ListOk(st) && st.m == Mem() && st.writer.Linking? && st.writer == Linking(key, st.writer.height, prev, i, false)
      modifies this`head, this`nodes
      ensures ListOk(after) && after.m == Mem() && after == st.(m := after.m, writer := Published(st.writer))
      ensures Contents(after) == Contents(st) + if i == 0 then {key} else {}
    {
      assert IsPrev(st.m, Level(st.m, st.writer, i), i, key, prev[i]);
      SetNext(Node(key), i, Load(Mem(), prev[i], i));
      ghost var mid := st.(m := Mem(), writer := st.writer.(own := true));
      Stepped(st, SetOwn, mid);
      SetNext(prev[i], i, To(key));
      after := mid.(m := Mem(), writer := Published(st.writer));
      Stepped(mid, Publish, after);
    }

    /** The height is random, and the arena's memory holds anything. */
    method Insert(key: Key, height: nat, garbage: seq<Pointer>)
      requires Valid() && key !in Keys() && 1 <= height <= MAX_HEIGHT && |garbage| == height
      modifies this
      ensures Valid() && Keys() == old(Keys()) + {key}
    {
      var _, _, prev := Search(Until(key));
      ghost var st := State(Mem(), maxHeight, Idle, map[]);
      var i := maxHeight;
      while i < height
        invariant |prev| == MAX_HEIGHT && maxHeight <= i
        invariant forall l :: 0 <= l < maxHeight ==> IsPrev(st.m, Level(st.m, Idle, l), l, key, prev[l])
        invariant forall l :: maxHeight <= l < i && l < height ==> prev[l] == Head
      {
        prev := prev[i := Head];
        i := i + 1;
      }
      if height > maxHeight { maxHeight := height; }
      nodes := nodes[key := garbage];
      ghost var next := State(Mem(), maxHeight, Linking(key, height, prev, 0, false), map[]);
      Stepped(st, BeginInsert(key, height, prev, garbage), next);
      LinkAll(key, height, prev, next);
    }

    /** The loop over the levels of the new node. */
    method LinkAll(key: Key, height: nat, prev: seq<Place>, ghost start: State)
      requires ListOk(start) && start == State(Mem(), maxHeight, Linking(key, height, prev, 0, false), map[]) && 1 <= height
      modifies this`head, this`nodes
      ensures Valid() && Keys() == Contents(start) + {key}
    {
      ghost var st := start;
      var i := 0;
      while i < height
        invariant 0 <= i <= height && ListOk(st) && st.m == Mem() && st.maxHeight == maxHeight && st.readers == map[]
        invariant st.writer == if i < height then Linking(key, height, prev, i, false) else Idle
        invariant Contents(st) == Contents(start) + if i > 0 then {key} else {}
      {
        st := LinkLevel(key, prev, i, st);
        i := i + 1;
      }
    }
  }

  lemma Stepped(st: State, ev: Event, after: State)
    requires ListOk(st) && Next(st, ev, after)
    ensures ListOk(after)
    ensures Contents(after) == Contents(st) + if ev == Publish && st.writer.level == 0 then {st.writer.key} else {}
  {
    StepKeepsList(st, ev, after);
    ContentsGrow(st, ev, after);
  }

  lemma Smaller<T>(less: set<T>, more: set<T>, k: T)
    requires less <= more && k in more && k !in less
    ensures |less| < |more|
  {
    SmallerSubset(less, more - {k});
  }

  lemma {:induction false} SmallerSubset<T>(less: set<T>, more: set<T>)
    requires less <= more
    ensures |less| <= |more|
  {
    if less != {} {
      var k :| k in less;
      SmallerSubset(less - {k}, more - {k});
    }
  }
}
