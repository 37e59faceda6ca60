/** The pointer heap under libuv's timers: a complete binary tree linked by left, right and parent, with removal of any
    node (libuv src/heap-inl.h). Nodes are timers; the comparison is timer_less_than (src/timer.c). */
module Heap {
  datatype Key = Key(timeout: nat, startId: nat)

  /** timer_less_than. */
  predicate KeyLess(a: Key, b: Key) {
    a.timeout < b.timeout || (a.timeout == b.timeout && a.startId < b.startId)
  }

  // ------------------------------------------------------------------ slots

  /** Slots are numbered row by row; the root is slot 0. */
  function Up(i: nat): nat
    requires i > 0
  {
    (i - 1) / 2
  }

  /** Number reached from slot number `m` (the root is number 1) by `k` steps, each taking the low bit of `path`. */
  function Walk(m: nat, path: nat, k: nat): nat
    decreases k
  {
    if k == 0 then m else Walk(2 * m + path % 2, path / 2, k - 1)
  }

  lemma {:induction false} WalkGrows(m: nat, path: nat, k: nat)
    requires m > 0
    ensures Walk(m, path, k) >= m && (k > 0 ==> Walk(m, path, k) >= 2 * m)
    decreases k
  {
    if k > 0 { WalkGrows(2 * m + path % 2, path / 2, k - 1); }
  }

  lemma PathStep(n: nat, path: nat, k: nat)
    ensures Walk(n / 2, 2 * path + n % 2, k + 1) == Walk(n, path, k)
  {
  }

  /** The bits of `target` below its leading one, reversed: the path from the root to that slot number. */
  method PathTo(target: nat) returns (path: nat, k: nat)
    requires target > 0
    ensures Walk(1, path, k) == target
  {
    path, k := 0, 0;
    var n := target;
    while n >= 2
      invariant n > 0 && Walk(n, path, k) == target
    {
      PathStep(n, path, k);
      path, k, n := 2 * path + n % 2, k + 1, n / 2;
    }
  }

  // ------------------------------------------------------------------ order, on the keys alone

  predicate EdgeOk(keys: seq<Key>, j: nat)
    requires 0 < j < |keys|
  {
    !KeyLess(keys[j], keys[Up(j)])
  }

  ghost predicate Ordered(keys: seq<Key>) {
    forall j :: 0 < j < |keys| ==> EdgeOk(keys, j)
  }

  /** Children of `i` are not smaller than the parent of `i`. */
  ghost predicate Spans(keys: seq<Key>, i: nat)
    requires i < |keys|
  {
    forall j :: 0 < j < |keys| && Up(j) == i && i > 0 ==> !KeyLess(keys[j], keys[Up(i)])
  }

  /** Ordered but for the edge above `i`. */
  ghost predicate LooseAbove(keys: seq<Key>, i: nat) {
    i < |keys| && Spans(keys, i) && forall j :: 0 < j < |keys| && j != i ==> EdgeOk(keys, j)
  }

  /** Ordered but for the edges around `i`. */
  ghost predicate LooseAround(keys: seq<Key>, i: nat) {
    i < |keys| && Spans(keys, i) && forall j :: 0 < j < |keys| && j != i && Up(j) != i ==> EdgeOk(keys, j)
  }

  function Swapped<T>(s: seq<T>, i: nat, j: nat): (r: seq<T>)
    requires i < |s| && j < |s|
    ensures |r| == |s|
  {
    s[i := s[j]][j := s[i]]
  }

  lemma UpIsLess(i: nat)
    requires i > 0
    ensures Up(i) < i && (i == 2 * Up(i) + 1 || i == 2 * Up(i) + 2)
  {
  }

  /** Swapping a too small entry with its parent moves the loose edge up. */
  lemma SwapUp(keys: seq<Key>, i: nat)
    requires LooseAbove(keys, i) && i > 0 && KeyLess(keys[i], keys[Up(i)])
    ensures LooseAbove(Swapped(keys, Up(i), i), Up(i))
  {
    var p := Up(i);
    UpIsLess(i);
    var after := Swapped(keys, p, i);
    forall j | 0 < j < |after| && j != p ensures EdgeOk(after, j) {
      UpIsLess(j);
      assert j != i ==> EdgeOk(keys, j);
    }
    if p > 0 {
      UpIsLess(p);
      forall j | 0 < j < |after| && Up(j) == p ensures !KeyLess(after[j], after[Up(p)]) {
        UpIsLess(j);
        assert EdgeOk(keys, p);
        assert j != i ==> EdgeOk(keys, j);
      }
    }
  }

  lemma SettledAbove(keys: seq<Key>, i: nat)
    requires LooseAbove(keys, i) && (i == 0 || !KeyLess(keys[i], keys[Up(i)]))
    ensures Ordered(keys)
  {
  }

  /** Swapping an entry with its smaller child moves the loose spot down. */
  lemma SwapDown(keys: seq<Key>, i: nat, c: nat)
    requires LooseAround(keys, i) && 0 < c < |keys| && Up(c) == i
    requires KeyLess(keys[c], keys[i]) && forall j :: 0 < j < |keys| && Up(j) == i ==> !KeyLess(keys[j], keys[c])
    ensures LooseAround(Swapped(keys, i, c), c)
  {
    UpIsLess(c);
    var after := Swapped(keys, i, c);
    forall j | 0 < j < |after| && j != c && Up(j) != c ensures EdgeOk(after, j) {
      UpIsLess(j);
      assert j != i && Up(j) != i ==> EdgeOk(keys, j);
    }
    forall j | 0 < j < |after| && Up(j) == c ensures !KeyLess(after[j], after[i]) {
      UpIsLess(j);
      assert EdgeOk(keys, j);
    }
  }

  lemma SettledBelow(keys: seq<Key>, i: nat)
    requires LooseAround(keys, i) && forall j :: 0 < j < |keys| && Up(j) == i ==> !KeyLess(keys[j], keys[i])
    ensures LooseAbove(keys, i)
  {
  }

  lemma AppendLoose(keys: seq<Key>, k: Key)
    requires Ordered(keys)
    ensures LooseAbove(keys + [k], |keys|)
  {
    var after := keys + [k];
    forall j | 0 < j < |after| && j != |keys| ensures EdgeOk(after, j) {
      UpIsLess(j);
      assert EdgeOk(keys, j);
    }
    forall j | 0 < j < |after| ensures Up(j) != |keys| {
      UpIsLess(j);
    }
  }

  /** Cutting off the last slot and overwriting slot `i` leaves the order loose around `i` only. */
  lemma ReplaceLoose(keys: seq<Key>, i: nat, k: Key)
    requires Ordered(keys) && i < |keys| - 1
    ensures LooseAround(keys[..|keys| - 1][i := k], i)
  {
    var after := keys[..|keys| - 1][i := k];
    forall j | 0 < j < |after| && j != i && Up(j) != i ensures EdgeOk(after, j) {
      UpIsLess(j);
      assert EdgeOk(keys, j);
    }
    if i > 0 {
      UpIsLess(i);
      forall j | 0 < j < |after| && Up(j) == i ensures !KeyLess(after[j], after[Up(i)]) {
        UpIsLess(j);
        assert EdgeOk(keys, j) && EdgeOk(keys, i);
      }
    }
  }

  lemma CutOrdered(keys: seq<Key>)
    requires Ordered(keys) && keys != []
    ensures Ordered(keys[..|keys| - 1])
  {
    var after := keys[..|keys| - 1];
    forall j | 0 < j < |after| ensures EdgeOk(after, j) {
      UpIsLess(j);
      assert EdgeOk(keys, j);
    }
  }

  /** The root of an ordered heap is a minimum. */
  lemma {:induction false} RootIsLeast(keys: seq<Key>, j: nat)
    requires Ordered(keys) && j < |keys|
    ensures !KeyLess(keys[j], keys[0])
  {
    if j > 0 {
      UpIsLess(j);
      RootIsLeast(keys, Up(j));
      assert EdgeOk(keys, j);
    }
  }

  // ------------------------------------------------------------------ nodes and links

  /** What a timer handle holds beside its heap node. */
  class Timer {
    var key: Key
    var repeat: nat
    var active: bool
    var closing: bool
    var hasCallback: bool

    /** uv_timer_init. */
    constructor ()
      ensures !active && !closing && !hasCallback && repeat == 0
    {
      key, repeat, active, closing, hasCallback := Key(0, 0), 0, false, false, false;
    }
  }

  /** The heap node embedded in a timer; container_of gets back to the timer. */
  class HeapNode {
    var left: HeapNode?
    var right: HeapNode?
    var parent: HeapNode?
    const timer: Timer

    constructor (timer: Timer)
      ensures this.timer == timer
    {
      this.timer := timer;
      left, right, parent := null, null, null;
    }
  }

  function SlotAt(nodes: seq<HeapNode>, k: nat): HeapNode? {
    if k < |nodes| then nodes[k] else null
  }

  function AboveSlot(nodes: seq<HeapNode>, i: nat): HeapNode?
    requires i < |nodes|
  {
    if i == 0 then null else nodes[Up(i)]
  }

  /** The links of the node in slot `i` are those of a complete binary tree with these slots. */
  predicate LinkAt(nodes: seq<HeapNode>, i: nat)
    requires i < |nodes|
    reads nodes[i]
  {
    nodes[i].left == SlotAt(nodes, 2 * i + 1) && nodes[i].right == SlotAt(nodes, 2 * i + 2) && nodes[i].parent == AboveSlot(nodes, i)
  }

  ghost predicate Distinct(nodes: seq<HeapNode>) {
    forall i, j :: 0 <= i < j < |nodes| ==> nodes[i] != nodes[j]
  }

  ghost predicate Linked(nodes: seq<HeapNode>)
    reads nodes
  {
    Distinct(nodes) && forall i :: 0 <= i < |nodes| ==> LinkAt(nodes, i)
  }

  function NodeSet(nodes: seq<HeapNode>): set<HeapNode> {
    set n | n in nodes
  }

  function TimersOf(nodes: seq<HeapNode>): set<Timer> {
    set n | n in nodes :: n.timer
  }

  function Keys(nodes: seq<HeapNode>): seq<Key>
    reads TimersOf(nodes)
  {
    seq(|nodes|, i requires 0 <= i < |nodes| reads TimersOf(nodes) => nodes[i].timer.key)
  }

  lemma SwappedDistinct(nodes: seq<HeapNode>, i: nat, j: nat)
    requires Distinct(nodes) && i < |nodes| && j < |nodes|
    ensures Distinct(Swapped(nodes, i, j)) && NodeSet(Swapped(nodes, i, j)) == NodeSet(nodes)
  {
    var after := Swapped(nodes, i, j);
    forall n | n in nodes ensures n in after {
      var k :| 0 <= k < |nodes| && nodes[k] == n;
      assert after[if k == i then j else if k == j then i else k] == n;
    }
  }

  /** A node is linked to its neighbours and to nothing else. */
  lemma OnlyNeighbours(nodes: seq<HeapNode>, k: nat)
    requires Linked(nodes) && k < |nodes|
    ensures forall n :: n in nodes && (n.left == nodes[k] || n.right == nodes[k]) ==> n == nodes[k].parent
    ensures forall n :: n in nodes && n.parent == nodes[k] ==> n == nodes[k].left || n == nodes[k].right
    ensures nodes[k].parent != null ==> nodes[k].parent in nodes
    ensures nodes[k].left != null ==> nodes[k].left in nodes && nodes[k].left.parent == nodes[k]
    ensures nodes[k].right != null ==> nodes[k].right in nodes && nodes[k].right.parent == nodes[k]
    ensures nodes[k].parent == null <==> k == 0
  {
    assert LinkAt(nodes, k);
    forall i | 0 <= i < |nodes| && (nodes[i].left == nodes[k] || nodes[i].right == nodes[k]) ensures nodes[i] == nodes[k].parent {
      assert LinkAt(nodes, i);
    }
    forall i | 0 <= i < |nodes| && nodes[i].parent == nodes[k] ensures nodes[i] == nodes[k].left || nodes[i] == nodes[k].right {
      assert LinkAt(nodes, i);
      if i > 0 { UpIsLess(i); }
    }
    if 2 * k + 1 < |nodes| { assert LinkAt(nodes, 2 * k + 1); }
    if 2 * k + 2 < |nodes| { assert LinkAt(nodes, 2 * k + 2); }
  }

  /** The renaming that exchanges two nodes. */
  function Exchange(n: HeapNode?, a: HeapNode, b: HeapNode): HeapNode? {
    if n == a then b else if n == b then a else n
  }

  datatype Links = Links(left: HeapNode?, right: HeapNode?, parent: HeapNode?)

  function LinksOf(n: HeapNode): Links
    reads n
  {
    Links(n.left, n.right, n.parent)
  }

  function ExchangeLinks(l: Links, a: HeapNode, b: HeapNode): Links {
    Links(Exchange(l.left, a, b), Exchange(l.right, a, b), Exchange(l.parent, a, b))
  }

  function SlotLinks(nodes: seq<HeapNode>, i: nat): Links
    requires i < |nodes|
  {
    Links(SlotAt(nodes, 2 * i + 1), SlotAt(nodes, 2 * i + 2), AboveSlot(nodes, i))
  }

  /** Exchanging two nodes everywhere exchanges their slots. */
  lemma SwapLinks(nodes: seq<HeapNode>, p: nat, c: nat, i: nat)
    requires Distinct(nodes) && p < |nodes| && c < |nodes| && i < |nodes|
    ensures SlotLinks(Swapped(nodes, p, c), i) == ExchangeLinks(SlotLinks(nodes, i), nodes[p], nodes[c])
    ensures Swapped(nodes, p, c)[i] == Exchange(nodes[i], nodes[p], nodes[c])
  {
    ExchangedSlot(nodes, p, c, i);
    ExchangedSlot(nodes, p, c, 2 * i + 1);
    ExchangedSlot(nodes, p, c, 2 * i + 2);
    if i > 0 {
      UpIsLess(i);
      ExchangedSlot(nodes, p, c, Up(i));
    }
  }

  predicate Apart(a: HeapNode?, others: set<HeapNode?>) {
    a != null ==> a !in others
  }

  /** The nodes around a parent and its child: who they are, that they are all different, and that nobody else points
      at the two. */
  ghost predicate Around(all: seq<HeapNode>, parent: HeapNode, child: HeapNode)
    reads all, parent, child
  {
    && child.parent == parent && parent != child
    && (parent.left == child || parent.right == child)
    && var g, s, l, r := parent.parent, if parent.left == child then parent.right else parent.left, child.left, child.right;
       && Apart(g, {parent, child}) && Apart(s, {parent, child, g}) && Apart(l, {parent, child, g, s}) && Apart(r, {parent, child, g, s, l})
       && (g != null ==> g in all && ((g.left == parent && g.right != parent) || (g.left != parent && g.right == parent)))
       && (s != null ==> s in all && s.parent == parent) && (l != null ==> l in all && l.parent == child)
       && (r != null ==> r in all && r.parent == child)
       && (forall n :: n in all && (n.left == parent || n.right == parent) ==> n == g)
       && (forall n :: n in all && (n.left == child || n.right == child) ==> n == parent)
       && (forall n :: n in all && n.parent == parent ==> n == child || n == s)
       && (forall n :: n in all && n.parent == child ==> n == l || n == r)
  }

  lemma SlotsAround(nodes: seq<HeapNode>, p: nat, c: nat)
    requires Linked(nodes) && 0 < c < |nodes| && Up(c) == p
    ensures Around(nodes, nodes[p], nodes[c]) && (nodes[p].parent == null <==> p == 0)
  {
    UpIsLess(c);
    if p > 0 { UpIsLess(p); }
    OnlyNeighbours(nodes, p);
    OnlyNeighbours(nodes, c);
    assert LinkAt(nodes, p) && LinkAt(nodes, c);
    if p > 0 { assert LinkAt(nodes, Up(p)); }
  }

  lemma ExchangedSlot(nodes: seq<HeapNode>, p: nat, c: nat, k: nat)
    requires Distinct(nodes) && p < |nodes| && c < |nodes|
    ensures SlotAt(Swapped(nodes, p, c), k) == Exchange(SlotAt(nodes, k), nodes[p], nodes[c])
  {
  }

  // ------------------------------------------------------------------ the heap

  class TimerHeap {
    var min: HeapNode?
    var nelts: nat
    ghost var nodes: seq<HeapNode>

    /** The tree is complete, its links agree, and no node is smaller than its parent. */
    ghost predicate Valid()
      reads this, nodes, TimersOf(nodes)
    {
      Shaped() && Ordered(Keys(nodes))
    }

    ghost predicate Shaped()
      reads this, nodes
    {
      nelts == |nodes| && min == SlotAt(nodes, 0) && Linked(nodes)
    }

    constructor ()
      ensures Valid() && nodes == []
    {
      min, nelts, nodes := null, 0, [];
    }

    /** heap_node_swap: parent and child trade places by link surgery on the nodes around them. */
    method NodeSwap(parent: HeapNode, child: HeapNode, ghost p: nat, ghost c: nat)
      requires Shaped() && 0 < c < |nodes| && Up(c) == p && nodes[p] == parent && nodes[c] == child
      modifies this, NodeSet(nodes)
      ensures Shaped() && nodes == Swapped(old(nodes), p, c)
    {
      ghost var before := nodes;
      SlotsAround(nodes, p, c);
      SwapSurgery(parent, child, before);
      nodes := Swapped(nodes, p, c);
      SwappedDistinct(before, p, c);
      forall i | 0 <= i < |nodes| ensures LinkAt(nodes, i) {
        SwapLinks(before, p, c, i);
        assert old(LinkAt(nodes, i));
      }
    }

    /** The first assignments of heap_node_swap: the two nodes exchange their links, point at each other, and the
        sibling `s` gets its new parent. */
    method ExchangeNodes(parent: HeapNode, child: HeapNode, ghost g: HeapNode?, ghost s: HeapNode?)
      requires child.parent == parent && parent != child
      requires LinksOf(parent) == Links(child, s, g) || LinksOf(parent) == Links(s, child, g)
      requires Apart(s, {parent, child})
      modifies parent, child, s
      ensures LinksOf(parent) == Links(old(child.left), old(child.right), child)
      ensures LinksOf(child) == if old(parent.left) == child then Links(parent, s, g) else Links(s, parent, g)
      ensures s != null ==> LinksOf(s) == Links(old(s.left), old(s.right), child)
    {
      var tLeft, tRight, tParent := parent.left, parent.right, parent.parent;
      parent.left, parent.right, parent.parent := child.left, child.right, child.parent;
      child.left, child.right, child.parent := tLeft, tRight, tParent;

      parent.parent := child;
      var sibling;
      if child.left == child {
        child.left := parent;
        sibling := child.right;
      } else {
        child.right := parent;
        sibling := child.left;
      }
      if sibling != null {
        sibling.parent := child;
      }
    }

    /** The remaining assignments: the nodes below and above learn about the exchange. */
    method AdoptNeighbours(parent: HeapNode, child: HeapNode, ghost g: HeapNode?, ghost l: HeapNode?, ghost r: HeapNode?)
      requires parent != child && parent.left == l && parent.right == r && child.parent == g
      requires Apart(g, {parent, child}) && Apart(l, {parent, child, g}) && Apart(r, {parent, child, g, l})
      requires g != null ==> g.left == parent || g.right == parent
      modifies `min, g, l, r
      ensures min == if g == null then child else old(min)
      ensures g != null ==> LinksOf(g) == if old(g.left) == parent then Links(child, old(g.right), old(g.parent)) else Links(old(g.left), child, old(g.parent))
      ensures l != null ==> LinksOf(l) == Links(old(l.left), old(l.right), parent)
      ensures r != null ==> LinksOf(r) == Links(old(r.left), old(r.right), parent)
    {
      if parent.left != null {
        parent.left.parent := parent;
      }
      if parent.right != null {
        parent.right.parent := parent;
      }
      if child.parent == null {
        min := child;
      } else if child.parent.left == parent {
        child.parent.left := child;
      } else {
        child.parent.right := child;
      }
    }

    method SwapSurgery(parent: HeapNode, child: HeapNode, ghost all: seq<HeapNode>)
      requires parent in all && child in all && min != child && Around(all, parent, child)
      requires parent.parent == null <==> min == parent
      modifies `min, NodeSet(all)
      ensures min == Exchange(old(min), parent, child)
      ensures forall n :: n in all ==> LinksOf(Exchange(n, parent, child)) == ExchangeLinks(old(LinksOf(n)), parent, child)
    {
      ghost var g, s, l, r := parent.parent, if parent.left == child then parent.right else parent.left, child.left, child.right;
      ExchangeNodes(parent, child, g, s);
      AdoptNeighbours(parent, child, g, l, r);
      forall n | n in all ensures LinksOf(Exchange(n, parent, child)) == ExchangeLinks(old(LinksOf(n)), parent, child) {
        if n != parent && n != child && n != g && n != s && n != l && n != r {
          assert LinksOf(n) == old(LinksOf(n));
        }
      }
    }

    /** heap_min: the root is the least node of all. */
    method Min() returns (n: HeapNode?)
      requires Valid()
      ensures Valid() && (n == null <==> nodes == [])
      ensures n != null ==> n in nodes && forall m :: m in nodes ==> !KeyLess(m.timer.key, n.timer.key)
    {
      n := min;
      forall i | 0 <= i < |nodes| ensures !KeyLess(nodes[i].timer.key, nodes[0].timer.key) {
        RootIsLeast(Keys(nodes), i);
      }
    }

    // ---------------------------------------------------------------- walking to a slot

    function Deref(p: Ptr): HeapNode?
      reads this, match p case AtMin => {} case LeftOf(n) => {n} case RightOf(n) => {n}
    {
      match p
      case AtMin => min
      case LeftOf(n) => n.left
      case RightOf(n) => n.right
    }

    method Assign(p: Ptr, value: HeapNode?)
      modifies match p case AtMin => {this as object} case LeftOf(n) => {n} case RightOf(n) => {n}
      ensures min == if p.AtMin? then value else old(min)
      ensures nelts == old(nelts) && nodes == old(nodes)
      ensures p.LeftOf? ==> LinksOf(p.n) == Links(value, old(p.n.right), old(p.n.parent))
      ensures p.RightOf? ==> LinksOf(p.n) == Links(old(p.n.left), value, old(p.n.parent))
    {
      match p
      case AtMin => min := value;
      case LeftOf(n) => n.left := value;
      case RightOf(n) => n.right := value;
    }

    /** The path computed from the element count reaches the right slot: `child` is the pointer to slot number `target`
        and `parent` the pointer to the slot above it. */
    method Descend(path: nat, k: nat, ghost target: nat) returns (parent: Ptr, child: Ptr)
      requires Shaped() && 0 < target <= |nodes| + 1 && Walk(1, path, k) == target
      ensures child == PtrTo(nodes, target - 1)
      ensures parent == if target == 1 then AtMin else PtrTo(nodes, Up(target - 1))
    {
      parent, child := AtMin, AtMin;
      var bits, left := path, k;
      ghost var m := 1;
      while left > 0
        invariant m > 0 && Walk(m, bits, left) == target && m <= target
        invariant child == PtrTo(nodes, m - 1)
        invariant parent == if m == 1 then AtMin else PtrTo(nodes, Up(m - 1))
      {
        WalkGrows(m, bits, left);
        PtrReaches(m - 1);
        ChildSlot(m, bits % 2);
        parent := child;
        var node := Deref(child);
        child := if bits % 2 == 1 then RightOf(node) else LeftOf(node);
        m := 2 * m + bits % 2;
        WalkGrows(m, bits / 2, left - 1);
        bits, left := bits / 2, left - 1;
      }
    }

    lemma PtrReaches(i: nat)
      requires Shaped() && i < |nodes|
      ensures Deref(PtrTo(nodes, i)) == nodes[i]
    {
      if i > 0 {
        UpIsLess(i);
        assert LinkAt(nodes, Up(i));
      }
    }

    // ---------------------------------------------------------------- restoring the order

    /** NodeSwap, seen as a swap of keys. */
    method SwapInOrder(parent: HeapNode, child: HeapNode, ghost p: nat, ghost c: nat, ghost keys: seq<Key>)
      requires Shaped() && 0 < c < |nodes| && Up(c) == p && nodes[p] == parent && nodes[c] == child && keys == Keys(nodes)
      modifies this, NodeSet(nodes)
      ensures Shaped() && nodes == Swapped(old(nodes), p, c) && Keys(nodes) == Swapped(keys, p, c) && nelts == old(nelts)
    {
      NodeSwap(parent, child, p, c);
      SwapKeys(old(nodes), p, c);
    }

    method SiftUp(node: HeapNode, ghost start: nat)
      requires Shaped() && LooseAbove(Keys(nodes), start) && nodes[start] == node
      modifies this, NodeSet(nodes)
      ensures Valid() && nelts == old(nelts) && NodeSet(nodes) == NodeSet(old(nodes))
    {
      ghost var i := start;
      while node.parent != null && KeyLess(node.timer.key, node.parent.timer.key)
        invariant Shaped() && LooseAbove(Keys(nodes), i) && nodes[i] == node
        invariant nelts == old(nelts) && NodeSet(nodes) == NodeSet(old(nodes))
        decreases i
      {
        assert LinkAt(nodes, i);
        ghost var p, keys := Up(i), Keys(nodes);
        UpIsLess(i);
        SwapUp(keys, i);
        SwappedDistinct(nodes, p, i);
        SwapInOrder(node.parent, node, p, i, keys);
        i := p;
      }
      assert LinkAt(nodes, i);
      SettledAbove(Keys(nodes), i);
    }

    /** heap_insert: hang the node at the left-most free slot of the bottom row and let it rise. */
    method Insert(newnode: HeapNode)
      requires Valid() && newnode !in nodes
      modifies this, NodeSet(nodes), newnode
      ensures Valid() && nelts == old(nelts) + 1 && NodeSet(nodes) == NodeSet(old(nodes)) + {newnode}
    {
      ghost var keys := Keys(nodes);
      newnode.left, newnode.right, newnode.parent := null, null, null;
      assert forall i :: 0 <= i < |nodes| ==> old(LinkAt(nodes, i));
      assert Shaped();
      var path, k := PathTo(1 + nelts);
      var parent, child := Descend(path, k, 1 + nelts);
      Hang(newnode, parent, child);
      AppendKeys(old(nodes), newnode);
      assert Keys(nodes) == keys + [newnode.timer.key];
      AppendLoose(keys, newnode.timer.key);
      SiftUp(newnode, |old(nodes)|);
    }

    /** The two assignments that make `newnode` the last slot. */
    method Hang(newnode: HeapNode, parent: Ptr, child: Ptr)
      requires Shaped() && newnode !in nodes && newnode.left == null && newnode.right == null
      requires child == PtrTo(nodes, |nodes|) && parent == if nodes == [] then AtMin else PtrTo(nodes, Up(|nodes|))
      modifies this, NodeSet(nodes), newnode
      ensures Shaped() && nodes == old(nodes) + [newnode]
    {
      ghost var before, n := nodes, |nodes|;
      if n > 0 {
        UpIsLess(n);
        PtrReaches(Up(n));
      }
      newnode.parent := Deref(parent);
      assert newnode.parent == if n == 0 then null else before[Up(n)];
      Assign(child, newnode);
      nelts := nelts + 1;
      nodes := before + [newnode];
      assert LinkAt(nodes, n);
      forall i | 0 <= i < n ensures LinkAt(nodes, i) {
        assert old(LinkAt(nodes, i));
        if i > 0 { UpIsLess(i); }
      }
    }

    // ---------------------------------------------------------------- removal

    /** `*max = NULL`: the last slot is cut off. */
    method CutLast(max: Ptr)
      requires Shaped() && nodes != [] && max == PtrTo(nodes, |nodes| - 1)
      modifies this, NodeSet(nodes)
      ensures Shaped() && nodes == old(nodes)[..|old(nodes)| - 1]
    {
      ghost var before, n := nodes, |nodes| - 1;
      if n > 0 { UpIsLess(n); }
      nelts := nelts - 1;
      Assign(max, null);
      nodes := before[..n];
      forall i | 0 <= i < |nodes| ensures LinkAt(nodes, i) {
        assert old(LinkAt(nodes, i));
        if i > 0 { UpIsLess(i); }
      }
    }

    /** `child`, which is in no slot, takes over the slot of `node`. */
    method Replace(node: HeapNode, child: HeapNode, ghost i: nat)
      requires Shaped() && i < |nodes| && nodes[i] == node && child !in nodes
      modifies this, NodeSet(nodes), child
      ensures Shaped() && nodes == old(nodes)[i := child]
    {
      ghost var before := nodes;
      assert LinkAt(nodes, i);
      AloneAt(nodes, i);
      LinksStayInside(nodes, child);
      TakeOver(node, child, nodes);
      nodes := before[i := child];
      forall k | 0 <= k < |nodes| ensures LinkAt(nodes, k) {
        assert old(LinkAt(nodes, k));
        RenameLinks(before, i, child, k);
      }
    }

    method TakeOver(node: HeapNode, child: HeapNode, ghost all: seq<HeapNode>)
      requires node in all && child !in all && Alone(all, node) && (node.parent == null <==> min == node)
      requires forall n :: n in all ==> n.left != child && n.right != child && n.parent != child
      modifies `min, NodeSet(all), child
      ensures min == Rename(old(min), node, child)
      ensures forall n :: n in all ==> LinksOf(Rename(n, node, child)) == RenamedLinks(old(LinksOf(n)), node, child)
    {
      ghost var g, l, r := node.parent, node.left, node.right;
      child.left := node.left;
      child.right := node.right;
      child.parent := node.parent;
      if child.left != null {
        child.left.parent := child;
      }
      if child.right != null {
        child.right.parent := child;
      }
      if node.parent == null {
        min := child;
      } else if node.parent.left == node {
        node.parent.left := child;
      } else {
        node.parent.right := child;
      }
      forall n | n in all ensures LinksOf(Rename(n, node, child)) == RenamedLinks(old(LinksOf(n)), node, child) {
        if n != node && n != g && n != l && n != r {
          assert LinksOf(n) == old(LinksOf(n));
        }
      }
    }

    /** The smallest among a node and its children. */
    method SmallestOf(child: HeapNode, ghost i: nat) returns (smallest: HeapNode, ghost c: nat)
      requires Shaped() && i < |nodes| && nodes[i] == child
      ensures c < |nodes| && nodes[c] == smallest && (c == i || (c > 0 && Up(c) == i && KeyLess(Keys(nodes)[c], Keys(nodes)[i])))
      ensures forall j :: 0 < j < |nodes| && Up(j) == i ==> !KeyLess(Keys(nodes)[j], Keys(nodes)[c])
    {
      assert LinkAt(nodes, i);
      smallest, c := child, i;
      if child.left != null && KeyLess(child.left.timer.key, smallest.timer.key) {
        smallest, c := child.left, 2 * i + 1;
      }
      if child.right != null && KeyLess(child.right.timer.key, smallest.timer.key) {
        smallest, c := child.right, 2 * i + 2;
      }
      forall j | 0 < j < |nodes| && Up(j) == i ensures !KeyLess(Keys(nodes)[j], Keys(nodes)[c]) {
        UpIsLess(j);
      }
    }

    method SiftDown(child: HeapNode, ghost start: nat) returns (ghost i: nat)
      requires Shaped() && LooseAround(Keys(nodes), start) && nodes[start] == child
      modifies this, NodeSet(nodes)
      ensures Shaped() && nelts == old(nelts) && NodeSet(nodes) == NodeSet(old(nodes))
      ensures LooseAbove(Keys(nodes), i) && nodes[i] == child
    {
      i := start;
      while true
        invariant Shaped() && LooseAround(Keys(nodes), i) && nodes[i] == child
        invariant nelts == old(nelts) && NodeSet(nodes) == NodeSet(old(nodes))
        decreases |nodes| - i
      {
        var settled, c := SinkOne(child, i);
        if settled { return; }
        i := c;
      }
    }

    /** One round of sifting down: the node is settled, or trades places with its smaller child. */
    method SinkOne(child: HeapNode, ghost i: nat) returns (settled: bool, ghost c: nat)
      requires Shaped() && LooseAround(Keys(nodes), i) && nodes[i] == child
      modifies this, NodeSet(nodes)
      ensures Shaped() && nelts == old(nelts) && NodeSet(nodes) == NodeSet(old(nodes))
      ensures settled ==> LooseAbove(Keys(nodes), i) && nodes[i] == child
      ensures !settled ==> i < c && LooseAround(Keys(nodes), c) && nodes[c] == child
    {
      var smallest;
      smallest, c := SmallestOf(child, i);
      ghost var keys := Keys(nodes);
      settled := smallest == child;
      if settled {
        SettledBelow(keys, i);
      } else {
        UpIsLess(c);
        SwapDown(keys, i, c);
        SwappedDistinct(nodes, i, c);
        SwapInOrder(child, smallest, i, c, keys);
      }
    }

    /** The cut-off node takes over slot `i`, sinks, and then rises if it has to. */
    method MoveInto(node: HeapNode, child: HeapNode, ghost i: nat)
      requires Shaped() && i < |nodes| && nodes[i] == node && child !in nodes
      requires LooseAround(Keys(nodes)[i := child.timer.key], i)
      modifies this, NodeSet(nodes), child
      ensures Valid() && NodeSet(nodes) == NodeSet(old(nodes)[i := child]) && nelts == old(nelts)
    {
      ghost var keys := Keys(nodes);
      ReplaceKeys(nodes, i, child);
      Replace(node, child, i);
      assert Keys(nodes) == keys[i := child.timer.key];
      ghost var at := SiftDown(child, i);
      SiftUp(child, at);
    }

    /** The walk of heap_remove: the last node of the bottom row is unlinked. */
    method UnlinkLast() returns (child: HeapNode)
      requires Shaped() && nodes != []
      modifies this, NodeSet(nodes)
      ensures Shaped() && nodes == old(nodes)[..|old(nodes)| - 1] && child == old(nodes)[|old(nodes)| - 1]
    {
      var path, k := PathTo(nelts);
      var _, max := Descend(path, k, nelts);
      PtrReaches(|nodes| - 1);
      child := Deref(max);
      CutLast(max);
    }

    /** heap_remove: of any node of the heap. Removing from an empty heap does nothing. */
    method Remove(node: HeapNode)
      requires Valid() && (nelts == 0 || node in nodes)
      modifies this, NodeSet(nodes)
      ensures Valid() && NodeSet(nodes) == NodeSet(old(nodes)) - {node}
      ensures nelts == if old(nelts) == 0 then 0 else old(nelts) - 1
    {
      if nelts == 0 {
        return;
      }
      ghost var all, keys := nodes, Keys(nodes);
      ghost var i :| 0 <= i < |nodes| && nodes[i] == node;
      CutMembers(all, i);
      var child := UnlinkLast();
      CutKeys(all);
      assert Keys(nodes) == keys[..|keys| - 1];
      if child == node {
        LastIsOnlyOnce(all, i);
        CutOrdered(keys);
        return;
      }
      FillHole(node, child, i, all, keys);
    }

    /** The node cut off last goes where the removed one was. */
    method FillHole(node: HeapNode, child: HeapNode, ghost i: nat, ghost all: seq<HeapNode>, ghost keys: seq<Key>)
      requires Shaped() && all == nodes + [child] && i < |nodes| && nodes[i] == node && child !in nodes
      requires |keys| == |all| && Ordered(keys) && Keys(nodes) == keys[..|nodes|] && keys[|nodes|] == child.timer.key
      modifies this, NodeSet(nodes), child
      ensures Valid() && NodeSet(nodes) == NodeSet(old(nodes)[i := child]) && nelts == old(nelts)
    {
      ReplaceLoose(keys, i, child.timer.key);
      MoveInto(node, child, i);
    }

    /** heap_dequeue. */
    method Dequeue()
      requires Valid()
      modifies this, NodeSet(nodes)
      ensures Valid() && NodeSet(nodes) == NodeSet(old(nodes)) - {old(min)}
    {
      if min != null {
        Remove(min);
      }
    }
  }

  /** A pointer to a pointer: where a node hangs. */
  datatype Ptr = AtMin | LeftOf(n: HeapNode) | RightOf(n: HeapNode)

  function PtrTo(nodes: seq<HeapNode>, i: nat): Ptr
    requires i <= |nodes|
  {
    if i == 0 then AtMin else if i % 2 == 1 then LeftOf(nodes[Up(i)]) else RightOf(nodes[Up(i)])
  }

  /** Slot numbers count from zero, the path's prefixes from one. */
  lemma ChildSlot(m: nat, bit: nat)
    requires m > 0 && bit < 2
    ensures Up(2 * m + bit - 1) == m - 1 && (2 * m + bit - 1) % 2 == 1 - bit
  {
  }

  lemma SwapKeys(nodes: seq<HeapNode>, i: nat, j: nat)
    requires i < |nodes| && j < |nodes|
    ensures Keys(Swapped(nodes, i, j)) == Swapped(Keys(nodes), i, j)
  {
  }

  lemma AppendKeys(nodes: seq<HeapNode>, n: HeapNode)
    ensures Keys(nodes + [n]) == Keys(nodes) + [n.timer.key]
  {
  }

  /** One node takes the place of another. */
  function Rename(n: HeapNode?, node: HeapNode, child: HeapNode): HeapNode? {
    if n == node then child else n
  }

  function RenamedLinks(l: Links, node: HeapNode, child: HeapNode): Links {
    Links(Rename(l.left, node, child), Rename(l.right, node, child), Rename(l.parent, node, child))
  }

  ghost predicate Alone(all: seq<HeapNode>, node: HeapNode)
    reads all, node
  {
    var g, l, r := node.parent, node.left, node.right;
    && Apart(g, {node}) && Apart(l, {node, g}) && Apart(r, {node, g, l})
    && (g != null ==> g in all && ((g.left == node && g.right != node) || (g.left != node && g.right == node)))
    && (l != null ==> l in all && l.parent == node) && (r != null ==> r in all && r.parent == node)
    && (forall n :: n in all && (n.left == node || n.right == node) ==> n == g)
    && (forall n :: n in all && n.parent == node ==> n == l || n == r)
  }

  lemma RenameLinks(nodes: seq<HeapNode>, i: nat, child: HeapNode, k: nat)
    requires Distinct(nodes) && i < |nodes| && k < |nodes| && child !in nodes
    ensures SlotLinks(nodes[i := child], k) == RenamedLinks(SlotLinks(nodes, k), nodes[i], child)
    ensures nodes[i := child][k] == Rename(nodes[k], nodes[i], child)
  {
    if k > 0 { UpIsLess(k); }
  }

  lemma AloneAt(nodes: seq<HeapNode>, i: nat)
    requires Linked(nodes) && i < |nodes|
    ensures Alone(nodes, nodes[i]) && (nodes[i].parent == null <==> i == 0)
  {
    OnlyNeighbours(nodes, i);
    assert LinkAt(nodes, i);
    if i > 0 {
      UpIsLess(i);
      assert LinkAt(nodes, Up(i));
    }
  }

  lemma LinksStayInside(nodes: seq<HeapNode>, x: HeapNode)
    requires Linked(nodes) && x !in nodes
    ensures forall n :: n in nodes ==> n.left != x && n.right != x && n.parent != x
  {
    forall i | 0 <= i < |nodes| ensures nodes[i].left != x && nodes[i].right != x && nodes[i].parent != x {
      assert LinkAt(nodes, i);
    }
  }

  /** The node set once the last slot is cut off and its node has moved to slot `i`. */
  lemma CutMembers(nodes: seq<HeapNode>, i: nat)
    requires Distinct(nodes) && i < |nodes|
    ensures var n := |nodes| - 1;
            && nodes[n] !in nodes[..n]
            && (i == n ==> NodeSet(nodes[..n]) == NodeSet(nodes) - {nodes[i]})
            && (i < n ==> NodeSet(nodes[..n][i := nodes[n]]) == NodeSet(nodes) - {nodes[i]})
  {
    var n := |nodes| - 1;
    var cut, moved := nodes[..n], if i < n then nodes[..n][i := nodes[n]] else nodes[..n];
    forall x | x in NodeSet(nodes) - {nodes[i]} ensures x in moved {
      var k :| 0 <= k < |nodes| && nodes[k] == x;
      assert k < n ==> moved[k] == x;
      assert k == n ==> moved[i] == x;
    }
  }

  lemma CutKeys(nodes: seq<HeapNode>)
    requires nodes != []
    ensures Keys(nodes[..|nodes| - 1]) == Keys(nodes)[..|nodes| - 1]
  {
  }

  lemma ReplaceKeys(nodes: seq<HeapNode>, i: nat, child: HeapNode)
    requires i < |nodes|
    ensures Keys(nodes[i := child]) == Keys(nodes)[i := child.timer.key]
  {
  }

  lemma LastIsOnlyOnce(nodes: seq<HeapNode>, i: nat)
    requires Distinct(nodes) && i < |nodes| && nodes[i] == nodes[|nodes| - 1]
    ensures i == |nodes| - 1
  {
  }
}
