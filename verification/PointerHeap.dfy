// The binary heap of linked nodes (libuv src/heap-inl.h), with the order of timers (src/timer.c).

module PointerHeap {

  // ---- Order ----

  // What timer_less_than compares: timeout first, then start_id.
  datatype Key = Key(timeout: nat, startId: nat)

  predicate Less(a: Key, b: Key) {
    a.timeout < b.timeout || (a.timeout == b.timeout && a.startId < b.startId)
  }

  // A heap node together with the timer handle it is embedded in; the heap only moves the links.
  class Node {
    var left: Node?
    var right: Node?
    var parent: Node?
    var key: Key
    var repeat: nat
    var hasCallback: bool
    var active: bool
    var closing: bool

    // uv_timer_init
    constructor ()
      ensures left == null && right == null && parent == null && repeat == 0 && !hasCallback && !active && !closing
    {
      left, right, parent := null, null, null;
      key, repeat := Key(0, 0), 0;
      hasCallback, active, closing := false, false, false;
    }
  }

  // ---- Positions of a complete tree, level by level ----

  function Left(i: nat): nat { 2 * i + 1 }

  function Right(i: nat): nat { 2 * i + 2 }

  function Up(i: nat): (u: nat)
    requires i > 0
    ensures u < i && (i == Left(u) || i == Right(u))
  {
    (i - 1) / 2
  }

  function At(s: seq<Node>, i: nat): Node? {
    if i < |s| then s[i] else null
  }

  ghost predicate LinkedAt(s: seq<Node>, i: nat)
    requires i < |s|
    reads s`left, s`right, s`parent
  {
    s[i].left == At(s, Left(i)) && s[i].right == At(s, Right(i)) && s[i].parent == if i == 0 then null else s[Up(i)]
  }

  ghost predicate Linked(s: seq<Node>)
    reads s`left, s`right, s`parent
  {
    forall i :: 0 <= i < |s| ==> LinkedAt(s, i)
  }

  ghost predicate Distinct(s: seq<Node>) {
    forall i, j :: 0 <= i < j < |s| ==> s[i] != s[j]
  }

  ghost function NodesOf(s: seq<Node>): set<Node> {
    set n | n in s
  }

  lemma SwapNodes(s: seq<Node>, p: nat, c: nat)
    requires p < c < |s| && Distinct(s)
    ensures NodesOf(s[p := s[c]][c := s[p]]) == NodesOf(s) && Distinct(s[p := s[c]][c := s[p]])
  {
    var t := s[p := s[c]][c := s[p]];
    forall n | n in s ensures n in t {
      var i :| 0 <= i < |s| && s[i] == n;
      assert t[if i == p then c else if i == c then p else i] == n;
    }
  }

  function Swapped(n: Node?, a: Node, b: Node): Node? {
    if n == a then b else if n == b then a else n
  }

  lemma SwappedAt(s: seq<Node>, p: nat, c: nat, j: nat)
    requires p < c < |s| && Distinct(s)
    ensures At(s[p := s[c]][c := s[p]], j) == Swapped(At(s, j), s[p], s[c])
  {
  }

  // ---- Heap order, on keys by position ----

  ghost function Keys(s: seq<Node>): (ks: seq<Key>)
    reads s`key
    ensures |ks| == |s| && forall i :: 0 <= i < |s| ==> ks[i] == s[i].key
  {
    if s == [] then [] else Keys(s[..|s| - 1]) + [s[|s| - 1].key]
  }

  // Position i is not below its parent.
  ghost predicate PairOk(ks: seq<Key>, i: nat)
    requires 0 < i < |ks|
  {
    !Less(ks[i], ks[Up(i)])
  }

  ghost predicate Ordered(ks: seq<Key>) {
    forall i :: 0 < i < |ks| ==> PairOk(ks, i)
  }

  // The children of position i are not below i's own parent.
  ghost predicate Bridged(ks: seq<Key>, i: nat)
    requires i < |ks|
  {
    i > 0 ==> forall j :: 0 < j < |ks| && Up(j) == i ==> !Less(ks[j], ks[Up(i)])
  }

  // Ordered but for position i against its parent.
  ghost predicate OrderedAbove(ks: seq<Key>, i: nat)
    requires i < |ks|
  {
    (forall j :: 0 < j < |ks| && j != i ==> PairOk(ks, j)) && Bridged(ks, i)
  }

  // Ordered but for position i against its parent and its children.
  ghost predicate OrderedAround(ks: seq<Key>, i: nat)
    requires i < |ks|
  {
    (forall j :: 0 < j < |ks| && j != i && Up(j) != i ==> PairOk(ks, j)) && Bridged(ks, i)
  }

  function Exchanged(ks: seq<Key>, p: nat, c: nat): (r: seq<Key>)
    requires p < c < |ks|
    ensures |r| == |ks|
  {
    ks[p := ks[c]][c := ks[p]]
  }

  lemma SiftUp(ks: seq<Key>, i: nat)
    requires 0 < i < |ks| && OrderedAbove(ks, i) && Less(ks[i], ks[Up(i)])
    ensures OrderedAbove(Exchanged(ks, Up(i), i), Up(i))
  {
    var p := Up(i);
    var r := Exchanged(ks, p, i);
    forall j | 0 < j < |r| && j != p ensures PairOk(r, j) {
      assert j != i ==> PairOk(ks, j);
      if Up(j) == i { assert !Less(ks[j], ks[p]); }
    }
    assert p > 0 ==> PairOk(ks, p);
    forall j | p > 0 && 0 < j < |r| && Up(j) == p ensures !Less(r[j], r[Up(p)]) {
      assert j != i ==> PairOk(ks, j);
    }
  }

  lemma SiftDown(ks: seq<Key>, i: nat, m: nat)
    requires 0 < m < |ks| && Up(m) == i && OrderedAround(ks, i) && Less(ks[m], ks[i])
    requires forall j :: 0 < j < |ks| && Up(j) == i ==> !Less(ks[j], ks[m])
    ensures OrderedAround(Exchanged(ks, i, m), m)
  {
    var r := Exchanged(ks, i, m);
    forall j | 0 < j < |r| && j != m && Up(j) != m ensures PairOk(r, j) {
      assert j != i && Up(j) != i ==> PairOk(ks, j);
      if j == i { assert !Less(ks[m], ks[Up(i)]); }
    }
    forall j | 0 < j < |r| && Up(j) == m ensures !Less(r[j], r[Up(m)]) {
      assert PairOk(ks, j);
    }
  }

  // The root is least.
  lemma {:induction false} RootLeast(ks: seq<Key>, i: nat)
    requires Ordered(ks) && i < |ks|
    ensures !Less(ks[i], ks[0])
  {
    if i > 0 {
      assert PairOk(ks, i);
      RootLeast(ks, Up(i));
    }
  }

  // ---- Paths ----

  // n >> k
  function Shifted(n: nat, k: nat): (r: nat)
    ensures r <= n && (k > 0 && n > 0 ==> r < n)
  {
    if k == 0 then n else Shifted(n, k - 1) / 2
  }

  // The low k binary digits of n, the highest of them first.
  function Turns(n: nat, k: nat): nat {
    if k == 0 then 0 else Shifted(n, k - 1) % 2 + 2 * Turns(n, k - 1)
  }

  // The bit path to the node numbered target, counting from 1 level by level.
  method PathTo(target: nat) returns (path: nat, k: nat)
    requires target > 0
    ensures path == Turns(target, k) && Shifted(target, k) == 1
  {
    path, k := 0, 0;
    var n := target;
    while n >= 2
      invariant path == Turns(target, k) && n == Shifted(target, k) && n >= 1
    {
      path := path * 2 + n % 2;
      k, n := k + 1, n / 2;
    }
  }

  // A pointer to a link: the heap's root, or a node's left or right.
  datatype Slot = Root | LeftOf(node: Node) | RightOf(node: Node)

  // The link to position i.
  ghost predicate SlotTo(s: seq<Node>, slot: Slot, i: nat) {
    if i == 0 then slot.Root?
    else Up(i) < |s| && slot == if i == Left(Up(i)) then LeftOf(s[Up(i)]) else RightOf(s[Up(i)])
  }

  lemma RootSlot(s: seq<Node>)
    ensures SlotTo(s, Root, 0)
  {
  }

  // The links out of position i, counting nodes from 1.
  lemma StepDown(s: seq<Node>, i: nat, bit: nat)
    requires i < |s| && bit < 2
    ensures var j := 2 * (i + 1) + bit - 1;
      j > 0 && Up(j) == i && SlotTo(s, if bit == 1 then RightOf(s[i]) else LeftOf(s[i]), j)
  {
  }

  class Heap {
    var min: Node?
    var nelts: nat
    ghost var slots: seq<Node>
    ghost var nodes: set<Node>

    // The links spell out a complete tree over exactly the slots.
    ghost predicate Shape()
      reads this, slots`left, slots`right, slots`parent
    {
      nelts == |slots| && min == At(slots, 0) && nodes == NodesOf(slots) && Distinct(slots) && Linked(slots)
    }

    // heap_init
    constructor ()
      ensures Shape() && slots == []
    {
      min, nelts := null, 0;
      slots, nodes := [], {};
    }

    function Load(slot: Slot): Node?
      reads this, if slot.Root? then {} else {slot.node}
    {
      match slot
      case Root => min
      case LeftOf(n) => n.left
      case RightOf(n) => n.right
    }

    // Follows the bit path from the root; also the link one step before.
    method Walk(target: nat) returns (parent: Slot, child: Slot)
      requires Shape() && 1 <= target <= nelts + 1
      ensures SlotTo(slots, child, target - 1)
      ensures if target == 1 then parent == Root else SlotTo(slots, parent, Up(target - 1))
    {
      hide Distinct, Linked, SlotTo;
      var path, k := PathTo(target);
      assert SlotTo(slots, Root, 0) by { RootSlot(slots); }
      parent, child := Root, Root;
      ghost var m := 1;
      while k > 0
        invariant m == Shifted(target, k) && m >= 1 && path == Turns(target, k)
        invariant SlotTo(slots, child, m - 1)
        invariant if m == 1 then parent == Root else SlotTo(slots, parent, Up(m - 1))
      {
        parent := child;
        LoadIs(child, m - 1);
        StepDown(slots, m - 1, path % 2);
        var node := Load(child);
        if path % 2 == 1 {
          child := RightOf(node);
        } else {
          child := LeftOf(node);
        }
        m := Shifted(target, k - 1);
        path := path / 2;
        k := k - 1;
      }
    }

    lemma LoadIs(slot: Slot, i: nat)
      requires Shape() && SlotTo(slots, slot, i)
      ensures Load(slot) == At(slots, i)
    {
      if i > 0 {
        assert LinkedAt(slots, Up(i));
      }
    }

    // heap_node_swap: child moves to its parent's place.
    method NodeSwap(parent: Node, child: Node, ghost p: nat, ghost c: nat)
      requires Shape() && 0 < c < |slots| && p == Up(c) && slots[p] == parent && slots[c] == child
      modifies this`min, this`slots, nodes`left, nodes`right, nodes`parent
      ensures Shape() && slots == old(slots)[p := child][c := parent] && nodes == old(nodes) && nelts == old(nelts)
    {
      ghost var s := slots;
      Rewire(parent, child, p, c);
      slots := s[p := child][c := parent];
      SwapNodes(s, p, c);
      forall i | 0 <= i < |s| ensures LinkedAt(slots, i) {
        assert old(LinkedAt(s, i));
        SwappedAt(s, p, c, i);
        SwappedAt(s, p, c, Left(i));
        SwappedAt(s, p, c, Right(i));
        if i > 0 { SwappedAt(s, p, c, Up(i)); }
      }
      SwappedAt(s, p, c, 0);
    }

    // The pointer surgery: every link to one of the two nodes now goes to the other.
    method Rewire(parent: Node, child: Node, ghost p: nat, ghost c: nat)
      requires Shape() && 0 < c < |slots| && p == Up(c) && slots[p] == parent && slots[c] == child
      modifies this`min, nodes`left, nodes`right, nodes`parent
      ensures min == Swapped(old(min), parent, child)
      ensures forall n :: n in nodes ==> Moved(n, parent, child, old(n.left), old(n.right), old(n.parent),
        old(parent.left), old(parent.right), old(parent.parent), old(child.left), old(child.right), old(child.parent))
    {
      ghost var s := slots;
      assert LinkedAt(s, p) && LinkedAt(s, c);
      Around(s, p, c);
      label Before:
      var sibling := Exchange(parent, child);
      assert forall n :: n in nodes && n != parent && n != child ==>
        n.parent == old(n.parent) && n.left == old(n.left) && n.right == old(n.right);
      Adopt(parent, child, sibling);
      Relink(parent, child);
    }

    // Copying the two records and fixing what the child says of the parent.
    method Exchange(parent: Node, child: Node) returns (sibling: Node?)
      requires parent != child && (parent.left == child) != (parent.right == child) && child.parent == parent
      requires parent.left != parent && parent.right != parent && parent.parent != parent && parent.parent != child
      modifies parent`left, parent`right, parent`parent, child`left, child`right, child`parent
      ensures parent.left == old(child.left) && parent.right == old(child.right) && parent.parent == child
      ensures child.left == Swapped(old(parent.left), parent, child)
        && child.right == Swapped(old(parent.right), parent, child)
      ensures child.parent == old(parent.parent)
      ensures sibling == if old(parent.left) == child then old(parent.right) else old(parent.left)
    {
      var tl, tr, tp := parent.left, parent.right, parent.parent;
      parent.left, parent.right, parent.parent := child.left, child.right, child.parent;
      child.left, child.right, child.parent := tl, tr, tp;
      parent.parent := child;
      if child.left == child {
        child.left := parent;
        sibling := child.right;
      } else {
        child.right := parent;
        sibling := child.left;
      }
    }

    // The three nodes whose parent changed.
    method Adopt(parent: Node, child: Node, sibling: Node?)
      requires parent in nodes && child in nodes && parent != child
      requires sibling != null ==> sibling in nodes && sibling != parent && sibling != child
      requires parent.left != null ==> parent.left in nodes && parent.left != parent && parent.left != child
      requires parent.right != null ==> parent.right in nodes && parent.right != parent && parent.right != child
      requires forall n :: n in nodes && n != parent && n != child ==>
        (n.parent == parent <==> n == sibling) && (n.parent == child <==> n == parent.left || n == parent.right)
      modifies nodes`parent
      ensures forall n :: n in nodes ==>
        n.parent == if n == parent || n == child then old(n.parent) else Swapped(old(n.parent), parent, child)
    {
      if sibling != null {
        sibling.parent := child;
      }
      if parent.left != null {
        parent.left.parent := parent;
      }
      if parent.right != null {
        parent.right.parent := parent;
      }
    }

    // The one link from above.
    method Relink(parent: Node, child: Node)
      requires parent in nodes && child in nodes && parent != child
      requires child.parent == null <==> min == parent
      requires min != child
        && (child.parent != null ==> child.parent in nodes && child.parent != parent && child.parent != child)
      requires child.parent != null ==> child.parent.left == parent || child.parent.right == parent
      requires child.parent != null ==> child.parent.left != child.parent.right
      requires forall n ::
        n in nodes && n != parent && n != child && n != child.parent ==> n.left != parent && n.right != parent
      requires forall n :: n in nodes && n != parent && n != child ==> n.left != child && n.right != child
      modifies this`min, nodes`left, nodes`right
      ensures min == Swapped(old(min), parent, child)
      ensures forall n :: n in nodes ==>
        (n.left == if n == parent || n == child then old(n.left) else Swapped(old(n.left), parent, child))
        && (n.right == if n == parent || n == child then old(n.right) else Swapped(old(n.right), parent, child))
    {
      if child.parent == null {
        min := child;
      } else if child.parent.left == parent {
        child.parent.left := child;
      } else {
        child.parent.right := child;
      }
    }

    // Sets a link.
    method Store(slot: Slot, n: Node?)
      modifies this`min, (if slot.Root? then {} else {slot.node})`left, (if slot.Root? then {} else {slot.node})`right
      ensures slot.Root? ==> min == n
      ensures !slot.Root? ==> min == old(min)
      ensures slot.LeftOf? ==> slot.node.left == n && slot.node.right == old(slot.node.right)
      ensures slot.RightOf? ==> slot.node.right == n && slot.node.left == old(slot.node.left)
    {
      match slot
      case Root => min := n;
      case LeftOf(o) => o.left := n;
      case RightOf(o) => o.right := n;
    }

    ghost predicate Valid()
      reads this, slots`left, slots`right, slots`parent, slots`key
    {
      Shape() && Ordered(Keys(slots))
    }

    lemma InSlots()
      requires Valid()
      ensures forall n :: n in nodes <==> n in slots
    {
    }

    // heap_min gives a least node.
    lemma MinLeast()
      requires Valid()
      ensures min == null <==> nodes == {}
      ensures min != null ==> min in nodes && forall n :: n in nodes ==> !Less(n.key, min.key)
    {
      if slots != [] {
        assert slots[0] in slots;
        forall n | n in nodes ensures !Less(n.key, min.key) {
          var i :| 0 <= i < |slots| && slots[i] == n;
          RootLeast(Keys(slots), i);
        }
      }
    }

    // Walks a node up while it is below its parent.
    method Rise(node: Node, ghost at: nat)
      requires Shape() && at < |slots| && slots[at] == node && OrderedAbove(Keys(slots), at)
      modifies this`min, this`slots, nodes`left, nodes`right, nodes`parent
      ensures Valid() && nodes == old(nodes) && nelts == old(nelts)
    {
      hide Distinct, OrderedAbove, Linked;
      ghost var i: nat := at;
      ParentAt(i);
      while node.parent != null && Less(node.key, node.parent.key)
        invariant Shape() && i < |slots| && slots[i] == node && OrderedAbove(Keys(slots), i) && nodes == old(nodes)
        invariant nelts == old(nelts) && node.parent == if i == 0 then null else slots[Up(i)]
        decreases i
      {
        RiseOnce(node.parent, node, i);
        i := Up(i);
        ParentAt(i);
      }
      RiseDone(Keys(slots), i);
    }

    method RiseOnce(parent: Node, node: Node, ghost i: nat)
      requires Shape() && 0 < i < |slots| && slots[i] == node && slots[Up(i)] == parent
      requires OrderedAbove(Keys(slots), i) && Less(node.key, parent.key)
      modifies this`min, this`slots, nodes`left, nodes`right, nodes`parent
      ensures Shape() && nodes == old(nodes) && nelts == old(nelts)
      ensures slots[Up(i)] == node && OrderedAbove(Keys(slots), Up(i))
    {
      hide Distinct, OrderedAbove, Linked;
      ghost var s, ks := slots, Keys(slots);
      SiftUp(ks, i);
      NodeSwap(parent, node, Up(i), i);
      SwapKeys(s, Up(i), i);
      assert Keys(s) == ks;
    }

    lemma ParentAt(i: nat)
      requires Shape() && i < |slots|
      ensures slots[i].parent == (if i == 0 then null else slots[Up(i)])
      ensures slots[i].left == At(slots, Left(i)) && slots[i].right == At(slots, Right(i))
    {
      assert LinkedAt(slots, i);
    }

    // Walks a node down while it is above a child.
    method Sink(node: Node, ghost at: nat) returns (ghost i: nat)
      requires Shape() && at < |slots| && slots[at] == node && OrderedAround(Keys(slots), at)
      modifies this`min, this`slots, nodes`left, nodes`right, nodes`parent
      ensures Shape() && nodes == old(nodes) && nelts == old(nelts)
      ensures i < |slots| && slots[i] == node && OrderedAbove(Keys(slots), i)
    {
      hide Distinct, OrderedAbove, OrderedAround, Linked;
      i := at;
      while true
        invariant Shape() && i < |slots| && slots[i] == node && OrderedAround(Keys(slots), i) && nodes == old(nodes)
        invariant nelts == old(nelts)
        decreases |slots| - i
      {
        ParentAt(i);
        var smallest := node;
        ghost var m := i;
        if node.left != null && Less(node.left.key, smallest.key) {
          smallest, m := node.left, Left(i);
        }
        if node.right != null && Less(node.right.key, smallest.key) {
          smallest, m := node.right, Right(i);
        }
        if smallest == node {
          SameSlot(slots, i, m);
          SinkDone(Keys(slots), i);
          break;
        }
        SinkOnce(node, smallest, i, m);
        i := m;
      }
    }

    method SinkOnce(node: Node, smallest: Node, ghost i: nat, ghost m: nat)
      requires Shape() && i < m < |slots| && slots[i] == node && slots[m] == smallest && (m == Left(i) || m == Right(i))
      requires OrderedAround(Keys(slots), i) && Less(smallest.key, node.key)
      requires Left(i) < |slots| ==> !Less(slots[Left(i)].key, smallest.key)
      requires Right(i) < |slots| ==> !Less(slots[Right(i)].key, smallest.key)
      modifies this`min, this`slots, nodes`left, nodes`right, nodes`parent
      ensures Shape() && nodes == old(nodes) && nelts == old(nelts)
      ensures m < |slots| && slots[m] == node && OrderedAround(Keys(slots), m)
    {
      hide Distinct, OrderedAround, Linked;
      ghost var s, ks := slots, Keys(slots);
      Smallest(ks, i, m);
      NodeSwap(node, smallest, i, m);
      SwapKeys(s, i, m);
      assert Keys(s) == ks;
    }

    // heap_insert
    method Insert(newnode: Node)
      requires Valid() && newnode !in nodes
      modifies this`min, this`nelts, this`slots, this`nodes, nodes`left, nodes`right, nodes`parent, newnode`left,
        newnode`right, newnode`parent
      ensures Valid() && nodes == old(nodes) + {newnode} && nelts == old(nelts) + 1
    {
      ghost var n := |slots|;
      Append(newnode);
      AppendedKeys(old(Keys(slots)), Keys(slots));
      Rise(newnode, n);
    }

    // The new node goes to the first free place of the bottom row.
    method Append(newnode: Node)
      requires Shape() && newnode !in nodes
      modifies this`min, this`nelts, this`slots, this`nodes, nodes`left, nodes`right, newnode`left, newnode`right,
        newnode`parent
      ensures Shape() && slots == old(slots) + [newnode] && nodes == old(nodes) + {newnode}
    {
      hide Distinct;
      ghost var s := slots;
      DistinctAppend(s, newnode);
      Attach(newnode);
      nelts := nelts + 1;
      slots, nodes := s + [newnode], nodes + {newnode};
      forall i | 0 <= i < |slots| ensures LinkedAt(slots, i) {
        if i < |s| {
          OneSlot(s, i, |s|);
          assert old(LinkedAt(s, i));
        }
      }
    }

    method Attach(newnode: Node)
      requires Shape() && newnode !in nodes
      modifies this`min, nodes`left, nodes`right, newnode`left, newnode`right, newnode`parent
      ensures newnode.left == newnode.right == null
      ensures newnode.parent == if slots == [] then null else slots[Up(|slots|)]
      ensures min == if slots == [] then newnode else old(min)
      ensures forall i :: 0 <= i < |slots| ==>
        slots[i].left == (if Left(i) == |slots| then newnode else old(slots[i].left))
        && slots[i].right == (if Right(i) == |slots| then newnode else old(slots[i].right))
    {
      hide Linked;
      newnode.left, newnode.right, newnode.parent := null, null, null;
      var parent, child := Walk(nelts + 1);
      LoadParent(parent, |slots|);
      newnode.parent := Load(parent);
      forall i: nat | i < |slots| ensures slots != [] && i != Up(|slots|) ==> slots[i] != slots[Up(|slots|)] {
        OneSlot(slots, i, |slots|);
      }
      hide Distinct;
      Store(child, newnode);
    }

    // heap_remove: the last node takes the place of the one removed.
    method Remove(node: Node)
      requires Valid() && (nelts == 0 || node in nodes)
      modifies this`min, this`nelts, this`slots, this`nodes, nodes`left, nodes`right, nodes`parent
      ensures Valid() && nodes == old(nodes) - {node} && (node in old(nodes) ==> nelts == old(nelts) - 1)
    {
      hide Distinct, Linked;
      if nelts == 0 {
        return;
      }
      ghost var ks := Keys(slots);
      var child := Detach();
      if child == node {
        PrefixOrdered(ks, Keys(slots));
        return;
      }
      ghost var r := IndexOf(slots, node);
      Replace(node, child, r);
      ReplacedKeys(ks, Keys(slots), r);
      r := Sink(child, r);
      Rise(child, r);
    }

    // Unlinks the last node of the bottom row.
    method Detach() returns (child: Node)
      requires Shape() && nelts > 0
      modifies this`min, this`nelts, this`slots, this`nodes, nodes`left, nodes`right
      ensures Shape() && slots == old(slots)[..old(nelts) - 1] && child == old(slots)[old(nelts) - 1]
      ensures nodes == old(nodes) - {child} && child !in nodes
    {
      hide Distinct;
      ghost var s := slots;
      ghost var n := |s| - 1;
      child := Unlink();
      nelts := nelts - 1;
      slots, nodes := s[..n], nodes - {child};
      DistinctPrefix(s);
      forall i | 0 <= i < n ensures LinkedAt(slots, i) {
        assert old(LinkedAt(s, i));
      }
    }

    // Clears the link to the last node.
    method Unlink() returns (child: Node)
      requires Shape() && nelts > 0
      modifies this`min, nodes`left, nodes`right
      ensures var n := |slots| - 1; child == slots[n] && min == if n == 0 then null else old(min)
      ensures forall i :: 0 <= i < |slots| ==>
        slots[i].left == (if Left(i) == |slots| - 1 then null else old(slots[i].left))
        && slots[i].right == (if Right(i) == |slots| - 1 then null else old(slots[i].right))
    {
      hide Linked;
      ghost var n := |slots| - 1;
      var before, max := Walk(nelts);
      LoadIs(max, n);
      child := Load(max);
      forall i: nat | i < |slots| ensures n > 0 && i != Up(n) ==>
        slots[i] != slots[Up(n)] && Left(i) != n && Right(i) != n {
        if n > 0 && i != Up(n) { DifferentSlots(slots, i, Up(n)); }
      }
      hide Distinct;
      Store(max, null);
    }

    // child takes over the links of node, which leaves the heap.
    method Replace(node: Node, child: Node, ghost r: nat)
      requires Shape() && r < |slots| && slots[r] == node && child !in nodes
      modifies this`min, this`slots, this`nodes, nodes`left, nodes`right, nodes`parent, child`left, child`right,
        child`parent
      ensures Shape() && slots == old(slots)[r := child] && nodes == old(nodes) - {node} + {child}
    {
      ghost var s := slots;
      TakeOver(node, child, r);
      slots, nodes := s[r := child], nodes - {node} + {child};
      DistinctReplace(s, r, child);
      forall i | 0 <= i < |slots| ensures LinkedAt(slots, i) {
        assert old(LinkedAt(s, i));
      }
    }

    method TakeOver(node: Node, child: Node, ghost r: nat)
      requires Shape() && r < |slots| && slots[r] == node && child !in nodes
      modifies this`min, nodes`left, nodes`right, nodes`parent, child`left, child`right, child`parent
      ensures child.left == old(node.left) && child.right == old(node.right) && child.parent == old(node.parent)
      ensures min == if old(min) == node then child else old(min)
      ensures forall n :: n in nodes && n != node ==>
        n.left == (if old(n.left) == node then child else old(n.left))
        && n.right == (if old(n.right) == node then child else old(n.right))
        && n.parent == (if old(n.parent) == node then child else old(n.parent))
    {
      Around1(slots, r);
      hide Linked, Distinct;
      child.left, child.right, child.parent := node.left, node.right, node.parent;
      if child.left != null {
        child.left.parent := child;
      }
      if child.right != null {
        child.right.parent := child;
      }
      if node.parent == null {
        min := child;
      } else if node.parent.left == node {
        node.parent.left := child;
      } else {
        node.parent.right := child;
      }
    }

    lemma LoadParent(parent: Slot, n: nat)
      requires Shape() && n == |slots| && if n == 0 then parent == Root else SlotTo(slots, parent, Up(n))
      ensures Load(parent) == if n == 0 then null else slots[Up(n)]
    {
      if n > 0 { LoadIs(parent, Up(n)); }
    }
  }

  lemma DistinctAppend(s: seq<Node>, n: Node)
    requires Distinct(s) && n !in s
    ensures Distinct(s + [n]) && NodesOf(s + [n]) == NodesOf(s) + {n}
  {
  }

  // Only the parent position's link is to position n.
  lemma OneSlot(s: seq<Node>, i: nat, n: nat)
    requires Distinct(s) && i < |s| && n == |s|
    ensures n > 0 && i != Up(n) ==> Left(i) != n && Right(i) != n && s[i] != s[Up(n)]
  {
  }

  lemma DistinctPrefix(s: seq<Node>)
    requires Distinct(s) && s != []
    ensures var n := |s| - 1; Distinct(s[..n]) && NodesOf(s[..n]) == NodesOf(s) - {s[n]} && s[n] !in s[..n]
  {
    var n := |s| - 1;
    assert forall m :: m in s ==> m in s[..n] || m == s[n];
  }

  lemma DistinctReplace(s: seq<Node>, r: nat, child: Node)
    requires Distinct(s) && r < |s| && child !in s
    ensures Distinct(s[r := child]) && NodesOf(s[r := child]) == NodesOf(s) - {s[r]} + {child}
  {
    var t := s[r := child];
    forall n | n in s && n != s[r] ensures n in t {
      var i :| 0 <= i < |s| && s[i] == n;
      assert t[i] == n;
    }
    assert t[r] == child;
  }

  ghost function IndexOf(s: seq<Node>, n: Node): (i: nat)
    requires n in s
    ensures i < |s| && s[i] == n
  {
    var i :| 0 <= i < |s| && s[i] == n; i
  }

  // Who points at a node.
  ghost predicate PointsAt(n: Node, to: Node)
    reads n, to
  {
    (n.left == to || n.right == to <==> n == to.parent)
    && (n.left == to ==> n.right != to)
    && (n.parent == to <==> n == to.left || n == to.right)
  }

  lemma Around1(s: seq<Node>, r: nat)
    requires Distinct(s) && Linked(s) && r < |s|
    ensures forall n :: n in s && n != s[r] ==> PointsAt(n, s[r])
    ensures At(s, 0) == s[r] <==> s[r].parent == null
    ensures s[r].parent != null ==> s[r].parent in s && s[r].parent != s[r]
    ensures s[r].left != null ==> s[r].left in s && s[r].left != s[r]
    ensures s[r].right != null ==> s[r].right in s && s[r].right != s[r]
  {
    assert LinkedAt(s, r);
    forall n | n in s && n != s[r] ensures PointsAt(n, s[r]) {
      var i :| 0 <= i < |s| && s[i] == n;
      assert LinkedAt(s, i);
      assert r > 0 ==> LinkedAt(s, Up(r));
    }
  }

  lemma PrefixOrdered(ks: seq<Key>, after: seq<Key>)
    requires Ordered(ks) && ks != [] && after == ks[..|ks| - 1]
    ensures Ordered(after)
  {
    forall i | 0 < i < |after| ensures PairOk(after, i) {
      assert PairOk(ks, i);
    }
  }

  // The last key in another's place.
  lemma ReplacedKeys(ks: seq<Key>, after: seq<Key>, r: nat)
    requires Ordered(ks) && r < |ks| - 1 && after == ks[..|ks| - 1][r := ks[|ks| - 1]]
    ensures OrderedAround(after, r)
  {
    forall j | 0 < j < |after| && j != r && Up(j) != r ensures PairOk(after, j) {
      assert PairOk(ks, j);
    }
    forall j | r > 0 && 0 < j < |after| && Up(j) == r ensures !Less(after[j], after[Up(r)]) {
      assert PairOk(ks, j) && PairOk(ks, r);
    }
  }

  lemma SwapKeys(s: seq<Node>, p: nat, c: nat)
    requires p < c < |s|
    ensures Keys(s[p := s[c]][c := s[p]]) == Exchanged(Keys(s), p, c)
  {
  }

  lemma RiseDone(ks: seq<Key>, i: nat)
    requires i < |ks| && OrderedAbove(ks, i) && (i > 0 ==> !Less(ks[i], ks[Up(i)]))
    ensures Ordered(ks)
  {
  }

  lemma SinkDone(ks: seq<Key>, i: nat)
    requires i < |ks| && OrderedAround(ks, i)
    requires Left(i) < |ks| ==> !Less(ks[Left(i)], ks[i])
    requires Right(i) < |ks| ==> !Less(ks[Right(i)], ks[i])
    ensures OrderedAbove(ks, i)
  {
  }

  // The smallest of a node and its children, when it is a child.
  lemma Smallest(ks: seq<Key>, i: nat, m: nat)
    requires i < m < |ks| && (m == Left(i) || m == Right(i)) && OrderedAround(ks, i) && Less(ks[m], ks[i])
    requires Left(i) < |ks| ==> !Less(ks[Left(i)], ks[m])
    requires Right(i) < |ks| ==> !Less(ks[Right(i)], ks[m])
    ensures Up(m) == i && OrderedAround(Exchanged(ks, i, m), m)
  {
    hide OrderedAround;
    SiftDown(ks, i, m);
  }

  lemma SameSlot(s: seq<Node>, i: nat, m: nat)
    requires Distinct(s) && i < |s| && m < |s| && s[m] == s[i]
    ensures m == i
  {
  }

  lemma AppendedKeys(ks: seq<Key>, after: seq<Key>)
    requires Ordered(ks) && |after| == |ks| + 1 && after[..|ks|] == ks
    ensures OrderedAbove(after, |ks|)
  {
    forall j | 0 < j < |ks| ensures PairOk(after, j) {
      assert PairOk(ks, j);
      assert after[j] == ks[j] && after[Up(j)] == ks[Up(j)];
    }
  }

  // A node's fields after a swap, given its own and both nodes' fields before.
  ghost predicate Moved(n: Node, parent: Node, child: Node, l: Node?, r: Node?, u: Node?,
                        pl: Node?, pr: Node?, pu: Node?, cl: Node?, cr: Node?, cu: Node?)
    reads n
  {
    if n == parent then n.left == cl && n.right == cr && n.parent == child
    else if n == child then
      n.left == Swapped(pl, parent, child) && n.right == Swapped(pr, parent, child) && n.parent == pu
    else
      n.left == Swapped(l, parent, child) && n.right == Swapped(r, parent, child)
        && n.parent == Swapped(u, parent, child)
  }

  // Who points at a node and at its child.
  ghost predicate PointsRight(n: Node, parent: Node, child: Node)
    reads n, parent, child
  {
    n.left != child && n.right != child
    && (n.left == parent || n.right == parent <==> n == parent.parent)
    && (n.parent == parent <==> n == parent.left || n == parent.right)
    && (n.parent == child <==> n == child.left || n == child.right)
  }

  lemma Around(s: seq<Node>, p: nat, c: nat)
    requires Distinct(s) && Linked(s) && 0 < c < |s| && p == Up(c)
    ensures forall n :: n in s && n != s[p] && n != s[c] ==> PointsRight(n, s[p], s[c])
    ensures var u := s[p].parent; u != null ==> u.left != u.right
  {
    hide Linked, Distinct, PointsRight;
    forall n | n in s && n != s[p] && n != s[c] ensures PointsRight(n, s[p], s[c]) {
      var i :| 0 <= i < |s| && s[i] == n;
      AroundNode(s, p, c, i);
    }
    assert LinkedAt(s, p) by { LinkedHere(s, p); }
    if p > 0 {
      var u := Up(p);
      LinkedHere(s, u);
      DifferentSlots(s, Left(u), Right(u));
    }
  }

  lemma LinkedHere(s: seq<Node>, i: nat)
    requires Linked(s) && i < |s|
    ensures LinkedAt(s, i)
  {
  }

  lemma DifferentSlots(s: seq<Node>, i: nat, j: nat)
    requires Distinct(s) && i < |s| && i != j
    ensures At(s, i) != At(s, j)
  {
  }

  lemma AroundNode(s: seq<Node>, p: nat, c: nat, i: nat)
    requires Distinct(s) && Linked(s) && 0 < c < |s| && p == Up(c) && i < |s| && i != p && i != c
    ensures PointsRight(s[i], s[p], s[c])
  {
    assert LinkedAt(s, p) && LinkedAt(s, c) && LinkedAt(s, i);
    assert p > 0 ==> LinkedAt(s, Up(p));
  }
}
