// The memtable's skip list (db/skiplist.h) and the memtable on top of it (db/memtable.cc).

module SkipLists {
  import opened DbFormat

  const MAX_HEIGHT: nat := 12

  class Node {
    const entry: Entry
    var next: seq<Node?>

    constructor (e: Entry, height: nat)
      ensures entry == e && |next| == height
      ensures forall i :: 0 <= i < height ==> next[i] == null
    {
      entry, next := e, seq(height, i => null);
    }

    function Key(): InternalKey {
      entry.Key()
    }
  }

  // The first entry of E at or after `key`.
  ghost predicate IsFirst(E: set<Entry>, key: InternalKey, r: Option<Entry>) {
    && (r.Some? ==> r.value in E && !Less(r.value.Key(), key))
    && forall e :: e in E && !Less(e.Key(), key) ==> r.Some? && (e == r.value || Less(r.value.Key(), e.Key()))
  }

  // The last entry of E before `key`.
  ghost predicate IsLastBefore(E: set<Entry>, key: InternalKey, r: Option<Entry>) {
    && (r.Some? ==> r.value in E && Less(r.value.Key(), key))
    && forall e :: e in E && Less(e.Key(), key) ==> r.Some? && (e == r.value || Less(e.Key(), r.value.Key()))
  }

  // The entry of E that follows `at`; None is the position before every entry.
  ghost predicate IsSuccessor(E: set<Entry>, at: Option<Entry>, r: Option<Entry>) {
    && (r.Some? ==> r.value in E && Past(at, r.value))
    && forall e :: e in E && Past(at, e) ==> r.Some? && (e == r.value || Less(r.value.Key(), e.Key()))
  }

  ghost predicate Past(at: Option<Entry>, e: Entry) {
    at.Some? ==> Less(at.value.Key(), e.Key())
  }

  ghost predicate IsMaximum(E: set<Entry>, r: Option<Entry>) {
    && (r.Some? ==> r.value in E)
    && forall e :: e in E ==> r.Some? && (e == r.value || Less(e.Key(), r.value.Key()))
  }

  ghost function Entries(S: set<Node>): set<Entry> {
    set n | n in S :: n.entry
  }

  ghost predicate Apart(S: set<Node>) {
    forall m, n :: m in S && n in S && m.Key() == n.Key() ==> m == n
  }

  class SkipList {
    const head: Node
    var maxHeight: nat
    // The nodes linked at each level; the lowest level holds them all.
    ghost var levels: seq<set<Node>>
    ghost var all: set<Node>

    ghost predicate Behind(x: Node, m: Node) {
      x == head || Less(x.Key(), m.Key())
    }

    // y is the first node of S behind x.
    ghost predicate IsNext(x: Node, y: Node?, S: set<Node>) {
      && (y != null ==> y in S && Behind(x, y))
      && forall m :: m in S && Behind(x, m) ==> y != null && (m == y || Less(y.Key(), m.Key()))
    }

    // x is where a search for `key` leaves a level.
    ghost predicate IsSpot(x: Node, key: InternalKey, S: set<Node>) {
      && (x != head ==> x in S && Less(x.Key(), key))
      && forall m :: m in S && Less(m.Key(), key) ==> x != head && (m == x || Less(m.Key(), x.Key()))
    }

    ghost predicate Shape()
      reads this
    {
      && |levels| == MAX_HEIGHT && 1 <= maxHeight <= MAX_HEIGHT
      && all == levels[0] + {head} && head !in levels[0]
      && Apart(levels[0])
      && (forall i, j :: 0 <= i <= j < MAX_HEIGHT ==> levels[j] <= levels[i])
      && (forall i :: maxHeight <= i < MAX_HEIGHT ==> levels[i] == {})
    }

    ghost predicate Linked(i: nat, n: Node)
      requires Shape() && i < MAX_HEIGHT
      reads this, n
    {
      i < |n.next| && IsNext(n, n.next[i], levels[i])
    }

    ghost predicate Ok()
      reads this, all
    {
      && Shape()
      && (forall i, n :: 0 <= i < MAX_HEIGHT && n in all && (n == head || n in levels[i]) ==> Linked(i, n))
    }

    ghost function Contents(): set<Entry>
      requires |levels| > 0
      reads this
    {
      Entries(levels[0])
    }

    constructor ()
      ensures Ok() && fresh(all) && Contents() == {}
    {
      head := new Node(Entry(0.0, 0, Deletion, []), MAX_HEIGHT);
      maxHeight := 1;
      levels := seq(MAX_HEIGHT, i => {});
      new;
      all := {head};
    }

    ghost function Rest(x: Node): set<Node>
      requires |levels| > 0
      reads this
    {
      set m | m in levels[0] && Behind(x, m)
    }

    lemma RestShrinks(x: Node, y: Node)
      requires Shape() && y in levels[0] && Behind(x, y)
      ensures |Rest(y)| < |Rest(x)|
    {
      assert y != head;
      assert Rest(y) <= Rest(x);
      assert y in Rest(x) && y !in Rest(y);
      assert Rest(y) < Rest(x);
      SmallerSet(Rest(y), Rest(x));
    }

    // Where the search leaves a level it may enter the one below.
    method FindGreaterOrEqual(key: InternalKey, prev: array?<Node?>) returns (r: Node?)
      requires Ok() && (prev != null ==> prev.Length == MAX_HEIGHT)
      modifies if prev == null then {} else {prev}
      ensures r != null ==> r in levels[0] && !Less(r.Key(), key)
      ensures forall m :: m in levels[0] && !Less(m.Key(), key) ==> r != null && (m == r || Less(r.Key(), m.Key()))
      ensures prev != null ==> (forall i :: 0 <= i < maxHeight ==> prev[i] != null && IsSpot(prev[i], key, levels[i]))
    {
      var x := head;
      var level: nat := maxHeight - 1;
      while true
        invariant level < maxHeight
        invariant x == head || (x in levels[level] && Less(x.Key(), key))
        invariant prev != null ==>
          (forall i :: level < i < maxHeight ==> prev[i] != null && IsSpot(prev[i], key, levels[i]))
        decreases level, |Rest(x)|
      {
        assert Linked(level, x);
        var next := x.next[level];
        if next != null && Less(next.Key(), key) {
          RestShrinks(x, next);
          x := next;
        } else {
          SpotHere(x, next, key, levels[level]);
          if prev != null {
            prev[level] := x;
          }
          if level == 0 {
            return next;
          } else {
            level := level - 1;
          }
        }
      }
    }

    lemma SpotHere(x: Node, next: Node?, key: InternalKey, S: set<Node>)
      requires IsNext(x, next, S) && head !in S && Apart(S)
      requires x == head || (x in S && Less(x.Key(), key))
      requires next == null || !Less(next.Key(), key)
      ensures IsSpot(x, key, S)
      ensures forall m :: m in S && !Less(m.Key(), key) ==> next != null && (m == next || Less(next.Key(), m.Key()))
    {
    }

    method FindLessThan(key: InternalKey) returns (x: Node)
      requires Ok()
      ensures IsSpot(x, key, levels[0])
    {
      x := head;
      var level: nat := maxHeight - 1;
      while true
        invariant level < maxHeight
        invariant x == head || (x in levels[level] && Less(x.Key(), key))
        decreases level, |Rest(x)|
      {
        assert Linked(level, x);
        var next := x.next[level];
        if next == null || !Less(next.Key(), key) {
          SpotHere(x, next, key, levels[level]);
          if level == 0 {
            return x;
          } else {
            level := level - 1;
          }
        } else {
          RestShrinks(x, next);
          x := next;
        }
      }
    }

    method FindLast() returns (x: Node)
      requires Ok()
      ensures x == head ==> levels[0] == {}
      ensures x != head ==> x in levels[0]
      ensures forall m :: m in levels[0] ==> m == x || Less(m.Key(), x.Key())
    {
      x := head;
      var level: nat := maxHeight - 1;
      while true
        invariant level < maxHeight
        invariant x == head || x in levels[level]
        decreases level, |Rest(x)|
      {
        assert Linked(level, x);
        var next := x.next[level];
        if next == null {
          if level == 0 {
            return x;
          } else {
            level := level - 1;
          }
        } else {
          RestShrinks(x, next);
          x := next;
        }
      }
    }

    method Contains(key: InternalKey) returns (found: bool)
      requires Ok()
      ensures found <==> exists e :: e in Contents() && e.Key() == key
    {
      var x := FindGreaterOrEqual(key, null);
      if x != null && x.Key() == key {
        assert x.entry in Contents();
        found := true;
      } else {
        found := false;
        forall e | e in Contents()
          ensures e.Key() != key
        {
          var m :| m in levels[0] && m.entry == e;
        }
      }
    }

    // A key put where its search left the level.
    lemma Between(x: Node, prev: Node, y: Node?, S: set<Node>)
      requires IsNext(prev, y, S) && IsSpot(prev, x.Key(), S) && head !in S && x != head
      requires forall m :: m in S ==> m.Key() != x.Key()
      ensures IsNext(x, y, S + {x}) && IsNext(prev, x, S + {x})
    {
    }

    lemma Elsewhere(x: Node, prev: Node, n: Node, z: Node?, S: set<Node>)
      requires IsNext(n, z, S) && IsSpot(prev, x.Key(), S) && head !in S && x != head
      requires n != prev && (n == head || n in S) && Apart(S)
      requires forall m :: m in S ==> m.Key() != x.Key()
      ensures IsNext(n, z, S + {x})
    {
    }

    lemma SpotInside(x: Node, key: InternalKey, S: set<Node>)
      requires IsSpot(x, key, S)
      ensures x == head || x in S
    {
    }

    lemma ApartBelow(S: set<Node>, T: set<Node>)
      requires Apart(T) && S <= T
      ensures Apart(S)
    {
    }

    lemma StillShape(x: Node, i: nat, before: seq<set<Node>>)
      requires |before| == MAX_HEIGHT && i < maxHeight <= MAX_HEIGHT && x != head && x !in before[i]
      requires levels == before[i := before[i] + {x}] && all == levels[0] + {head} && head !in before[0]
      requires 1 <= maxHeight <= MAX_HEIGHT && Apart(before[0])
      requires forall j, k :: 0 <= j <= k < MAX_HEIGHT ==> before[k] <= before[j]
      requires forall j :: maxHeight <= j < MAX_HEIGHT ==> before[j] == {}
      requires if i == 0 then (forall m :: m in before[0] ==> m.Key() != x.Key()) else x in before[i - 1]
      ensures Shape()
    {
      forall j, k | 0 <= j <= k < MAX_HEIGHT
        ensures levels[k] <= levels[j]
      {
        assert before[k] <= before[j];
        if k == i && j < i {
          assert before[i - 1] <= before[j];
        }
      }
    }

    // One turn of Insert's loop: x takes over prev's link at this level, then prev points to
    // it.  The list is in order before, between and after the two writes.
    method Publish(x: Node, i: nat, prev: Node)
      requires Ok() && i < maxHeight && i < |x.next| && x != head && x !in levels[i]
      requires forall m :: m in levels[0] && m != x ==> m.Key() != x.Key()
      requires if i == 0 then x !in levels[0] else x in levels[i - 1]
      requires IsSpot(prev, x.Key(), levels[i])
      modifies this`levels, this`all, x`next, prev`next
      ensures Ok() && levels == old(levels)[i := old(levels[i]) + {x}]
      ensures all == old(all) + {x} && |x.next| == old(|x.next|)
    {
      hide IsNext, IsSpot, Apart;
      SpotInside(prev, x.Key(), levels[i]);
      ApartBelow(levels[i], levels[0]);
      assert Linked(i, prev);
      assert prev in all;
      ghost var S := levels[i];
      x.next := x.next[i := prev.next[i]];
      assert Ok() by {
        forall j, n | 0 <= j < MAX_HEIGHT && n in all && (n == head || n in levels[j])
          ensures Linked(j, n)
        {
          assert old(Linked(j, n));
          assert n == x ==> j != i;
        }
      }
      label Midway:
      prev.next := prev.next[i := x];
      levels := levels[i := S + {x}];
      all := all + {x};
      StillShape(x, i, old(levels));
      forall j, n | 0 <= j < MAX_HEIGHT && n in all && (n == head || n in levels[j])
        ensures Linked(j, n)
      {
        if j == i {
          if n == x || n == prev {
            Between(x, prev, x.next[i], S);
          } else {
            assert old@Midway(Linked(j, n));
            Elsewhere(x, prev, n, n.next[j], S);
          }
        } else {
          assert old@Midway(Linked(j, n));
        }
      }
    }

    // A taller list has empty levels on top, so nothing changes for a reader.
    method Raise(height: nat)
      requires Ok() && maxHeight <= height <= MAX_HEIGHT
      modifies this`maxHeight
      ensures Ok() && maxHeight == height
    {
      hide IsNext, Apart;
      maxHeight := height;
      forall j, n | 0 <= j < MAX_HEIGHT && n in all && (n == head || n in levels[j])
        ensures Linked(j, n)
      {
        assert old(Linked(j, n));
      }
    }

    // Insert's bottom-up loop: a node is linked at a level once it is at every lower one.
    method LinkIn(x: Node, height: nat, prev: array<Node?>)
      requires Ok() && 1 <= height <= maxHeight && |x.next| == height && x !in all
      requires forall m :: m in levels[0] ==> m.Key() != x.Key()
      requires prev.Length == MAX_HEIGHT
      requires forall j :: 0 <= j < height ==> prev[j] != null && IsSpot(prev[j], x.Key(), levels[j])
      modifies this`levels, this`all, all, x
      ensures Ok() && all == old(all) + {x} && levels[0] == old(levels[0]) + {x}
      ensures forall j :: 0 <= j < MAX_HEIGHT ==> levels[j] == old(levels)[j] + if j < height then {x} else {}
    {
      hide IsNext, IsSpot, Apart;
      ghost var before := levels;
      var i: nat := 0;
      while i < height
        invariant 0 <= i <= height && Ok() && |x.next| == height
        invariant all == old(all) + if i == 0 then {} else {x}
        invariant levels[0] == before[0] + if i == 0 then {} else {x}
        invariant forall j :: i <= j < MAX_HEIGHT ==> levels[j] == before[j]
        invariant forall j :: 0 <= j < i ==> levels[j] == before[j] + {x}
        invariant i > 0 ==> x in levels[i - 1]
      {
        SpotInside(prev[i], x.Key(), levels[i]);
        assert levels[i] <= levels[0] && before[i] <= before[0];
        Publish(x, i, prev[i]);
        i := i + 1;
      }
    }

    // SkipList::Insert; the height comes from RandomHeight.
    method Insert(e: Entry, height: nat)
      requires Ok() && 1 <= height <= MAX_HEIGHT
      requires forall o :: o in Contents() ==> o.Key() != e.Key()
      modifies this`maxHeight, this`levels, this`all, all
      ensures Ok() && fresh(all - old(all)) && old(all) <= all
      ensures Contents() == old(Contents()) + {e}
      ensures maxHeight == if old(maxHeight) < height then height else old(maxHeight)
      ensures forall j :: 0 <= j < MAX_HEIGHT ==>
        Entries(levels[j]) == Entries(old(levels)[j]) + if j < height then {e} else {}
    {
      hide IsNext, IsSpot, Apart;
      var prev := new Node?[MAX_HEIGHT](i => null);
      var y := FindGreaterOrEqual(e.Key(), prev);
      if height > maxHeight {
        var i: nat := maxHeight;
        while i < height
          modifies prev
          invariant maxHeight <= i <= height
          invariant forall j :: 0 <= j < i ==> prev[j] != null && IsSpot(prev[j], e.Key(), levels[j])
        {
          EmptySpot(e.Key());
          prev[i] := head;
          i := i + 1;
        }
        Raise(height);
      }
      var x := new Node(e, height);
      assert forall m :: m in levels[0] ==> m.entry in Contents();
      LinkIn(x, height, prev);
    }

    // What a load of x's link at level i sees, in terms of entries.
    lemma LinkIsSuccessor(x: Node, i: nat)
      requires Ok() && i < MAX_HEIGHT && x in all && (x == head || x in levels[i])
      ensures i < |x.next|
      ensures IsSuccessor(Entries(levels[i]), if x == head then None else Some(x.entry), EntryOf(x.next[i]))
    {
      assert Linked(i, x);
      if x.next[i] != null {
        assert x.next[i].entry in Entries(levels[i]);
      }
    }

    lemma EmptySpot(key: InternalKey)
      ensures IsSpot(head, key, {})
    {
    }
  }

  function EntryOf(n: Node?): Option<Entry> {
    if n == null then None else Some(n.entry)
  }

  // SkipList::Iterator.
  class ListIterator {
    const list: SkipList
    var node: Node?

    ghost predicate Ok()
      reads this, list, list.all
    {
      list.Ok() && (node != null ==> node in list.levels[0])
    }

    constructor (l: SkipList)
      requires l.Ok()
      ensures Ok() && list == l && node == null
    {
      list, node := l, null;
    }

    method Seek(target: InternalKey)
      requires Ok()
      modifies this`node
      ensures Ok() && IsFirst(list.Contents(), target, EntryOf(node))
    {
      node := list.FindGreaterOrEqual(target, null);
    }

    method SeekToFirst()
      requires Ok()
      modifies this`node
      ensures Ok() && IsSuccessor(list.Contents(), None, EntryOf(node))
    {
      assert list.Linked(0, list.head);
      node := list.head.next[0];
    }

    method SeekToLast()
      requires Ok()
      modifies this`node
      ensures Ok() && IsMaximum(list.Contents(), EntryOf(node))
    {
      var n := list.FindLast();
      node := if n == list.head then null else n;
    }

    method Next()
      requires Ok() && node != null
      modifies this`node
      ensures Ok() && IsSuccessor(list.Contents(), Some(old(node).entry), EntryOf(node))
    {
      assert list.Linked(0, node);
      node := node.next[0];
    }

    method Prev()
      requires Ok() && node != null
      modifies this`node
      ensures Ok() && IsLastBefore(list.Contents(), old(node).Key(), EntryOf(node))
    {
      var n := list.FindLessThan(node.Key());
      node := if n == list.head then null else n;
    }
  }

  lemma SmallerSet<T>(a: set<T>, b: set<T>)
    requires a < b
    ensures |a| < |b|
  {
    var x :| x in b && x !in a;
    assert b == a + (b - a) && x in b - a;
    assert |b| == |a| + |b - a|;
  }
}
