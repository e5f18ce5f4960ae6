// Cache entries and the circular lists they are kept on (util/cache.cc, LRUHandle, LRU_Append, LRU_Remove).

module CacheHandles {
  import opened DbFormat
  import opened Coding

  class Handle {
    const key: Bytes
    const hash: nat
    const value: Bytes
    const charge: nat
    var nextHash: Handle?
    var next: Handle?
    var prev: Handle?
    var inCache: bool
    var refs: nat

    constructor (k: Bytes, h: nat, v: Bytes, c: nat)
      ensures key == k && hash == h && value == v && charge == c && !inCache && refs == 1 && fresh(this)
    {
      key, hash, value, charge := k, h, v, c;
      nextHash, next, prev, inCache, refs := null, null, null, false, 1;
    }
  }

  // ---- Circular lists ----

  ghost predicate Linked(a: Handle, b: Handle)
    reads a`next, b`prev
  {
    a.next == b && b.prev == a
  }

  // All the way round from the head and back to it.
  ghost function Round(head: Handle, s: seq<Handle>): seq<Handle> {
    [head] + s + [head]
  }

  ghost predicate Distinct(s: seq<Handle>) {
    forall i, j :: 0 <= i < j < |s| ==> s[i] != s[j]
  }

  // s, oldest first, is the list with this dummy head.
  ghost predicate Ring(head: Handle, s: seq<Handle>)
    reads head`next, head`prev, s`next, s`prev
  {
    head !in s && Distinct(s)
    && forall i :: 0 <= i <= |s| ==> Linked(Round(head, s)[i], Round(head, s)[i + 1])
  }

  lemma RingAt(head: Handle, s: seq<Handle>, k: nat)
    requires Ring(head, s) && k < |s|
    ensures s[k].next == (if k + 1 < |s| then s[k + 1] else head)
    ensures s[k].prev == (if k > 0 then s[k - 1] else head)
  {
    var c := Round(head, s);
    assert Linked(c[k], c[k + 1]) && Linked(c[k + 1], c[k + 2]);
  }

  lemma RingHead(head: Handle, s: seq<Handle>)
    requires Ring(head, s)
    ensures head.next == (if s == [] then head else s[0]) && head.prev == if s == [] then head else s[|s| - 1]
  {
    var c := Round(head, s);
    assert Linked(c[0], c[1]) && Linked(c[|s|], c[|s| + 1]);
  }

  function Without(s: seq<Handle>, k: nat): seq<Handle>
    requires k < |s|
  {
    s[..k] + s[k + 1..]
  }

  // LRU_Remove
  method ListRemove(ghost head: Handle, ghost s: seq<Handle>, ghost k: nat, e: Handle)
    requires Ring(head, s) && k < |s| && s[k] == e
    modifies (set h | h in s)`next, (set h | h in s)`prev, head`next, head`prev
    ensures Ring(head, Without(s, k))
  {
    RingAt(head, s, k);
    ghost var c, d := Round(head, s), Round(head, Without(s, k));
    e.next.prev := e.prev;
    e.prev.next := e.next;
    forall i | 0 <= i <= |s| - 1 ensures Linked(d[i], d[i + 1]) {
      if i < k {
        assert old(Linked(c[i], c[i + 1]));
      } else if i > k {
        assert old(Linked(c[i + 1], c[i + 2]));
      }
    }
  }

  // LRU_Append
  method ListAppend(head: Handle, ghost s: seq<Handle>, e: Handle)
    requires Ring(head, s) && e !in s && e != head
    modifies (set h | h in s)`next, head`next, head`prev, e`next, e`prev
    ensures Ring(head, s + [e])
  {
    RingHead(head, s);
    ghost var c, d := Round(head, s), Round(head, s + [e]);
    e.next := head;
    e.prev := head.prev;
    e.prev.next := e;
    e.next.prev := e;
    forall i | 0 <= i <= |s| + 1 ensures Linked(d[i], d[i + 1]) {
      if i < |s| {
        assert old(Linked(c[i], c[i + 1]));
      }
    }
  }

  // LRU_Remove from one list and LRU_Append to the other.
  method ListMove(ghost a: Handle, ghost s: seq<Handle>, ghost k: nat, b: Handle, ghost t: seq<Handle>, e: Handle)
    requires Ring(a, s) && Ring(b, t) && k < |s| && s[k] == e && a != b && a !in t && b !in s
    requires forall h :: h in s ==> h !in t
    modifies (set h | h in s)`next, (set h | h in s)`prev, a`next, a`prev
    modifies (set h | h in t)`next, b`next, b`prev
    ensures Ring(a, Without(s, k)) && Ring(b, t + [e])
  {
    RingApart(a, s, k);
    ListRemove(a, s, k, e);
    ListAppend(b, t, e);
  }

  lemma RingApart(a: Handle, s: seq<Handle>, k: nat)
    requires Ring(a, s) && k < |s|
    ensures s[k] != a && s[k] !in Without(s, k) && forall h :: h in Without(s, k) ==> h in s
  {
  }
}
