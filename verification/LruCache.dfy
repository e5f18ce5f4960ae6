// One shard of the block cache: two lists, a hash table, reference counts and a byte budget
// (util/cache.cc, LRUCache).

module LruCache {
  import opened DbFormat
  import opened Coding
  import opened CacheHandles
  import opened HandleTable

  // ---- What the cache is, as a value ----

  // The unused entries, oldest first; the entries clients use; how often clients hold each handle;
  // and the handles whose deleter has run, in order.
  datatype View = View(lru: seq<Handle>, inUse: seq<Handle>, held: multiset<Handle>, deleted: seq<Handle>)

  ghost function Cached(v: View): set<Handle> {
    SetOf(v.lru) + SetOf(v.inUse)
  }

  // References: the clients' and, while cached, the cache's own.
  ghost function Refs(v: View, h: Handle): nat {
    v.held[h] + if h in Cached(v) then 1 else 0
  }

  ghost predicate Wf(v: View) {
    Distinct(v.lru) && Distinct(v.inUse) && Distinct(v.deleted)
    && (forall h :: h in v.lru ==> h !in v.inUse && v.held[h] == 0)
    && (forall h :: h in v.inUse ==> v.held[h] > 0)
    && forall h :: h in v.deleted ==> Refs(v, h) == 0
  }

  function Charge(s: seq<Handle>): nat {
    if s == [] then 0 else Charge(s[..|s| - 1]) + s[|s| - 1].charge
  }

  lemma {:induction false} ChargeConcat(a: seq<Handle>, b: seq<Handle>)
    ensures Charge(a + b) == Charge(a) + Charge(b)
    decreases |b|
  {
    if b == [] {
      assert a + b == a;
    } else {
      assert (a + b)[..|a + b| - 1] == a + b[..|b| - 1];
      ChargeConcat(a, b[..|b| - 1]);
    }
  }

  lemma ChargeOne(h: Handle)
    ensures Charge([h]) == h.charge
  {
    assert [h][..0] == [];
  }

  lemma ChargeWithout(s: seq<Handle>, k: nat)
    requires k < |s|
    ensures Charge(s) == Charge(Without(s, k)) + s[k].charge
  {
    hide Charge;
    var a, b := s[..k], s[k + 1..];
    assert s == a + ([s[k]] + b);
    ChargeConcat(a, [s[k]] + b);
    ChargeConcat([s[k]], b);
    ChargeOne(s[k]);
    ChargeConcat(a, b);
  }

  lemma DistinctAdd(s: seq<Handle>, h: Handle)
    requires Distinct(s) && h !in s
    ensures Distinct(s + [h])
  {
  }

  ghost function IndexOf(s: seq<Handle>, h: Handle): (k: nat)
    requires h in s
    ensures k < |s| && s[k] == h
  {
    var k :| 0 <= k < |s| && s[k] == h; k
  }

  ghost function Removing(s: seq<Handle>, h: Handle): seq<Handle> {
    if h in s then Without(s, IndexOf(s, h)) else s
  }

  lemma RemovingIs(s: seq<Handle>, h: Handle)
    requires Distinct(s)
    ensures Distinct(Removing(s, h)) && forall g :: g in Removing(s, h) <==> g in s && g != h
    ensures Charge(s) == Charge(Removing(s, h)) + if h in s then h.charge else 0
  {
    hide Charge;
    if h in s {
      var k := IndexOf(s, h);
      WithoutIs(s, k);
      ChargeWithout(s, k);
    }
  }

  lemma WithoutIs(s: seq<Handle>, k: nat)
    requires Distinct(s) && k < |s|
    ensures Distinct(Without(s, k)) && forall g :: g in Without(s, k) <==> g in s && g != s[k]
  {
    var t := Without(s, k);
    forall g | g in s && g != s[k] ensures g in t {
      var i :| 0 <= i < |s| && s[i] == g;
      assert t[if i < k then i else i - 1] == g;
    }
  }

  // A client gets a handle: the first one takes the entry off the lru list.
  ghost function Acquired(v: View, h: Handle): View {
    v.(lru := Removing(v.lru, h), inUse := if h in v.lru then v.inUse + [h] else v.inUse, held := v.held + multiset{h})
  }

  // A client gives a handle back: the last one makes the entry the newest unused one, or deletes it.
  ghost function Returned(v: View, h: Handle): View {
    if v.held[h] > 1 then v.(held := v.held - multiset{h})
    else if h in v.inUse then v.(inUse := Removing(v.inUse, h), lru := v.lru + [h], held := v.held - multiset{h})
    else v.(held := v.held - multiset{h}, deleted := v.deleted + [h])
  }

  // The cache drops an entry: it is deleted unless a client still holds it.
  ghost function Dropped(v: View, h: Handle): View {
    v.(lru := Removing(v.lru, h), inUse := Removing(v.inUse, h),
       deleted := if v.held[h] == 0 then v.deleted + [h] else v.deleted)
  }

  ghost function DroppedIf(v: View, r: Handle?): View {
    if r == null then v else Dropped(v, r)
  }

  ghost function Usage(v: View): nat {
    Charge(v.lru) + Charge(v.inUse)
  }

  // Drops the oldest unused entries until the budget holds or none is left.
  ghost function Evicted(v: View, capacity: nat): View
    decreases |v.lru|
  {
    if Usage(v) > capacity && v.lru != [] then
      Evicted(v.(lru := v.lru[1..], deleted := v.deleted + [v.lru[0]]), capacity)
    else v
  }

  // Eviction takes entries from the old end, and stops at the budget or an empty list.
  lemma {:induction false} EvictedWithin(v: View, capacity: nat)
    ensures var w := Evicted(v, capacity);
      (Usage(w) <= capacity || w.lru == []) && w.inUse == v.inUse && w.held == v.held
      && |w.lru| <= |v.lru| && var k := |v.lru| - |w.lru|; w.lru == v.lru[k..] && w.deleted == v.deleted + v.lru[..k]
    decreases |v.lru|
  {
    hide Usage;
    if Usage(v) > capacity && v.lru != [] {
      var u := v.(lru := v.lru[1..], deleted := v.deleted + [v.lru[0]]);
      EvictedWithin(u, capacity);
      var w := Evicted(u, capacity);
      var k := |u.lru| - |w.lru|;
      assert u.lru[k..] == v.lru[k + 1..];
      assert [v.lru[0]] + u.lru[..k] == v.lru[..k + 1];
    }
  }

  // ---- Each operation keeps the view well formed ----

  lemma AcquiredWf(v: View, h: Handle)
    requires Wf(v) && h in Cached(v)
    ensures Wf(Acquired(v, h)) && Cached(Acquired(v, h)) == Cached(v) && Usage(Acquired(v, h)) == Usage(v)
  {
    hide Removing, Charge, Distinct;
    RemovingIs(v.lru, h);
    ChargeConcat(v.inUse, [h]);
    ChargeOne(h);
    if h in v.lru {
      DistinctAdd(v.inUse, h);
    }
    assert Cached(Acquired(v, h)) == Cached(v);
  }

  lemma ReturnedWf(v: View, h: Handle)
    requires Wf(v) && v.held[h] > 0
    ensures Wf(Returned(v, h)) && Cached(Returned(v, h)) == Cached(v) && Usage(Returned(v, h)) == Usage(v)
  {
    hide Removing, Charge, Distinct;
    RemovingIs(v.inUse, h);
    ChargeConcat(v.lru, [h]);
    ChargeOne(h);
    if h in v.inUse {
      DistinctAdd(v.lru, h);
    } else {
      DistinctAdd(v.deleted, h);
    }
    assert Cached(Returned(v, h)) == Cached(v);
  }

  lemma DroppedWf(v: View, h: Handle)
    requires Wf(v) && h in Cached(v)
    ensures Wf(Dropped(v, h)) && Cached(Dropped(v, h)) == Cached(v) - {h} && Usage(v) == Usage(Dropped(v, h)) + h.charge
  {
    hide Removing, Charge, Distinct;
    RemovingIs(v.inUse, h);
    RemovingIs(v.lru, h);
    DistinctAdd(v.deleted, h);
    assert Cached(Dropped(v, h)) == Cached(v) - {h};
  }

  // A new entry, held by the client that inserted it.
  ghost function Added(v: View, e: Handle): View {
    v.(inUse := v.inUse + [e], held := v.held + multiset{e})
  }

  lemma AddedWf(v: View, e: Handle)
    requires Wf(v) && e !in Cached(v) && v.held[e] == 0 && e !in v.deleted
    ensures Wf(Added(v, e)) && Cached(Added(v, e)) == Cached(v) + {e} && Usage(Added(v, e)) == Usage(v) + e.charge
  {
    hide Charge, Distinct;
    DistinctAdd(v.inUse, e);
    ChargeConcat(v.inUse, [e]);
    ChargeOne(e);
    assert Cached(Added(v, e)) == Cached(v) + {e};
  }

  // What a client has just inserted stays in the cache, whatever had to go for it.
  lemma InsertedKept(v: View, e: Handle, dup: Handle?, capacity: nat)
    requires Wf(v) && e !in Cached(v) && v.held[e] == 0 && e !in v.deleted && (dup != null ==> dup in Cached(v))
    ensures var w := Evicted(DroppedIf(Added(v, e), dup), capacity);
      e in Cached(w) && e !in w.lru && e !in w.deleted
  {
    hide Removing, Distinct, Evicted;
    AddedWf(v, e);
    var u := DroppedIf(Added(v, e), dup);
    if dup != null {
      DroppedWf(Added(v, e), dup);
      RemovingIs(Added(v, e).inUse, dup);
      RemovingIs(v.lru, dup);
    }
    assert e in u.inUse && e !in u.lru && e !in u.deleted;
    EvictedWithin(u, capacity);
  }

  lemma DropOldest(v: View)
    requires Wf(v) && v.lru != []
    ensures Dropped(v, v.lru[0]) == v.(lru := v.lru[1..], deleted := v.deleted + [v.lru[0]])
  {
    var h := v.lru[0];
    assert h in v.lru && h !in v.inUse;
    var k := IndexOf(v.lru, h);
    assert k == 0;
    assert Without(v.lru, 0) == v.lru[1..];
  }

  // ---- Handles in memory ----

  // Reference counts and flags say what the view says.
  ghost predicate Counts(v: View, known: set<Handle>)
    reads known`refs, known`inCache
  {
    forall h :: h in known ==> h.refs == Refs(v, h) && (h.inCache <==> h in Cached(v))
  }

  // The two circular lists spell out the view's two sequences.
  ghost predicate Lists(lruHead: Handle, useHead: Handle, lru: seq<Handle>, inUse: seq<Handle>, known: set<Handle>)
    reads lruHead`next, lruHead`prev, useHead`next, useHead`prev, known`next, known`prev
  {
    lruHead != useHead && lruHead !in known && useHead !in known
    && (forall h :: h in lru ==> h in known) && (forall h :: h in inUse ==> h in known && h !in lru)
    && Ring(lruHead, lru) && Ring(useHead, inUse)
  }

  // Every handle no one refers to has been deleted; Wf adds that nothing else was, and nothing twice.
  ghost predicate Finished(v: View, known: set<Handle>) {
    forall h :: h in known && Refs(v, h) == 0 ==> h in v.deleted
  }

  // Each deleter has run exactly when the last reference was gone, and once.
  lemma DeletedIff(v: View, known: set<Handle>, h: Handle)
    requires Wf(v) && Finished(v, known) && h in known
    ensures multiset(v.deleted)[h] == if Refs(v, h) == 0 then 1 else 0
  {
    hide Refs, Cached;
    OnceDistinct(v.deleted, h);
  }

  lemma {:induction false} OnceDistinct(s: seq<Handle>, h: Handle)
    requires Distinct(s)
    ensures multiset(s)[h] == if h in s then 1 else 0
  {
    if s != [] {
      var init := s[..|s| - 1];
      OnceDistinct(init, h);
      assert s == init + [s[|s| - 1]];
    }
  }

  lemma AcquiredFinished(v: View, e: Handle, known: set<Handle>)
    requires Wf(v) && Finished(v, known) && e in Cached(v)
    ensures Finished(Acquired(v, e), known)
  {
    hide Removing, Refs;
    AcquiredRefs(v, e);
  }

  lemma ReturnedFinished(v: View, e: Handle, known: set<Handle>)
    requires Wf(v) && Finished(v, known) && v.held[e] > 0
    ensures Finished(Returned(v, e), known)
  {
    hide Removing, Refs;
    ReturnedRefs(v, e);
  }

  lemma DroppedFinished(v: View, e: Handle, known: set<Handle>)
    requires Wf(v) && Finished(v, known) && e in Cached(v)
    ensures Finished(Dropped(v, e), known)
  {
    hide Removing, Refs;
    DroppedRefs(v, e);
  }

  lemma AddedFinished(v: View, e: Handle, known: set<Handle>)
    requires Finished(v, known) && v.held[e] == 0 && e !in Cached(v)
    ensures Finished(Added(v, e), known + {e})
  {
    hide Refs;
    AddedRefs(v, e);
  }

  lemma AcquiredRefs(v: View, e: Handle)
    requires Wf(v) && e in Cached(v)
    ensures Refs(v, e) == 1 <==> e in v.lru
    ensures forall h :: Refs(Acquired(v, e), h) == Refs(v, h) + if h == e then 1 else 0
    ensures Cached(Acquired(v, e)) == Cached(v)
  {
    hide Removing;
    AcquiredWf(v, e);
  }

  lemma RemovingCases(s: seq<Handle>, h: Handle)
    ensures Removing(s, h) == if h in s then Without(s, IndexOf(s, h)) else s
  {
  }

  // From the lru list to the in-use list.
  method ToInUse(ghost lruHead: Handle, useHead: Handle, ghost v: View, ghost known: set<Handle>, e: Handle)
    requires Wf(v) && e in v.lru && Lists(lruHead, useHead, v.lru, v.inUse, known)
    modifies lruHead`next, lruHead`prev, useHead`next, useHead`prev, known`next, known`prev
    ensures Lists(lruHead, useHead, Acquired(v, e).lru, Acquired(v, e).inUse, known)
  {
    ghost var k := IndexOf(v.lru, e);
    WithoutIs(v.lru, k);
    hide Ring, Wf;
    ListMove(lruHead, v.lru, k, useHead, v.inUse, e);
  }

  // Off one list; the other stays.
  method UnlistFrom(ghost head: Handle, ghost s: seq<Handle>, ghost other: Handle, ghost t: seq<Handle>, e: Handle)
    requires Ring(head, s) && Ring(other, t) && e in s && head != other && head !in t && other !in s
    requires forall h :: h in s ==> h !in t
    modifies (set h | h in s)`next, (set h | h in s)`prev, head`next, head`prev
    ensures Ring(head, Removing(s, e)) && Ring(other, t)
  {
    ghost var k := IndexOf(s, e);
    RemovingCases(s, e);
    hide Ring, Removing, Without;
    ListRemove(head, s, k, e);
  }

  // Off whichever list it is on.
  method Unlist(ghost lruHead: Handle, ghost useHead: Handle, ghost lru: seq<Handle>, ghost inUse: seq<Handle>,
                ghost known: set<Handle>, e: Handle)
    requires Lists(lruHead, useHead, lru, inUse, known) && (e in lru || e in inUse)
    modifies lruHead`next, lruHead`prev, useHead`next, useHead`prev, known`next, known`prev
    ensures Lists(lruHead, useHead, Removing(lru, e), Removing(inUse, e), known)
  {
    RingDistinct(lruHead, lru);
    RingDistinct(useHead, inUse);
    RemovingIs(lru, e);
    RemovingIs(inUse, e);
    RemovingCases(lru, e);
    RemovingCases(inUse, e);
    hide Ring, Removing, Without;
    ghost var onLru := e in lru;
    UnlistFrom(if onLru then lruHead else useHead, if onLru then lru else inUse,
               if onLru then useHead else lruHead, if onLru then inUse else lru, e);
  }

  lemma RingDistinct(head: Handle, s: seq<Handle>)
    requires Ring(head, s)
    ensures Distinct(s)
  {
  }

  // From the in-use list to the new end of the lru list.
  method ToLru(lruHead: Handle, ghost useHead: Handle, ghost lru: seq<Handle>, ghost inUse: seq<Handle>,
               ghost known: set<Handle>, e: Handle)
    requires Lists(lruHead, useHead, lru, inUse, known) && e in inUse
    modifies lruHead`next, lruHead`prev, useHead`next, useHead`prev, known`next, known`prev
    ensures Lists(lruHead, useHead, lru + [e], Removing(inUse, e), known)
  {
    ghost var k := IndexOf(inUse, e);
    RingDistinct(useHead, inUse);
    RemovingIs(inUse, e);
    RemovingCases(inUse, e);
    hide Ring, Removing;
    ListMove(useHead, inUse, k, lruHead, lru, e);
  }

  lemma ReturnedRefs(v: View, e: Handle)
    requires Wf(v) && v.held[e] > 0
    ensures Refs(v, e) > 0 && Cached(Returned(v, e)) == Cached(v)
    ensures forall h :: Refs(Returned(v, e), h) == Refs(v, h) - if h == e then 1 else 0
    ensures e in Cached(v) && Refs(v, e) == 2 <==> e in v.inUse && v.held[e] == 1
    ensures Refs(v, e) == 1 <==> v.held[e] == 1 && e !in v.inUse
  {
    hide Removing;
    ReturnedWf(v, e);
  }

  lemma ReturnedParts(v: View, e: Handle, known: set<Handle>)
    requires v.held[e] > 0 && Named(v, known)
    ensures var idle := v.held[e] == 1 && e in v.inUse;
      var w := Returned(v, e);
      w.lru == (if idle then v.lru + [e] else v.lru) && w.inUse == (if idle then Removing(v.inUse, e) else v.inUse)
      && w.deleted == (if v.held[e] == 1 && e !in v.inUse then v.deleted + [e] else v.deleted)
    ensures e in known && (Cached(Returned(v, e)) == Cached(v) ==> Named(Returned(v, e), known))
  {
    hide Removing;
    assert e in v.held;
  }

  lemma DroppedRefs(v: View, e: Handle)
    requires Wf(v) && e in Cached(v)
    ensures Refs(v, e) == v.held[e] + 1 && Cached(Dropped(v, e)) == Cached(v) - {e}
    ensures forall h :: Refs(Dropped(v, e), h) == Refs(v, h) - if h == e then 1 else 0
  {
    hide Removing;
    DroppedWf(v, e);
  }

  // ---- The cache ----

  class Cache {
    const capacity: nat
    const lruHead: Handle
    const useHead: Handle
    const table: Table
    var usage: nat
    var deleted: seq<Handle>  // the deleter's calls
    ghost var view: View
    ghost var known: set<Handle>  // every handle ever made

    // All but the hash table.
    ghost predicate Sound()
      reads this, lruHead`next, lruHead`prev, useHead`next, useHead`prev, known`next, known`prev, known`refs,
        known`inCache
    {
      Wf(view) && usage == Usage(view) && deleted == view.deleted && Named(view, known) && Finished(view, known)
      && Lists(lruHead, useHead, view.lru, view.inUse, known) && Counts(view, known)
    }

    ghost predicate Ok()
      reads this, lruHead`next, lruHead`prev, useHead`next, useHead`prev, known`next, known`prev, known`refs,
        known`inCache
      reads table, table.list, table.entries`nextHash
    {
      Sound() && table.Ok() && table.entries == Cached(view) && (capacity == 0 ==> Cached(view) == {})
    }

    constructor (cap: nat)
      ensures Ok() && view == View([], [], multiset{}, []) && capacity == cap
      ensures fresh(lruHead) && fresh(useHead) && fresh(table) && fresh(table.list) && known == {}
    {
      capacity, usage, deleted := cap, 0, [];
      var a := new Handle([], 0, [], 0);
      var b := new Handle([], 0, [], 0);
      a.next, a.prev := a, a;
      b.next, b.prev := b, b;
      lruHead, useHead := a, b;
      table := new Table();
      view, known := View([], [], multiset{}, []), {};
    }

    // Ref
    method Ref(e: Handle)
      requires Sound() && e in Cached(view)
      modifies this`view, lruHead`next, lruHead`prev, useHead`next, useHead`prev, known`next, known`prev, known`refs
      ensures Sound() && view == Acquired(old(view), e)
    {
      hide Lists, Removing, Usage, Wf, Refs, Finished;
      ghost var v := view;
      AcquiredWf(v, e);
      AcquiredRefs(v, e);
      AcquiredFinished(v, e, known);
      SameList(v, e);
      if e.refs == 1 && e.inCache {
        ToInUse(lruHead, useHead, v, known, e);
      }
      e.refs := e.refs + 1;
      view := Acquired(v, e);
    }

    // Unref, with the lists as they stand.
    method Unref(e: Handle, ghost lru: seq<Handle>, ghost inUse: seq<Handle>)
      requires Lists(lruHead, useHead, lru, inUse, known) && e in known && e.refs > 0
      requires e.inCache && e.refs == 2 ==> e in inUse
      modifies this`deleted, lruHead`next, lruHead`prev, useHead`next, useHead`prev, known`next, known`prev, e`refs
      ensures e.refs == old(e.refs) - 1
      ensures deleted == if e.refs == 0 then old(deleted) + [e] else old(deleted)
      ensures var idle := e.inCache && e.refs == 1;
        Lists(lruHead, useHead, if idle then lru + [e] else lru, if idle then Removing(inUse, e) else inUse, known)
    {
      hide Lists, Removing;
      e.refs := e.refs - 1;
      if e.refs == 0 {
        deleted := deleted + [e];
      } else if e.inCache && e.refs == 1 {
        ToLru(lruHead, useHead, lru, inUse, known, e);
      }
    }

    // FinishErase
    method FinishErase(e: Handle?) returns (erased: bool)
      requires Sound() && (e != null ==> e in Cached(view))
      modifies this`usage, this`deleted, this`view, lruHead`next, lruHead`prev, useHead`next, useHead`prev
      modifies known`next, known`prev, known`refs, known`inCache
      ensures Sound() && view == DroppedIf(old(view), e) && erased == (e != null)
    {
      hide Lists, Removing, Usage, Wf, Refs, Finished;
      erased := e != null;
      if e != null {
        ghost var v := view;
        DroppedWf(v, e);
        DroppedRefs(v, e);
        DroppedFinished(v, e, known);
        Unlist(lruHead, useHead, v.lru, v.inUse, known, e);
        e.inCache := false;
        usage := usage - e.charge;
        Unref(e, Removing(v.lru, e), Removing(v.inUse, e));
        view := Dropped(v, e);
      }
    }

    // Release
    method Release(e: Handle)
      requires Ok() && view.held[e] > 0
      modifies this`deleted, this`view, lruHead`next, lruHead`prev, useHead`next, useHead`prev, known`next,
        known`prev, known`refs
      ensures Ok() && view == Returned(old(view), e)
    {
      hide Lists, Removing, Usage, Wf, Refs, Returned, Filed, Cached, Finished;
      ghost var v := view;
      ReturnedWf(v, e);
      ReturnedRefs(v, e);
      ReturnedParts(v, e, known);
      ReturnedFinished(v, e, known);
      Unref(e, v.lru, v.inUse);
      view := Returned(v, e);
    }

    // Lookup
    method Lookup(key: Bytes, hash: nat) returns (r: Handle?)
      requires Ok()
      modifies this`view, lruHead`next, lruHead`prev, useHead`next, useHead`prev, known`next, known`prev, known`refs
      ensures Ok() && IsEntry(old(Cached(view)), key, hash, r)
      ensures view == if r == null then old(view) else Acquired(old(view), r)
    {
      hide Lists, Removing, Usage, Wf, Refs, Filed, Finished;
      r := table.Lookup(key, hash);
      if r != null {
        AcquiredRefs(view, r);
        Ref(r);
      }
    }

    // Erase
    method Erase(key: Bytes, hash: nat) returns (ghost r: Handle?)
      requires Ok()
      modifies this`usage, this`deleted, this`view, lruHead`next, lruHead`prev, useHead`next, useHead`prev
      modifies known`next, known`prev, known`refs, known`inCache, known`nextHash
      modifies table`elems, table`chains, table`entries, table.list
      ensures Ok() && IsEntry(old(Cached(view)), key, hash, r) && view == DroppedIf(old(view), r)
    {
      hide Lists, Removing, Usage, Wf, Refs, Filed, PowerOfTwo, IsEntry, Named, Finished;
      ghost var v := view;
      CachedKnown(v, known);
      var e := table.Remove(key, hash);
      EntryIn(Cached(v), key, hash, e);
      var _ := FinishErase(e);
      DroppedCached(v, e);
      r := e;
    }

    // The oldest unused entry goes, first from the table, then from the list.
    method EvictOldest()
      requires Ok() && lruHead.next != lruHead
      modifies this`usage, this`deleted, this`view, lruHead`next, lruHead`prev, useHead`next, useHead`prev
      modifies known`next, known`prev, known`refs, known`inCache, known`nextHash
      modifies table`elems, table`chains, table`entries, table.list
      ensures Ok() && old(view).lru != [] && table.list == old(table.list)
      ensures var v := old(view); view == v.(lru := v.lru[1..], deleted := v.deleted + [v.lru[0]])
    {
      ghost var v := view;
      RingHead(lruHead, v.lru);
      DropOldest(v);
      assert v.lru[0] in v.lru;
      hide Lists, Removing, Usage, Wf, Refs, Filed, PowerOfTwo, Named, Dropped, Finished;
      var oldest := lruHead.next;
      var r := Erase(oldest.key, oldest.hash);
      SameEntry(Cached(v), oldest, r);
    }

    // Prune
    method Prune()
      requires Ok()
      modifies this`usage, this`deleted, this`view, lruHead`next, lruHead`prev, useHead`next, useHead`prev
      modifies known`next, known`prev, known`refs, known`inCache, known`nextHash
      modifies table`elems, table`chains, table`entries, table.list
      ensures Ok() && view == old(view).(lru := [], deleted := old(view.deleted + view.lru))
    {
      hide Removing, Usage, Wf, Refs, Filed, PowerOfTwo, Named, Counts, Lists, Finished;
      ghost var v := view;
      EmptyLists(lruHead, useHead, view.lru, view.inUse, known);
      CachedKnown(view, known);
      while lruHead.next != lruHead
        invariant Ok() && table.list == old(table.list) && table.entries <= known
        invariant view.deleted + view.lru == v.deleted + v.lru && view.inUse == v.inUse && view.held == v.held
        invariant lruHead.next == lruHead <==> view.lru == []
        decreases |view.lru|
      {
        ghost var u := view;
        EvictOldest();
        assert u.deleted + [u.lru[0]] + u.lru[1..] == u.deleted + u.lru;
        CachedKnown(view, known);
        EmptyLists(lruHead, useHead, view.lru, view.inUse, known);
      }
      assert view.deleted + [] == view.deleted;
    }

    // Insert: the new entry replaces any with its key, then old unused entries make room.
    method Insert(key: Bytes, hash: nat, value: Bytes, charge: nat) returns (e: Handle, ghost dup: Handle?)
      requires Ok()
      modifies this`usage, this`deleted, this`view, this`known, lruHead`next, lruHead`prev, useHead`next, useHead`prev
      modifies known`next, known`prev, known`refs, known`inCache, known`nextHash, table, table.list
      ensures Ok() && fresh(e) && e.key == key && e.hash == hash && e.value == value && e.charge == charge
      ensures capacity == 0 ==> view == old(view).(held := old(view).held + multiset{e})
      ensures capacity > 0 ==> IsEntry(old(Cached(view)), key, hash, dup)
      ensures capacity > 0 ==> view == Evicted(DroppedIf(Added(old(view), e), dup), capacity)
      ensures usage <= capacity || view.lru == []
    {
      hide Removing, Usage, Wf, Refs, Filed, PowerOfTwo, Named, Counts, Lists, Finished;
      e := new Handle(key, hash, value, charge);
      dup := null;
      if capacity > 0 {
        dup := InsertCached(e);
        EvictToFit();
      } else {
        HoldOnly(e);
      }
    }

    // With no capacity the entry belongs to the client alone.
    method HoldOnly(e: Handle)
      requires Ok() && capacity == 0 && e !in known && e.refs == 1 && !e.inCache && e != lruHead && e != useHead
      modifies this`view, this`known, e`next
      ensures Ok() && view == old(view).(held := old(view).held + multiset{e}) && usage == 0
    {
      ghost var v := view;
      NewEntry(v, known, e);
      NothingCached(v);
      hide Removing, Filed, PowerOfTwo;
      e.next := null;
      view, known := v.(held := v.held + multiset{e}), known + {e};
    }

    // Into the list and the table, the entry with its key out of both.
    method InsertCached(e: Handle) returns (ghost dup: Handle?)
      requires Ok() && capacity > 0 && e !in known && e.refs == 1 && !e.inCache && e != lruHead && e != useHead
      modifies this`usage, this`deleted, this`view, this`known, lruHead`next, lruHead`prev, useHead`next, useHead`prev
      modifies known`next, known`prev, known`refs, known`inCache, known`nextHash, table, table.list, e
      ensures Ok() && (table.list == old(table.list) || fresh(table.list)) && known == old(known) + {e}
      ensures IsEntry(old(Cached(view)), e.key, e.hash, dup) && view == DroppedIf(Added(old(view), e), dup)
    {
      hide Removing, Usage, Wf, Refs, Filed, PowerOfTwo, Named, Counts, Lists, IsEntry, Cached, Added, DroppedIf,
        Finished;
      ghost var v := view;
      NewEntry(v, known, e);
      AddedWf(v, e);
      AddToList(e);
      var d := table.Insert(e);
      EntryIn(Cached(v), e.key, e.hash, d);
      MinusAdd(Cached(v), d, e);
      var _ := FinishErase(d);
      DroppedCached(Added(v, e), d);
      dup := d;
    }

    method AddToList(e: Handle)
      requires Sound() && e !in known && e.refs == 1 && !e.inCache && e != lruHead && e != useHead
      modifies this`usage, this`view, this`known, useHead`next, useHead`prev, known`next, e
      ensures Sound() && known == old(known) + {e} && view == Added(old(view), e)
      ensures e.nextHash == old(e.nextHash)
    {
      hide Removing, Usage, Wf, Refs, Named, Lists, Cached, Finished;
      ghost var v := view;
      NewEntry(v, known, e);
      AddedWf(v, e);
      AddedRefs(v, e);
      AddedFinished(v, e, known);
      e.refs := e.refs + 1;
      e.inCache := true;
      AppendNew(lruHead, useHead, v.lru, v.inUse, known, e);
      usage := usage + e.charge;
      view, known := Added(v, e), known + {e};
    }

    method EvictToFit()
      requires Ok()
      modifies this`usage, this`deleted, this`view, lruHead`next, lruHead`prev, useHead`next, useHead`prev
      modifies known`next, known`prev, known`refs, known`inCache, known`nextHash
      modifies table`elems, table`chains, table`entries, table.list
      ensures Ok() && view == Evicted(old(view), capacity) && (usage <= capacity || view.lru == [])
    {
      hide Removing, Usage, Wf, Refs, Filed, PowerOfTwo, Named, Counts, Lists, Finished;
      EmptyLists(lruHead, useHead, view.lru, view.inUse, known);
      CachedKnown(view, known);
      while usage > capacity && lruHead.next != lruHead
        invariant Ok() && table.list == old(table.list) && table.entries <= known
        invariant Evicted(view, capacity) == Evicted(old(view), capacity)
        invariant lruHead.next == lruHead <==> view.lru == []
        decreases |view.lru|
      {
        EvictOldest();
        CachedKnown(view, known);
        EmptyLists(lruHead, useHead, view.lru, view.inUse, known);
      }
    }
  }

  lemma NothingCached(v: View)
    requires Cached(v) == {}
    ensures v.lru == [] && v.inUse == [] && Usage(v) == 0
  {
    assert forall h :: h in v.lru || h in v.inUse ==> h in Cached(v);
    Inhabited(v.lru);
    Inhabited(v.inUse);
  }

  lemma Inhabited(s: seq<Handle>)
    ensures s == [] || exists h :: h in s
  {
    if s != [] { assert s[0] in s; }
  }

  lemma MinusAdd(E: set<Handle>, d: Handle?, e: Handle)
    requires e !in E && (d != null ==> d in E)
    ensures Minus(E + {e}, d) == Minus(E, d) + {e}
  {
  }

  lemma AddedRefs(v: View, e: Handle)
    requires v.held[e] == 0 && e !in Cached(v)
    ensures Refs(Added(v, e), e) == 2 && forall h :: h != e ==> Refs(Added(v, e), h) == Refs(v, h)
  {
  }

  // A new handle at the new end of the in-use list.
  method AppendNew(ghost lruHead: Handle, useHead: Handle, ghost lru: seq<Handle>, ghost inUse: seq<Handle>,
                   ghost known: set<Handle>, e: Handle)
    requires Lists(lruHead, useHead, lru, inUse, known) && e !in known && e != lruHead && e != useHead
    modifies useHead`next, useHead`prev, known`next, e`next, e`prev
    ensures Lists(lruHead, useHead, lru, inUse + [e], known + {e})
  {
    hide Ring;
    ListAppend(useHead, inUse, e);
  }

  lemma NewEntry(v: View, known: set<Handle>, e: Handle)
    requires Named(v, known) && e !in known
    ensures e !in Cached(v) && v.held[e] == 0 && e !in v.deleted && Cached(v) <= known
    ensures Named(Added(v, e), known + {e})
  {
    assert v.held[e] > 0 ==> e in v.held;
  }

  lemma CachedKnown(v: View, known: set<Handle>)
    requires Named(v, known)
    ensures Cached(v) <= known
  {
  }

  lemma EntryIn(E: set<Handle>, key: Bytes, hash: nat, r: Handle?)
    requires IsEntry(E, key, hash, r)
    ensures r != null ==> r in E
  {
  }

  lemma DroppedCached(v: View, r: Handle?)
    requires Wf(v) && (r != null ==> r in Cached(v))
    ensures Cached(DroppedIf(v, r)) == Minus(Cached(v), r)
  {
    if r != null { DroppedWf(v, r); }
  }

  lemma SameEntry(E: set<Handle>, h: Handle, r: Handle?)
    requires OneEach(E) && h in E && IsEntry(E, h.key, h.hash, r)
    ensures r == h
  {
  }

  lemma EmptyLists(lruHead: Handle, useHead: Handle, lru: seq<Handle>, inUse: seq<Handle>, known: set<Handle>)
    requires Lists(lruHead, useHead, lru, inUse, known)
    ensures lruHead.next == lruHead <==> lru == []
  {
    RingHead(lruHead, lru);
    assert lru != [] ==> lru[0] in lru;
  }

  lemma SameList(v: View, e: Handle)
    ensures e !in v.lru ==> Acquired(v, e).lru == v.lru && Acquired(v, e).inUse == v.inUse
  {
  }

  // Every handle mentioned is a known one.
  ghost predicate Named(v: View, known: set<Handle>) {
    Cached(v) <= known && (forall h :: h in v.held ==> h in known) && forall h :: h in v.deleted ==> h in known
  }
}
