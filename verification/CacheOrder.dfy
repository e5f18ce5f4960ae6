// Least recently used.

module CacheOrder {
  // In what order the block cache gives up unused entries, over histories of its operations (util/cache.cc).

  import opened CacheHandles
  import opened LruCache

  // The oldest unused entry is deleted.
  ghost predicate Evicts(a: View, b: View) {
    a.lru != [] && b == a.(lru := a.lru[1..], deleted := a.deleted + [a.lru[0]])
  }

  // A client gets or returns a handle, an entry is dropped by its key, added, held alone, or evicted.
  ghost predicate Step(a: View, b: View) {
    (exists h :: h in Cached(a) && b == Acquired(a, h))
    || (exists h :: h in a.held && b == Returned(a, h))
    || (exists h :: h in Cached(a) && b == Dropped(a, h))
    || (exists h :: h in Cached(b) && b == Added(a, h))
    || (exists h :: h in b.held && b == a.(held := a.held + multiset{h}))
    || Evicts(a, b)
  }

  ghost predicate Run(trace: seq<View>) {
    (forall i :: 0 <= i < |trace| ==> Wf(trace[i]))
    && forall i :: 0 <= i < |trace| - 1 ==> Step(trace[i], trace[i + 1])
  }

  // Making room is one eviction after the other.
  lemma {:induction false} EvictedSteps(v: View, capacity: nat) returns (trace: seq<View>)
    ensures trace != [] && trace[0] == v && trace[|trace| - 1] == Evicted(v, capacity)
    ensures forall i :: 0 <= i < |trace| - 1 ==> Evicts(trace[i], trace[i + 1]) && Usage(trace[i]) > capacity
    decreases |v.lru|
  {
    hide Usage;
    if Usage(v) > capacity && v.lru != [] {
      var u := v.(lru := v.lru[1..], deleted := v.deleted + [v.lru[0]]);
      var rest := EvictedSteps(u, capacity);
      trace := [v] + rest;
      assert forall i :: 0 < i < |trace| ==> trace[i] == rest[i - 1];
    } else {
      trace := [v];
    }
  }

  ghost predicate Ahead(s: seq<Handle>, h: Handle, g: Handle) {
    forall p, q :: 0 <= p < |s| && 0 <= q < |s| && s[p] == h && s[q] == g ==> p < q
  }

  lemma AheadWithout(s: seq<Handle>, k: nat, h: Handle, g: Handle)
    requires Ahead(s, h, g) && k < |s|
    ensures Ahead(Without(s, k), h, g)
  {
    var t := Without(s, k);
    forall p, q | 0 <= p < |t| && 0 <= q < |t| && t[p] == h && t[q] == g ensures p < q {
      assert s[if p < k then p else p + 1] == h && s[if q < k then q else q + 1] == g;
    }
  }

  // What one operation may do to the list of unused entries.
  ghost predicate Shifts(s: seq<Handle>, t: seq<Handle>) {
    t == s || (exists k :: 0 <= k < |s| && t == Without(s, k)) || exists x :: x in t && x !in s && t == s + [x]
  }

  lemma StepShifts(a: View, b: View)
    requires Wf(a) && Step(a, b)
    ensures Shifts(a.lru, b.lru)
  {
    hide IndexOf, Distinct;
    if Evicts(a, b) {
      assert Without(a.lru, 0) == a.lru[1..];
    } else if h :| h in Cached(a) && b == Acquired(a, h) {
      RemovingShifts(a.lru, h);
    } else if h :| h in a.held && b == Returned(a, h) {
      ReturnedShifts(a, h);
    } else if h :| h in Cached(a) && b == Dropped(a, h) {
      RemovingShifts(a.lru, h);
    }
  }

  lemma RemovingShifts(s: seq<Handle>, h: Handle)
    ensures Shifts(s, Removing(s, h))
  {
  }

  lemma ReturnedShifts(a: View, h: Handle)
    requires Wf(a) && h in a.held
    ensures Shifts(a.lru, Returned(a, h).lru)
  {
    hide Distinct, Removing;
    if h in a.inUse && a.held[h] == 1 {
      assert h !in a.lru && h in a.lru + [h];
    }
  }

  // The order of two unused entries does not change.
  lemma OrderKept(s: seq<Handle>, t: seq<Handle>, h: Handle, g: Handle)
    requires Shifts(s, t) && Ahead(s, h, g) && h in s && g in s
    ensures Ahead(t, h, g)
  {
    if k: nat :| k < |s| && t == Without(s, k) {
      AheadWithout(s, k, h, g);
    }
  }

  // An entry that becomes unused comes behind all others that are.
  lemma JoinsBehind(s: seq<Handle>, t: seq<Handle>, h: Handle, g: Handle)
    requires Shifts(s, t) && h in s && g !in s && g in t
    ensures Ahead(t, h, g)
  {
  }

  // Unused from trace[i + 1] on, after being in use at trace[i].
  ghost predicate UnusedSince(trace: seq<View>, i: nat, m: nat, h: Handle) {
    i < m < |trace| && h !in trace[i].lru && forall n :: i < n <= m ==> h in trace[n].lru
  }

  lemma {:induction false} OlderAhead(trace: seq<View>, i: nat, j: nat, m: nat, h: Handle, g: Handle)
    requires Run(trace) && i < j && UnusedSince(trace, i, m, h) && UnusedSince(trace, j, m, g)
    ensures Ahead(trace[m].lru, h, g)
    decreases m
  {
    hide Step, Ahead, Wf, Shifts;
    assert Step(trace[m - 1], trace[m]);
    StepShifts(trace[m - 1], trace[m]);
    if m == j + 1 {
      JoinsBehind(trace[j].lru, trace[m].lru, h, g);
    } else {
      OlderAhead(trace, i, j, m - 1, h, g);
      OrderKept(trace[m - 1].lru, trace[m].lru, h, g);
    }
  }

  // Whatever happens in between: while an entry that has been unused for longer is still there, eviction does
  // not take one that was used since.
  lemma LeastRecentlyUsed(trace: seq<View>, i: nat, j: nat, m: nat, h: Handle, g: Handle)
    requires Run(trace) && i < j && UnusedSince(trace, i, m, h) && UnusedSince(trace, j, m, g)
    requires m + 1 < |trace| && Evicts(trace[m], trace[m + 1])
    ensures g in trace[m + 1].lru
  {
    hide Step, Wf;
    OlderAhead(trace, i, j, m, h, g);
    var p :| 0 <= p < |trace[m].lru| && trace[m].lru[p] == h;
    var q :| 0 <= q < |trace[m].lru| && trace[m].lru[q] == g;
    assert trace[m + 1].lru[q - 1] == g;
  }
}
