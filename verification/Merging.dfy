// The merging iterator over sorted runs (table/merger.cc).

module Merging {
  import opened DbFormat

  // ---- The sorted union of runs ----

  function Merge(a: seq<Entry>, b: seq<Entry>): seq<Entry> {
    if a == [] then b
    else if b == [] then a
    else if Less(b[0].Key(), a[0].Key()) then [b[0]] + Merge(a, b[1..])
    else [a[0]] + Merge(a[1..], b)
  }

  function MergeAll(runs: seq<seq<Entry>>): seq<Entry> {
    if runs == [] then [] else Merge(runs[0], MergeAll(runs[1..]))
  }

  // No two runs hold the same internal key.
  ghost predicate KeysApart(a: seq<Entry>, b: seq<Entry>) {
    forall i, j :: 0 <= i < |a| && 0 <= j < |b| ==> a[i].Key() != b[j].Key()
  }

  ghost predicate RunsOk(runs: seq<seq<Entry>>) {
    (forall i :: 0 <= i < |runs| ==> Sorted(runs[i]))
    && forall i, j :: 0 <= i < j < |runs| ==> KeysApart(runs[i], runs[j])
  }

  ghost predicate FromRuns(runs: seq<seq<Entry>>, e: Entry) {
    exists i :: 0 <= i < |runs| && e in runs[i]
  }

  lemma {:induction false} MergeMembers(a: seq<Entry>, b: seq<Entry>)
    ensures forall e :: e in Merge(a, b) <==> e in a || e in b
  {
    if a != [] && b != [] {
      if Less(b[0].Key(), a[0].Key()) {
        MergeMembers(a, b[1..]);
        assert b == [b[0]] + b[1..];
      } else {
        MergeMembers(a[1..], b);
        assert a == [a[0]] + a[1..];
      }
    }
  }

  lemma SortedCons(e: Entry, es: seq<Entry>)
    requires Sorted(es) && forall o :: o in es ==> Less(e.Key(), o.Key())
    ensures Sorted([e] + es)
  {
    forall i, j | 0 <= i < j < |[e] + es| ensures Less(([e] + es)[i].Key(), ([e] + es)[j].Key()) {
      assert ([e] + es)[j] == es[j - 1] && es[j - 1] in es;
    }
  }

  lemma HeadFirst(es: seq<Entry>, o: Entry)
    requires Sorted(es) && es != [] && o in es
    ensures !Less(o.Key(), es[0].Key())
  {
    var i :| 0 <= i < |es| && es[i] == o;
    assert i > 0 ==> Less(es[0].Key(), es[i].Key());
  }

  lemma {:induction false} MergeSorted(a: seq<Entry>, b: seq<Entry>)
    requires Sorted(a) && Sorted(b) && KeysApart(a, b)
    ensures Sorted(Merge(a, b))
  {
    if a != [] && b != [] {
      if Less(b[0].Key(), a[0].Key()) {
        MergeSorted(a, b[1..]);
        MergeMembers(a, b[1..]);
        forall o | o in Merge(a, b[1..]) ensures Less(b[0].Key(), o.Key()) {
          if o in a { HeadFirst(a, o); }
        }
        SortedCons(b[0], Merge(a, b[1..]));
      } else {
        MergeSorted(a[1..], b);
        MergeMembers(a[1..], b);
        assert a[0].Key() != b[0].Key();
        forall o | o in Merge(a[1..], b) ensures Less(a[0].Key(), o.Key()) {
          if o in b { HeadFirst(b, o); }
        }
        SortedCons(a[0], Merge(a[1..], b));
      }
    }
  }

  lemma {:induction false} MergeAllMembers(runs: seq<seq<Entry>>)
    ensures forall e :: e in MergeAll(runs) <==> FromRuns(runs, e)
  {
    if runs != [] {
      MergeAllMembers(runs[1..]);
      MergeMembers(runs[0], MergeAll(runs[1..]));
      forall e: Entry ensures FromRuns(runs, e) <==> e in runs[0] || FromRuns(runs[1..], e) {
        if FromRuns(runs, e) && e !in runs[0] {
          var i :| 0 <= i < |runs| && e in runs[i];
          assert e in runs[1..][i - 1];
        }
        if FromRuns(runs[1..], e) {
          var i :| 0 <= i < |runs[1..]| && e in runs[1..][i];
          assert e in runs[i + 1];
        }
      }
    }
  }

  // Merging runs with no shared key yields one sorted run.
  lemma {:induction false} MergeAllSorted(runs: seq<seq<Entry>>)
    requires RunsOk(runs)
    ensures Sorted(MergeAll(runs))
  {
    if runs != [] {
      var rest := runs[1..];
      assert forall i :: 0 <= i < |rest| ==> rest[i] == runs[i + 1];
      MergeAllSorted(rest);
      MergeAllMembers(rest);
      var m := MergeAll(rest);
      forall i, j | 0 <= i < |runs[0]| && 0 <= j < |m| ensures runs[0][i].Key() != m[j].Key() {
        assert m[j] in m;
        var r :| 0 <= r < |rest| && m[j] in rest[r];
        var q :| 0 <= q < |rest[r]| && rest[r][q] == m[j];
        assert KeysApart(runs[0], runs[r + 1]);
      }
      MergeSorted(runs[0], m);
    }
  }

  // ---- Cuts: upward-closed sets of internal keys ----

  datatype Cut = Everything | From(key: InternalKey) | Past(key: InternalKey) | Nothing {
    predicate Has(k: InternalKey) {
      match this
      case Everything => true
      case From(t) => !Less(k, t)
      case Past(t) => Less(t, k)
      case Nothing => false
    }
  }

  // p separates the entries outside the cut from those inside.
  ghost predicate Split(es: seq<Entry>, p: int, cut: Cut) {
    0 <= p <= |es|
    && (forall j :: 0 <= j < p ==> !cut.Has(es[j].Key()))
    && forall j :: p <= j < |es| ==> cut.Has(es[j].Key())
  }

  lemma SplitStep(es: seq<Entry>, p: nat)
    requires Sorted(es) && p < |es|
    ensures Split(es, p + 1, Past(es[p].Key())) && Split(es, p, From(es[p].Key()))
  {
  }

  lemma SplitUnique(es: seq<Entry>, p: int, q: int, cut: Cut)
    requires Split(es, p, cut) && Split(es, q, cut)
    ensures p == q
  {
    assert p < |es| ==> cut.Has(es[p].Key());
    assert q < |es| ==> cut.Has(es[q].Key());
  }

  ghost predicate AllSplit(runs: seq<seq<Entry>>, pos: seq<int>, shift: int, cut: Cut, skip: int) {
    |pos| == |runs| && forall i :: 0 <= i < |runs| && i != skip ==> Split(runs[i], pos[i] + shift, cut)
  }

  predicate ValidAt(runs: seq<seq<Entry>>, pos: seq<int>, i: int)
    requires |pos| == |runs| && 0 <= i < |runs|
  {
    0 <= pos[i] < |runs[i]|
  }

  // The smallest current child holds the first entry of the union inside the cut.
  lemma SmallestIsHead(runs: seq<seq<Entry>>, union: seq<Entry>, pos: seq<int>, cut: Cut, u: nat, c: int)
    requires RunsOk(runs) && Sorted(union) && (forall e :: e in union <==> FromRuns(runs, e))
    requires AllSplit(runs, pos, 0, cut, -1) && Split(union, u, cut)
    requires 0 <= c < |runs| && ValidAt(runs, pos, c)
    requires forall i ::
      0 <= i < |runs| && ValidAt(runs, pos, i) ==> !Less(runs[i][pos[i]].Key(), runs[c][pos[c]].Key())
    ensures u < |union| && union[u] == runs[c][pos[c]]
  {
    var e := runs[c][pos[c]];
    assert e in runs[c];
    assert FromRuns(runs, e);
    var p :| 0 <= p < |union| && union[p] == e;
    assert p >= u;
    assert p > u ==> Less(union[u].Key(), union[p].Key());
    forall i, q | 0 <= i < |runs| && 0 <= q < |runs[i]| && cut.Has(runs[i][q].Key())
      ensures !Less(runs[i][q].Key(), e.Key())
    {
      assert Split(runs[i], pos[i] + 0, cut) && ValidAt(runs, pos, i);
      assert pos[i] < q ==> Less(runs[i][pos[i]].Key(), runs[i][q].Key());
    }
    assert union[u] in union;
  }

  lemma NoneIsEnd(runs: seq<seq<Entry>>, union: seq<Entry>, pos: seq<int>, cut: Cut, u: nat)
    requires forall e :: e in union <==> FromRuns(runs, e)
    requires AllSplit(runs, pos, 0, cut, -1) && Split(union, u, cut)
    requires forall i :: 0 <= i < |runs| ==> !ValidAt(runs, pos, i)
    ensures u == |union|
  {
    forall i | 0 <= i < |runs| ensures Split(runs[i], |runs[i]|, cut) {
      assert Split(runs[i], pos[i] + 0, cut) && !ValidAt(runs, pos, i);
    }
    forall k | 0 <= k < |union| ensures !cut.Has(union[k].Key()) {
      assert union[k] in union;
      var i :| 0 <= i < |runs| && union[k] in runs[i];
      var q :| 0 <= q < |runs[i]| && runs[i][q] == union[k];
    }
    SplitUnique(union, u, |union|, cut);
  }

  // The largest current child holds the last entry of the union outside the cut.
  lemma LargestIsLast(runs: seq<seq<Entry>>, union: seq<Entry>, pos: seq<int>, cut: Cut, u: nat, c: int)
    requires RunsOk(runs) && Sorted(union) && (forall e :: e in union <==> FromRuns(runs, e))
    requires AllSplit(runs, pos, 1, cut, -1) && Split(union, u, cut)
    requires 0 <= c < |runs| && ValidAt(runs, pos, c)
    requires forall i ::
      0 <= i < |runs| && ValidAt(runs, pos, i) ==> !Less(runs[c][pos[c]].Key(), runs[i][pos[i]].Key())
    ensures 0 < u && union[u - 1] == runs[c][pos[c]]
  {
    var e := runs[c][pos[c]];
    assert e in runs[c];
    assert FromRuns(runs, e);
    var p :| 0 <= p < |union| && union[p] == e;
    assert Split(runs[c], pos[c] + 1, cut);
    assert p < u;
    assert p < u - 1 ==> Less(union[p].Key(), union[u - 1].Key());
    forall i, q | 0 <= i < |runs| && 0 <= q < |runs[i]| && !cut.Has(runs[i][q].Key())
      ensures !Less(e.Key(), runs[i][q].Key())
    {
      assert Split(runs[i], pos[i] + 1, cut) && ValidAt(runs, pos, i);
      assert q < pos[i] ==> Less(runs[i][q].Key(), runs[i][pos[i]].Key());
    }
    assert union[u - 1] in union;
  }

  lemma NoneIsStart(runs: seq<seq<Entry>>, union: seq<Entry>, pos: seq<int>, cut: Cut, u: nat)
    requires forall e :: e in union <==> FromRuns(runs, e)
    requires AllSplit(runs, pos, 1, cut, -1) && Split(union, u, cut)
    requires forall i :: 0 <= i < |runs| ==> !ValidAt(runs, pos, i)
    ensures u == 0
  {
    forall i | 0 <= i < |runs| ensures Split(runs[i], 0, cut) {
      assert Split(runs[i], pos[i] + 1, cut) && !ValidAt(runs, pos, i);
    }
    forall k | 0 <= k < |union| ensures cut.Has(union[k].Key()) {
      assert union[k] in union;
      var i :| 0 <= i < |runs| && union[k] in runs[i];
      var q :| 0 <= q < |runs[i]| && runs[i][q] == union[k];
    }
    SplitUnique(union, u, 0, cut);
  }

  // Moving from any cut to one just past the key of a child outside or at it.
  lemma RestAfterHead(runs: seq<seq<Entry>>, pos: seq<int>, cut: Cut, c: int)
    requires RunsOk(runs) && AllSplit(runs, pos, 0, cut, -1)
    requires 0 <= c < |runs| && ValidAt(runs, pos, c)
    requires forall i ::
      0 <= i < |runs| && ValidAt(runs, pos, i) ==> !Less(runs[i][pos[i]].Key(), runs[c][pos[c]].Key())
    ensures AllSplit(runs, pos, 0, Past(runs[c][pos[c]].Key()), c)
  {
    var key := runs[c][pos[c]].Key();
    forall i | 0 <= i < |runs| && i != c ensures Split(runs[i], pos[i] + 0, Past(key)) {
      assert Split(runs[i], pos[i] + 0, cut) && Split(runs[c], pos[c] + 0, cut);
      if pos[i] < |runs[i]| {
        assert ValidAt(runs, pos, i);
        assert if i < c then KeysApart(runs[i], runs[c]) else KeysApart(runs[c], runs[i]);
      }
    }
  }

  lemma RestBeforeLast(runs: seq<seq<Entry>>, pos: seq<int>, cut: Cut, c: int)
    requires RunsOk(runs) && AllSplit(runs, pos, 1, cut, -1)
    requires 0 <= c < |runs| && ValidAt(runs, pos, c)
    requires forall i ::
      0 <= i < |runs| && ValidAt(runs, pos, i) ==> !Less(runs[c][pos[c]].Key(), runs[i][pos[i]].Key())
    ensures AllSplit(runs, pos, 1, From(runs[c][pos[c]].Key()), c)
  {
    var key := runs[c][pos[c]].Key();
    forall i | 0 <= i < |runs| && i != c ensures Split(runs[i], pos[i] + 1, From(key)) {
      assert Split(runs[i], pos[i] + 1, cut) && Split(runs[c], pos[c] + 1, cut);
      if 0 <= pos[i] {
        assert ValidAt(runs, pos, i);
        assert if i < c then KeysApart(runs[i], runs[c]) else KeysApart(runs[c], runs[i]);
      }
    }
  }

  // Child iterators are plain positions in a sorted run.
  method SeekRun(es: seq<Entry>, target: InternalKey) returns (p: int)
    requires Sorted(es)
    ensures Split(es, p, From(target))
  {
    p := 0;
    while p < |es| && Less(es[p].Key(), target)
      invariant 0 <= p <= |es|
      invariant forall j :: 0 <= j < p ==> Less(es[j].Key(), target)
    {
      p := p + 1;
    }
  }

  class MergingIterator {
    const runs: seq<seq<Entry>>
    var pos: seq<int>
    var current: int
    var forward: bool
    ghost var at: int

    // The list being walked.
    ghost function Union(): seq<Entry> {
      MergeAll(runs)
    }

    ghost predicate Ok()
      reads this
    {
      RunsOk(runs) && |pos| == |runs| && -1 <= current < |runs| && -1 <= at <= |Union()|
      && (current == -1 <==> at == -1 || at == |Union()|)
      && (current != -1 ==>
            ValidAt(runs, pos, current) && Union()[at] == runs[current][pos[current]]
            && if forward then
                 AllSplit(runs, pos, 0, Past(runs[current][pos[current]].Key()), current)
               else
                 AllSplit(runs, pos, 1, From(runs[current][pos[current]].Key()), current))
    }

    constructor (children: seq<seq<Entry>>)
      requires RunsOk(children)
      ensures Ok() && runs == children && !Valid()
    {
      runs := children;
      pos := seq(|children|, i => -1);
      current := -1;
      forward := true;
      at := -1;
    }

    predicate Valid()
      reads this
    {
      current != -1
    }

    function Current(): Entry
      requires Ok() && Valid()
      reads this
      ensures Current() == Union()[at]
    {
      runs[current][pos[current]]
    }

    method FindSmallest(ghost cut: Cut, ghost u: nat)
      requires RunsOk(runs) && AllSplit(runs, pos, 0, cut, -1) && Split(Union(), u, cut)
      modifies this`current, this`at, this`forward
      ensures Ok() && forward && at == u
    {
      var smallest := -1;
      for i := 0 to |runs|
        invariant -1 <= smallest < i && (smallest != -1 ==> ValidAt(runs, pos, smallest))
        invariant forall j ::
          0 <= j < i && ValidAt(runs, pos, j)
          ==> smallest != -1 && !Less(runs[j][pos[j]].Key(), runs[smallest][pos[smallest]].Key())
      {
        if ValidAt(runs, pos, i) {
          if smallest == -1 || Less(runs[i][pos[i]].Key(), runs[smallest][pos[smallest]].Key()) {
            smallest := i;
          }
        }
      }
      MergeAllMembers(runs);
      MergeAllSorted(runs);
      if smallest != -1 {
        SmallestIsHead(runs, Union(), pos, cut, u, smallest);
        RestAfterHead(runs, pos, cut, smallest);
      } else {
        NoneIsEnd(runs, Union(), pos, cut, u);
      }
      current, forward, at := smallest, true, u;
    }

    method FindLargest(ghost cut: Cut, ghost u: nat)
      requires RunsOk(runs) && AllSplit(runs, pos, 1, cut, -1) && Split(Union(), u, cut)
      modifies this`current, this`at, this`forward
      ensures Ok() && !forward && at == u - 1
    {
      var largest := -1;
      var i := |runs| - 1;
      while i >= 0
        invariant -1 <= i < |runs| && (largest == -1 || i < largest < |runs|)
        invariant largest != -1 ==> ValidAt(runs, pos, largest)
        invariant forall j ::
          i < j < |runs| && ValidAt(runs, pos, j)
          ==> largest != -1 && !Less(runs[largest][pos[largest]].Key(), runs[j][pos[j]].Key())
      {
        if ValidAt(runs, pos, i) {
          if largest == -1 || Less(runs[largest][pos[largest]].Key(), runs[i][pos[i]].Key()) {
            largest := i;
          }
        }
        i := i - 1;
      }
      MergeAllMembers(runs);
      MergeAllSorted(runs);
      if largest != -1 {
        LargestIsLast(runs, Union(), pos, cut, u, largest);
        RestBeforeLast(runs, pos, cut, largest);
      } else {
        NoneIsStart(runs, Union(), pos, cut, u);
      }
      current, forward, at := largest, false, u - 1;
    }

    method SeekToFirst()
      requires Ok()
      modifies this
      ensures Ok() && at == 0
    {
      pos := seq(|runs|, i => 0);
      FindSmallest(Everything, 0);
    }

    method SeekToLast()
      requires Ok()
      modifies this
      ensures Ok() && at == |Union()| - 1
    {
      pos := seq(|runs|, i requires 0 <= i < |runs| => |runs[i]| - 1);
      FindLargest(Nothing, |Union()|);
    }

    method Seek(target: InternalKey)
      requires Ok()
      modifies this
      ensures Ok() && Split(Union(), at, From(target))
    {
      for i := 0 to |runs|
        invariant |pos| == |runs|
        invariant forall j :: 0 <= j < i ==> Split(runs[j], pos[j], From(target))
      {
        var p := SeekRun(runs[i], target);
        pos := pos[i := p];
      }
      MergeAllSorted(runs);
      SplitExists(Union(), target);
      ghost var u: nat :| Split(Union(), u, From(target));
      FindSmallest(From(target), u);
    }

    // Puts every other child just after the current key.
    method AllForward()
      requires Ok() && Valid() && !forward
      modifies this`pos
      ensures |pos| == |runs| && pos[current] == old(pos[current])
      ensures AllSplit(runs, pos, 0, Past(old(Current()).Key()), current)
    {
      var key := Current().Key();
      for i := 0 to |runs|
        invariant |pos| == |runs| && pos[current] == old(pos[current])
        invariant forall j :: 0 <= j < i && j != current ==> Split(runs[j], pos[j], Past(key))
      {
        if i != current {
          assert if i < current then KeysApart(runs[i], runs[current]) else KeysApart(runs[current], runs[i]);
          var p := SeekRun(runs[i], key);
          if p < |runs[i]| && runs[i][p].Key() == key {
            p := p + 1;
          }
          pos := pos[i := p];
        }
      }
    }

    // Puts every other child just before the current key.
    method AllBackward()
      requires Ok() && Valid() && forward
      modifies this`pos
      ensures |pos| == |runs| && pos[current] == old(pos[current])
      ensures AllSplit(runs, pos, 1, From(old(Current()).Key()), current)
    {
      var key := Current().Key();
      for i := 0 to |runs|
        invariant |pos| == |runs| && pos[current] == old(pos[current])
        invariant forall j :: 0 <= j < i && j != current ==> Split(runs[j], pos[j] + 1, From(key))
      {
        if i != current {
          var p := SeekRun(runs[i], key);
          if p < |runs[i]| {
            p := p - 1;
          } else {
            p := |runs[i]| - 1;
          }
          pos := pos[i := p];
        }
      }
    }

    method Next()
      requires Ok() && Valid()
      modifies this
      ensures Ok() && at == old(at) + 1
    {
      var key := Current().Key();
      if !forward {
        AllForward();
        forward := true;
      }
      SplitStep(runs[current], pos[current]);
      MergeAllSorted(runs);
      SplitStep(Union(), at);
      pos := pos[current := pos[current] + 1];
      FindSmallest(Past(key), at + 1);
    }

    method Prev()
      requires Ok() && Valid()
      modifies this
      ensures Ok() && at == old(at) - 1
    {
      var key := Current().Key();
      if forward {
        AllBackward();
        forward := false;
      }
      SplitStep(runs[current], pos[current]);
      MergeAllSorted(runs);
      SplitStep(Union(), at);
      pos := pos[current := pos[current] - 1];
      FindLargest(From(key), at);
    }
  }

  // Any target has its place in a sorted run.
  lemma {:induction false} SplitExists(es: seq<Entry>, target: InternalKey)
    requires Sorted(es)
    ensures exists u: nat :: Split(es, u, From(target))
  {
    if es == [] || !Less(es[|es| - 1].Key(), target) {
      if es == [] {
        assert Split(es, 0, From(target));
      } else {
        var init := es[..|es| - 1];
        SplitExists(init, target);
        var u: nat :| Split(init, u, From(target));
        assert Split(es, u, From(target));
      }
    } else {
      assert Split(es, |es|, From(target));
    }
  }
}
