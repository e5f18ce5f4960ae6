// Applying version edits: VersionSet::Builder, and replaying the manifest (db/version_set.cc).

module VersionBuilder {
  import opened DbFormat
  import opened Versions
  import opened Compactions

  datatype Edit = Edit(deleted: set<(nat, nat)>, added: seq<(nat, File)>)

  ghost predicate EditOk(e: Edit) {
    (forall d :: d in e.deleted ==> d.0 < NUM_LEVELS)
    && forall i :: 0 <= i < |e.added| ==> e.added[i].0 < NUM_LEVELS
  }

  // ---- What one edit means, level by level ----

  ghost function AddedAt(e: Edit, l: nat): set<File> {
    set i | 0 <= i < |e.added| && e.added[i].0 == l :: e.added[i].1
  }

  ghost predicate AddsNumber(e: Edit, l: nat, n: nat) {
    exists f :: f in AddedAt(e, l) && f.number == n
  }

  // The files of a level after an edit: an addition outranks a deletion of the same number.
  ghost function LevelAfter(fs: set<File>, e: Edit, l: nat): set<File> {
    set f | f in fs + AddedAt(e, l) && ((l, f.number) !in e.deleted || AddsNumber(e, l, f.number))
  }

  ghost predicate Applied(v: Version, e: Edit, v': Version) {
    |v.levels| == |v'.levels| == NUM_LEVELS
    && forall l :: 0 <= l < NUM_LEVELS ==>
         FileSet(v'.levels[l]) == LevelAfter(FileSet(v.levels[l]), e, l) && BySmallest(v'.levels[l])
  }

  // ---- Sorted file lists ----

  // A level is determined by its files: only one order is sorted.
  lemma {:induction false} SameSetSameList(a: seq<File>, b: seq<File>)
    requires BySmallest(a) && BySmallest(b) && FileSet(a) == FileSet(b)
    ensures a == b
  {
    assert b != [] ==> b[0] in FileSet(b);
    if a != [] {
      assert a[0] in FileSet(b);
      assert b != [];
      assert b[0] in FileSet(a);
      var i :| 0 <= i < |a| && a[i] == b[0];
      var j :| 0 <= j < |b| && b[j] == a[0];
      FirstLeast(a, i);
      FirstLeast(b, j);
      TailSet(a);
      TailSet(b);
      SameSetSameList(a[1..], b[1..]);
    }
  }

  lemma FirstLeast(fs: seq<File>, i: nat)
    requires BySmallest(fs) && i < |fs|
    ensures i == 0 || FileLess(fs[0], fs[i])
  {
  }

  lemma TailSet(a: seq<File>)
    requires BySmallest(a) && a != []
    ensures FileSet(a[1..]) == FileSet(a) - {a[0]} && BySmallest(a[1..])
  {
    forall i | 1 <= i < |a| ensures a[i] != a[0] {
      assert FileLess(a[0], a[i]);
    }
    assert a == [a[0]] + a[1..];
  }

  // std::set::insert under BySmallestKey: nothing happens if an equivalent file is present.
  method InsertFile(fs: seq<File>, f: File) returns (r: seq<File>)
    requires BySmallest(fs)
    requires forall g :: g in fs && g.number == f.number ==> g == f
    ensures BySmallest(r) && FileSet(r) == FileSet(fs) + {f}
  {
    var p := 0;
    while p < |fs| && FileLess(fs[p], f)
      invariant 0 <= p <= |fs|
      invariant forall i :: 0 <= i < p ==> FileLess(fs[i], f)
    {
      p := p + 1;
    }
    if p < |fs| && !FileLess(f, fs[p]) {
      assert fs[p] in fs;
      return fs;
    }
    forall i | p <= i < |fs| ensures FileLess(f, fs[i]) {
      assert i > p ==> FileLess(fs[p], fs[i]);
    }
    r := fs[..p] + [f] + fs[p..];
    assert fs == fs[..p] + fs[p..];
  }

  // ---- Accumulating edits ----

  ghost function DeletedAfter(edits: seq<Edit>, l: nat): set<nat> {
    if edits == [] then
      {}
    else
      var e := edits[|edits| - 1];
      set n | n in DeletedAfter(edits[..|edits| - 1], l) + DeletedNumbers(e, l) && !AddsNumber(e, l, n)
  }

  ghost function DeletedNumbers(e: Edit, l: nat): set<nat> {
    set d | d in e.deleted && d.0 == l :: d.1
  }

  ghost function AddedAfter(edits: seq<Edit>, l: nat): set<File> {
    if edits == [] then {} else AddedAfter(edits[..|edits| - 1], l) + AddedAt(edits[|edits| - 1], l)
  }

  // What one builder makes of a level.
  ghost function BuiltLevel(fs: set<File>, edits: seq<Edit>, l: nat): set<File> {
    set f | f in fs + AddedAfter(edits, l) && f.number !in DeletedAfter(edits, l)
  }

  // Applying the edits one version at a time.
  ghost function StepwiseLevel(fs: set<File>, edits: seq<Edit>, l: nat): set<File> {
    if edits == [] then fs else LevelAfter(StepwiseLevel(fs, edits[..|edits| - 1], l), edits[|edits| - 1], l)
  }

  // No edit adds a (level, number) pair that the level already had, and numbers name files.
  ghost predicate FreshAdds(fs: set<File>, edits: seq<Edit>, l: nat) {
    if edits == [] then
      UniqueNumbers(fs)
    else
      FreshAdds(fs, edits[..|edits| - 1], l)
      && FreshFor(fs + AddedAfter(edits[..|edits| - 1], l), AddedAt(edits[|edits| - 1], l))
  }

  ghost predicate FreshFor(used: set<File>, more: set<File>) {
    UniqueNumbers(more) && forall f, g :: f in used && g in more ==> f.number != g.number
  }

  // Replay: one builder over all edits equals one version per edit.
  lemma {:induction false} ReplayStepwise(fs: set<File>, edits: seq<Edit>, l: nat)
    requires FreshAdds(fs, edits, l)
    ensures BuiltLevel(fs, edits, l) == StepwiseLevel(fs, edits, l)
  {
    if edits != [] {
      var init, e := edits[..|edits| - 1], edits[|edits| - 1];
      ReplayStepwise(fs, init, l);
      forall f ensures f in BuiltLevel(fs, edits, l) <==> f in LevelAfter(BuiltLevel(fs, init, l), e, l) {
        ReplayOne(fs, init, e, l, f);
      }
    }
  }

  lemma ReplayOne(fs: set<File>, init: seq<Edit>, e: Edit, l: nat, f: File)
    requires FreshFor(fs + AddedAfter(init, l), AddedAt(e, l))
    ensures f in BuiltLevel(fs, init + [e], l) <==> f in LevelAfter(BuiltLevel(fs, init, l), e, l)
  {
    assert (init + [e])[..|init|] == init;
    assert f.number in DeletedNumbers(e, l) <==> (l, f.number) in e.deleted;
    if f in fs + AddedAfter(init, l) {
      assert !AddsNumber(e, l, f.number);
    }
  }

  class Builder {
    const base: Version
    var deleted: seq<set<nat>>
    var added: seq<seq<File>>
    ghost var edits: seq<Edit>

    ghost predicate Ok()
      reads this
    {
      |base.levels| == |deleted| == |added| == NUM_LEVELS
      && forall l :: 0 <= l < NUM_LEVELS ==>
           BySmallest(base.levels[l]) && BySmallest(added[l])
           && deleted[l] == DeletedAfter(edits, l) && FileSet(added[l]) == AddedAfter(edits, l)
    }

    constructor (v: Version)
      requires |v.levels| == NUM_LEVELS && forall l :: 0 <= l < NUM_LEVELS ==> BySmallest(v.levels[l])
      ensures Ok() && base == v && edits == []
    {
      base := v;
      deleted := seq(NUM_LEVELS, i => {});
      added := seq(NUM_LEVELS, i => []);
      edits := [];
    }

    method Apply(e: Edit)
      requires Ok() && EditOk(e)
      requires forall l :: 0 <= l < NUM_LEVELS ==> FreshFor(AddedAfter(edits, l), AddedAt(e, l))
      modifies this
      ensures Ok() && edits == old(edits) + [e]
    {
      ApplyDeletions(e);
      ApplyAdditions(e);
      edits := edits + [e];
      assert edits[..|edits| - 1] == old(edits);
    }

    method ApplyDeletions(e: Edit)
      requires |deleted| == NUM_LEVELS && EditOk(e)
      modifies this`deleted
      ensures |deleted| == NUM_LEVELS
      ensures forall l :: 0 <= l < NUM_LEVELS ==> deleted[l] == old(deleted[l]) + DeletedNumbers(e, l)
    {
      var dels := e.deleted;
      while dels != {}
        invariant |deleted| == NUM_LEVELS && dels <= e.deleted
        invariant forall l :: 0 <= l < NUM_LEVELS ==>
          deleted[l] == old(deleted[l]) + set d | d in e.deleted - dels && d.0 == l :: d.1
        decreases dels
      {
        var d :| d in dels;
        deleted := deleted[d.0 := deleted[d.0] + {d.1}];
        dels := dels - {d};
      }
    }

    method ApplyAdditions(e: Edit)
      requires |deleted| == |added| == NUM_LEVELS && EditOk(e)
      requires forall l :: 0 <= l < NUM_LEVELS ==> BySmallest(added[l]) && FreshFor(FileSet(added[l]), AddedAt(e, l))
      modifies this`deleted, this`added
      ensures |deleted| == |added| == NUM_LEVELS
      ensures forall l :: 0 <= l < NUM_LEVELS ==>
        BySmallest(added[l]) && FileSet(added[l]) == FileSet(old(added[l])) + AddedAt(e, l)
      ensures forall l :: 0 <= l < NUM_LEVELS ==> deleted[l] == set n | n in old(deleted[l]) && !AddsNumber(e, l, n)
    {
      hide BySmallest, FreshFor, NumberUpTo, AddsNumber, Cleared;
      UpToNone(e);
      ClearNone(e, deleted);
      for i := 0 to |e.added|
        invariant |deleted| == |added| == NUM_LEVELS
        invariant forall l :: 0 <= l < NUM_LEVELS ==>
          BySmallest(added[l]) && FileSet(added[l]) == FileSet(old(added[l])) + AddedUpTo(e, l, i)
        invariant forall l :: 0 <= l < NUM_LEVELS ==>
          deleted[l] == Cleared(old(deleted[l]), e, l, i)
      {
        var l, f := e.added[i].0, e.added[i].1;
        UpToStep(e, i);
        InsertClear(old(added[l]), added[l], e, l, i);
        forall m: nat | m < NUM_LEVELS
          ensures Cleared(old(deleted[m]), e, m, i + 1)
               == if m == l then Cleared(old(deleted[m]), e, m, i) - {f.number} else Cleared(old(deleted[m]), e, m, i)
        {
          ClearStep(old(deleted[m]), e, m, i);
        }
        deleted := deleted[l := deleted[l] - {f.number}];
        var r := InsertFile(added[l], f);
        added := added[l := r];
      }
      UpToAll(e);
      ClearAll(e, old(deleted));
    }

    // Merges the surviving base and added files of every level.
    method SaveTo() returns (v: Version)
      requires Ok()
      requires forall l :: 0 <= l < NUM_LEVELS ==> UniqueNumbers(FileSet(base.levels[l]) + AddedAfter(edits, l))
      requires forall l :: 0 <= l < NUM_LEVELS ==> FileSet(base.levels[l]) !! AddedAfter(edits, l)
      ensures |v.levels| == NUM_LEVELS
      ensures forall l :: 0 <= l < NUM_LEVELS ==>
        FileSet(v.levels[l]) == BuiltLevel(FileSet(base.levels[l]), edits, l) && BySmallest(v.levels[l])
    {
      var levels: seq<seq<File>> := [];
      for l := 0 to NUM_LEVELS
        invariant |levels| == l
        invariant forall m :: 0 <= m < l ==>
          FileSet(levels[m]) == BuiltLevel(FileSet(base.levels[m]), edits, m) && BySmallest(levels[m])
      {
        var r := SaveLevel(base.levels[l], added[l], deleted[l]);
        levels := levels + [r];
      }
      v := Version(levels);
    }
  }

  ghost function AddedUpTo(e: Edit, l: nat, n: nat): set<File> {
    set i | 0 <= i < n && i < |e.added| && e.added[i].0 == l :: e.added[i].1
  }

  ghost predicate NumberUpTo(e: Edit, l: nat, n: nat, number: nat) {
    exists f :: f in AddedUpTo(e, l, n) && f.number == number
  }

  // Deleted numbers less those of the first n additions.
  ghost function Cleared(deleted: set<nat>, e: Edit, l: nat, n: nat): set<nat> {
    set k | k in deleted && !NumberUpTo(e, l, n, k)
  }

  lemma ClearStep(deleted: set<nat>, e: Edit, l: nat, i: nat)
    requires i < |e.added|
    ensures Cleared(deleted, e, l, i + 1)
         == if l == e.added[i].0 then Cleared(deleted, e, l, i) - {e.added[i].1.number} else Cleared(deleted, e, l, i)
  {
    hide NumberUpTo;
    UpToStep(e, i);
    var after := Cleared(deleted, e, l, i + 1);
    var number := e.added[i].1.number;
    forall k: nat ensures k in after <==> k in Cleared(deleted, e, l, i) && !(l == e.added[i].0 && k == number) {
      assert NumberUpTo(e, l, i + 1, k) <==> NumberUpTo(e, l, i, k) || (l == e.added[i].0 && k == number);
    }
  }

  lemma ClearNone(e: Edit, deleted: seq<set<nat>>)
    ensures forall l :: 0 <= l < |deleted| ==> Cleared(deleted[l], e, l, 0) == deleted[l]
  {
    hide NumberUpTo;
    UpToNone(e);
  }

  lemma ClearAll(e: Edit, deleted: seq<set<nat>>)
    ensures forall l :: 0 <= l < |deleted| ==>
      Cleared(deleted[l], e, l, |e.added|) == set n | n in deleted[l] && !AddsNumber(e, l, n)
  {
    hide NumberUpTo, AddsNumber;
    UpToAll(e);
  }

  lemma UpToStep(e: Edit, i: nat)
    requires i < |e.added|
    ensures forall l: nat ::
      AddedUpTo(e, l, i + 1) == if l == e.added[i].0 then AddedUpTo(e, l, i) + {e.added[i].1} else AddedUpTo(e, l, i)
    ensures forall l: nat, n: nat ::
      NumberUpTo(e, l, i + 1, n) <==> NumberUpTo(e, l, i, n) || (l == e.added[i].0 && n == e.added[i].1.number)
  {
    hide NumberUpTo;
    forall l: nat
      ensures AddedUpTo(e, l, i + 1) == if l == e.added[i].0 then AddedUpTo(e, l, i) + {e.added[i].1}
        else AddedUpTo(e, l, i)
    {
    }
    forall l: nat, n: nat
      ensures NumberUpTo(e, l, i + 1, n) <==> NumberUpTo(e, l, i, n) || (l == e.added[i].0 && n == e.added[i].1.number)
    {
      NumberStep(e, i, l, n);
    }
  }

  lemma NumberStep(e: Edit, i: nat, l: nat, n: nat)
    requires i < |e.added|
    requires AddedUpTo(e, l, i + 1) == if l == e.added[i].0 then AddedUpTo(e, l, i) + {e.added[i].1}
      else AddedUpTo(e, l, i)
    ensures NumberUpTo(e, l, i + 1, n) <==> NumberUpTo(e, l, i, n) || (l == e.added[i].0 && n == e.added[i].1.number)
  {
    hide AddedUpTo;
    assert e.added[i].1 in AddedUpTo(e, l, i) + {e.added[i].1};
  }

  lemma UpToNone(e: Edit)
    ensures forall l: nat :: AddedUpTo(e, l, 0) == {}
    ensures forall l: nat, n: nat :: !NumberUpTo(e, l, 0, n)
  {
  }

  lemma UpToAll(e: Edit)
    ensures forall l: nat :: AddedUpTo(e, l, |e.added|) == AddedAt(e, l)
    ensures forall l: nat, n: nat :: NumberUpTo(e, l, |e.added|, n) <==> AddsNumber(e, l, n)
  {
    assert forall l: nat :: AddedUpTo(e, l, |e.added|) == AddedAt(e, l);
  }

  lemma InsertClear(before: seq<File>, now: seq<File>, e: Edit, l: nat, i: nat)
    requires i < |e.added| && e.added[i].0 == l
    requires FileSet(now) == FileSet(before) + AddedUpTo(e, l, i)
    requires FreshFor(FileSet(before), AddedAt(e, l))
    ensures forall g :: g in now && g.number == e.added[i].1.number ==> g == e.added[i].1
  {
    var f := e.added[i].1;
    assert f in AddedAt(e, l);
    forall g | g in now && g.number == f.number ensures g == f {
      assert g in FileSet(now);
      assert g in AddedUpTo(e, l, i) ==> g in AddedAt(e, l);
    }
  }

  // Where a merge of two sorted lists stands: everything emitted precedes everything left.
  ghost predicate Merging(base: seq<File>, added: seq<File>, deleted: set<nat>, i: nat, j: nat, out: seq<File>) {
    i <= |base| && j <= |added| && BySmallest(out)
    && (forall f :: f in FileSet(out) <==> f in FileSet(base[..i]) + FileSet(added[..j]) && f.number !in deleted)
    && (forall o, p :: 0 <= o < |out| && i <= p < |base| ==> FileLess(out[o], base[p]))
    && forall o, p :: 0 <= o < |out| && j <= p < |added| ==> FileLess(out[o], added[p])
  }

  lemma TakeBase(base: seq<File>, added: seq<File>, deleted: set<nat>, i: nat, j: nat, out: seq<File>)
    requires Merging(base, added, deleted, i, j, out) && i < |base| && BySmallest(base) && BySmallest(added)
    requires j < |added| ==> FileLess(base[i], added[j])
    ensures Merging(base, added, deleted, i + 1, j, if base[i].number in deleted then out else out + [base[i]])
  {
    assert base[..i + 1] == base[..i] + [base[i]];
    forall p | j < p < |added| ensures FileLess(base[i], added[p]) {
      assert FileLess(added[j], added[p]);
    }
  }

  lemma TakeAdded(base: seq<File>, added: seq<File>, deleted: set<nat>, i: nat, j: nat, out: seq<File>)
    requires Merging(base, added, deleted, i, j, out) && j < |added| && BySmallest(base) && BySmallest(added)
    requires i < |base| ==> FileLess(added[j], base[i])
    ensures Merging(base, added, deleted, i, j + 1, if added[j].number in deleted then out else out + [added[j]])
  {
    assert added[..j + 1] == added[..j] + [added[j]];
    forall p | i < p < |base| ensures FileLess(added[j], base[p]) {
      assert FileLess(base[i], base[p]);
    }
  }

  // SaveTo for one level: base files up to each added file, then the rest.
  method SaveLevel(base: seq<File>, added: seq<File>, deleted: set<nat>) returns (out: seq<File>)
    requires BySmallest(base) && BySmallest(added)
    requires UniqueNumbers(FileSet(base) + FileSet(added)) && FileSet(base) !! FileSet(added)
    ensures BySmallest(out)
    ensures FileSet(out) == set f | f in FileSet(base) + FileSet(added) && f.number !in deleted
  {
    out := [];
    var i := 0;
    for j := 0 to |added|
      invariant Merging(base, added, deleted, i, j, out)
    {
      while i < |base| && !FileLess(added[j], base[i])
        invariant Merging(base, added, deleted, i, j, out)
      {
        assert base[i] in FileSet(base) && added[j] in FileSet(added);
        TakeBase(base, added, deleted, i, j, out);
        out := if base[i].number in deleted then out else out + [base[i]];
        i := i + 1;
      }
      TakeAdded(base, added, deleted, i, j, out);
      out := if added[j].number in deleted then out else out + [added[j]];
    }
    while i < |base|
      invariant Merging(base, added, deleted, i, |added|, out)
    {
      TakeBase(base, added, deleted, i, |added|, out);
      out := if base[i].number in deleted then out else out + [base[i]];
      i := i + 1;
    }
    assert base[..|base|] == base && added[..|added|] == added;
  }
}
