// Where a compaction cuts its output into files.

module OutputCuts {
  // Compaction::ShouldStopBefore and the two places of DBImpl::DoCompactionWork that finish an output file.

  import opened DbFormat
  import opened Versions
  import opened Compactions
  import opened Selection

  // The bytes of the files that end in [a, b): what an output running from a to b spans of them.
  ghost function Crossed(fs: seq<File>, a: InternalKey, b: InternalKey): nat {
    if fs == [] then
      0
    else
      var g := fs[|fs| - 1];
      Crossed(fs[..|fs| - 1], a, b) + if !Less(g.Largest(), a) && Less(g.Largest(), b) then g.size else 0
  }

  // The files under an output level.
  ghost function Under(v: Version, level: nat): seq<File> {
    if level + 2 < |v.levels| then v.levels[level + 2] else []
  }

  // An output spans no more of the files below than allowed and was not full before its end.
  ghost predicate Fits(fs: seq<File>, limit: nat, full: seq<Entry> -> bool, run: seq<Entry>)
    requires run != []
  {
    Crossed(fs, run[0].Key(), run[|run| - 1].Key()) <= limit && forall n :: 0 < n < |run| ==> !full(run[..n])
  }

  // Why an output ends before the next key: it is full, or going on to some key after it would span too much.
  ghost predicate EndsBefore(fs: seq<File>, limit: nat, full: seq<Entry> -> bool, run: seq<Entry>, next: InternalKey)
    requires run != []
  {
    full(run)
    || exists a, b :: Less(run[|run| - 1].Key(), b) && !Less(next, b) && Crossed(fs, a, b) > limit
  }

  // Outputs are cut as large as allowed and no earlier than needed.
  ghost predicate WellCut(fs: seq<File>, limit: nat, full: seq<Entry> -> bool, outs: seq<File>) {
    (forall i :: 0 <= i < |outs| ==> Fits(fs, limit, full, outs[i].run))
    && forall i :: 0 <= i < |outs| - 1 ==> EndsBefore(fs, limit, full, outs[i].run, outs[i + 1].Smallest())
  }

  // The same with a file being built, when the merge has come to the key `at`.
  ghost predicate CutSoFar(fs: seq<File>, limit: nat, full: seq<Entry> -> bool, outs: seq<File>, builder: seq<Entry>,
                           at: InternalKey) {
    WellCut(fs, limit, full, outs)
    && (if builder == [] then
          outs == [] || EndsBefore(fs, limit, full, outs[|outs| - 1].run, at)
        else
          Fits(fs, limit, full, builder) && !full(builder) && !Less(at, builder[|builder| - 1].Key())
          && (outs == [] || EndsBefore(fs, limit, full, outs[|outs| - 1].run, builder[0].Key())))
  }

  lemma {:induction false} CrossedNone(fs: seq<File>, a: InternalKey, b: InternalKey)
    requires !Less(a, b)
    ensures Crossed(fs, a, b) == 0
  {
    if fs != [] {
      CrossedNone(fs[..|fs| - 1], a, b);
    }
  }

  // A shorter stretch crosses less.
  lemma {:induction false} CrossedLess(fs: seq<File>, a: InternalKey, b: InternalKey, a2: InternalKey, b2: InternalKey)
    requires !Less(a2, a) && !Less(b, b2)
    ensures Crossed(fs, a2, b2) <= Crossed(fs, a, b)
  {
    if fs != [] {
      CrossedLess(fs[..|fs| - 1], a, b, a2, b2);
    }
  }

  // Between keys of a range, only files overlapping the range are crossed.
  lemma {:induction false} CrossedOverlapping(fs: seq<File>, lo: UserKey, hi: UserKey, a: InternalKey, b: InternalKey)
    ensures Crossed(Overlapping(fs, Some(lo), Some(hi)), a, b) <= Crossed(fs, a, b)
    ensures lo <= a.user && b.user <= hi ==> Crossed(Overlapping(fs, Some(lo), Some(hi)), a, b) == Crossed(fs, a, b)
  {
    if fs != [] {
      var init, g := fs[..|fs| - 1], fs[|fs| - 1];
      CrossedOverlapping(init, lo, hi, a, b);
      FileBounds(g, g.run[0]);
      var found := Overlapping(init, Some(lo), Some(hi));
      assert (found + [g])[..|found|] == found && found + [] == found;
    }
  }

  // Files in order, of which exactly the first n end before b: those crossed are among them.
  lemma {:induction false} CrossedCursor(fs: seq<File>, a: InternalKey, b: InternalKey, n: nat)
    requires n <= |fs| && forall i :: n <= i < |fs| ==> !Less(fs[i].Largest(), b)
    ensures Crossed(fs, a, b) == Crossed(fs[..n], a, b)
    decreases |fs|
  {
    if n < |fs| {
      CrossedCursor(fs[..|fs| - 1], a, b, n);
      assert fs[..|fs| - 1][..n] == fs[..n];
    } else {
      assert fs[..n] == fs;
    }
  }

  lemma CrossedNext(fs: seq<File>, a: InternalKey, b: InternalKey, n: nat)
    requires n < |fs| && !Less(fs[n].Largest(), a) && Less(fs[n].Largest(), b)
    ensures Crossed(fs[..n + 1], a, b) == Crossed(fs[..n], a, b) + fs[n].size
  {
    assert fs[..n + 1][..n] == fs[..n];
  }

  lemma {:induction false} CrossedBefore(fs: seq<File>, a: InternalKey, b: InternalKey, b2: InternalKey)
    requires forall i :: 0 <= i < |fs| ==> Less(fs[i].Largest(), b) && Less(fs[i].Largest(), b2)
    ensures Crossed(fs, a, b) == Crossed(fs, a, b2)
  {
    if fs != [] {
      CrossedBefore(fs[..|fs| - 1], a, b, b2);
    }
  }

  // ---- Keeping the cuts ----

  lemma EndsLater(fs: seq<File>, limit: nat, full: seq<Entry> -> bool, run: seq<Entry>, next: InternalKey,
                  later: InternalKey)
    requires run != [] && EndsBefore(fs, limit, full, run, next) && !Less(later, next)
    ensures EndsBefore(fs, limit, full, run, later)
  {
    if !full(run) {
      var a, b :| Less(run[|run| - 1].Key(), b) && !Less(next, b) && Crossed(fs, a, b) > limit;
      assert !Less(later, b);
    }
  }

  // The merge comes to a later key that does not stop the output.
  lemma Passes(fs: seq<File>, limit: nat, full: seq<Entry> -> bool, outs: seq<File>, builder: seq<Entry>,
               at: InternalKey, key: InternalKey)
    requires CutSoFar(fs, limit, full, outs, builder, at) && Less(at, key)
    ensures CutSoFar(fs, limit, full, outs, builder, key)
  {
    if builder == [] && outs != [] {
      EndsLater(fs, limit, full, outs[|outs| - 1].run, at, key);
    }
  }

  // The output being built is finished.
  lemma Closes(fs: seq<File>, limit: nat, full: seq<Entry> -> bool, outs: seq<File>, builder: seq<Entry>, f: File)
    requires WellCut(fs, limit, full, outs) && builder != [] && f.run == builder && Fits(fs, limit, full, builder)
    requires outs == [] || EndsBefore(fs, limit, full, outs[|outs| - 1].run, builder[0].Key())
    ensures WellCut(fs, limit, full, outs + [f])
  {
    var all := outs + [f];
    forall i | 0 <= i < |all| - 1 ensures EndsBefore(fs, limit, full, all[i].run, all[i + 1].Smallest()) {
      if i < |outs| - 1 {
        assert EndsBefore(fs, limit, full, outs[i].run, outs[i + 1].Smallest());
      }
    }
  }

  // An entry at the current key is written.
  lemma Grown(fs: seq<File>, limit: nat, full: seq<Entry> -> bool, outs: seq<File>, builder: seq<Entry>, e: Entry,
              since: InternalKey)
    requires CutSoFar(fs, limit, full, outs, builder, e.Key()) && Crossed(fs, since, e.Key()) <= limit
    requires builder != [] ==> !Less(builder[0].Key(), since)
    ensures WellCut(fs, limit, full, outs) && Fits(fs, limit, full, builder + [e])
    ensures outs == [] || EndsBefore(fs, limit, full, outs[|outs| - 1].run, (builder + [e])[0].Key())
    ensures !full(builder + [e]) ==> CutSoFar(fs, limit, full, outs, builder + [e], e.Key())
  {
    if builder == [] {
      CrossedNone(fs, e.Key(), e.Key());
    } else {
      CrossedLess(fs, since, e.Key(), builder[0].Key(), e.Key());
      forall n | 0 < n < |builder + [e]| ensures !full((builder + [e])[..n]) {
        assert (builder + [e])[..n] == if n == |builder| then builder else builder[..n];
      }
    }
  }
}
