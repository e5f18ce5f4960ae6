// From log bytes to entries.

module Replaying {
  // From the bytes of a log file to the entries recovery puts back, and from a group commit to the log file
  // (DBImpl::RecoverLogFile, DBImpl::Write, WriteBatchInternal::InsertInto).

  import opened DbFormat
  import opened Coding
  import opened Versions
  import opened KeyEmbedding
  import opened Installing
  import opened Recovery
  import W = WriteBatch
  import G = GroupCommit
  import LogFormat
  import LogCrash
  import LogReplay

  // ---- Operations and batches as the store sees them ----

  function OpFor(op: W.Op): WriteOp {
    match op
    case PutOp(key, value) => WriteOp(Rank(key), Some(value))
    case DeleteOp(key) => WriteOp(Rank(key), None)
  }

  function OpsFor(ops: seq<W.Op>): (r: seq<WriteOp>)
    ensures |r| == |ops| && forall i :: 0 <= i < |ops| ==> r[i] == OpFor(ops[i])
  {
    seq(|ops|, i requires 0 <= i < |ops| => OpFor(ops[i]))
  }

  // Numbers a logged batch may carry: from 1, all of them sequence numbers.
  predicate Numberable(b: LogReplay.Logged) {
    1 <= b.sn && b.sn - 1 + |b.ops| <= MAX_SEQUENCE
  }

  function BatchFor(b: LogReplay.Logged): Batch
    requires Numberable(b)
  {
    Batch(b.sn - 1, OpsFor(b.ops))
  }

  function BatchesFor(bs: seq<LogReplay.Logged>): (r: seq<Batch>)
    requires forall i :: 0 <= i < |bs| ==> Numberable(bs[i])
    ensures |r| == |bs| && forall i :: 0 <= i < |bs| ==> r[i] == BatchFor(bs[i])
  {
    seq(|bs|, i requires 0 <= i < |bs| => BatchFor(bs[i]))
  }

  lemma BatchesPrefix(bs: seq<LogReplay.Logged>, w: nat)
    requires w <= |bs| && forall i :: 0 <= i < |bs| ==> Numberable(bs[i])
    ensures BatchesFor(bs[..w]) == BatchesFor(bs)[..w]
  {
  }

  // The value of a key after operations: what the last one on it put, nothing if that was a deletion.
  function ValueAfter(ops: seq<W.Op>, key: Bytes, before: Option<Bytes>): Option<Bytes> {
    if ops == [] then
      before
    else
      match ops[|ops| - 1]
      case PutOp(k, value) => if k == key then Some(value) else ValueAfter(ops[..|ops| - 1], key, before)
      case DeleteOp(k) => if k == key then None else ValueAfter(ops[..|ops| - 1], key, before)
  }

  // The operations of all batches, in order.
  function AllOps(bs: seq<LogReplay.Logged>): seq<W.Op> {
    if bs == [] then [] else AllOps(bs[..|bs| - 1]) + bs[|bs| - 1].ops
  }

  lemma {:induction false} OutcomeIs(ops: seq<W.Op>, key: Bytes, before: Option<Bytes>)
    ensures Outcome(OpsFor(ops), Rank(key), before) == ValueAfter(ops, key, before)
  {
    hide Rank;
    if ops != [] {
      var init := ops[..|ops| - 1];
      assert OpsFor(ops)[..|ops| - 1] == OpsFor(init);
      OutcomeIs(init, key, before);
      RankSame(ops[|ops| - 1].key, key);
    }
  }

  lemma {:induction false} ValueAfterConcat(a: seq<W.Op>, b: seq<W.Op>, key: Bytes, before: Option<Bytes>)
    ensures ValueAfter(a + b, key, before) == ValueAfter(b, key, ValueAfter(a, key, before))
  {
    if b == [] {
      assert a + b == a;
    } else {
      ValueAfterConcat(a, b[..|b| - 1], key, before);
      assert (a + b)[..|a + b| - 1] == a + b[..|b| - 1];
    }
  }

  lemma {:induction false} LogOutcomeIs(bs: seq<LogReplay.Logged>, key: Bytes, before: Option<Bytes>)
    requires forall i :: 0 <= i < |bs| ==> Numberable(bs[i])
    ensures LogOutcome(BatchesFor(bs), Rank(key), before) == ValueAfter(AllOps(bs), key, before)
  {
    hide Rank, ValueAfter, Outcome, OpFor;
    if bs == [] {
      assert ValueAfter([], key, before) == before by { NoOpsAfter(key, before); }
    } else {
      var k := |bs| - 1;
      BatchesPrefix(bs, k);
      LogOutcomeIs(bs[..k], key, before);
      OutcomeIs(bs[k].ops, key, ValueAfter(AllOps(bs[..k]), key, before));
      ValueAfterConcat(AllOps(bs[..k]), bs[k].ops, key, before);
    }
  }

  lemma NoOpsAfter(key: Bytes, before: Option<Bytes>)
    ensures ValueAfter([], key, before) == before
  {
  }

  // A log file cut at any byte and given to RecoverLogFile: what is replayed is exactly the batches whole in
  // the cut file, the first Whole(...) of the log.
  method ReplayFile(bs: seq<LogReplay.Logged>, n: nat, tables0: seq<File>, first: nat, full: seq<Entry> -> bool,
                    sizeOf: seq<Entry> -> nat, maxSequence0: nat, ghost lo0: nat, ghost E0: set<Entry>)
    returns (tables: seq<File>, maxSequence: nat, ghost w: nat)
    requires forall i :: 0 <= i < |bs| ==> LogReplay.Loggable(bs[i]) && Numberable(bs[i])
    requires n <= |LogFormat.Records(LogReplay.Encoded(bs), 0)| && LogOk(BatchesFor(bs))
    requires Replayed(tables0, [], first, lo0, lo0, E0) && (bs != [] ==> lo0 <= BatchesFor(bs)[0].base)
    ensures w == LogCrash.Whole(LogReplay.Encoded(bs), 0, n) && w <= |bs| && LogOk(BatchesFor(bs)[..w])
    ensures maxSequence == Max(maxSequence0, LogEnd(BatchesFor(bs)[..w], 0))
    ensures Replayed(tables, [], first, LogEnd(BatchesFor(bs)[..w], lo0), LogEnd(BatchesFor(bs)[..w], lo0),
                     E0 + LogEntries(BatchesFor(bs)[..w]))
    ensures OneWrite(E0) ==> ReadsAsWritten(bs[..w], LogEnd(BatchesFor(bs)[..w], lo0), E0, EntriesOf(FileSet(tables)))
  {
    hide LogReplay.Loggable, LogReplay.Encoded, LogFormat.Records, LogCrash.Whole, Replayed, LogEnd, LogEntries,
      LogOk, BatchFor;
    var back, clean, drops := LogReplay.CrashAndReplay(bs, n);
    w := LogCrash.Whole(LogReplay.Encoded(bs), 0, n);
    BatchesPrefix(bs, w);
    LogPart(BatchesFor(bs), w);
    tables, maxSequence := RecoverLogFile(BatchesFor(back), tables0, first, full, sizeOf, maxSequence0, lo0, E0);
    if OneWrite(E0) {
      AsWritten(back, LogEnd(BatchesFor(back), lo0), E0, EntriesOf(FileSet(tables)));
    }
  }

  // Read at t, every key holds in F what the operations of the batches make of what it holds in E.
  ghost predicate ReadsAsWritten(bs: seq<LogReplay.Logged>, t: nat, E: set<Entry>, F: set<Entry>) {
    forall key: Bytes :: Read(F, Rank(key), t) == ValueAfter(AllOps(bs), key, Read(E, Rank(key), t))
  }

  lemma AsWritten(bs: seq<LogReplay.Logged>, t: nat, E: set<Entry>, F: set<Entry>)
    requires forall i :: 0 <= i < |bs| ==> Numberable(bs[i])
    requires forall k: UserKey :: Read(F, k, t) == LogOutcome(BatchesFor(bs), k, Read(E, k, t))
    ensures ReadsAsWritten(bs, t, E, F)
  {
    hide Read, Rank, BatchFor, LogOutcome, AllOps, ValueAfter;
    forall key: Bytes ensures Read(F, Rank(key), t) == ValueAfter(AllOps(bs), key, Read(E, Rank(key), t)) {
      LogOutcomeIs(bs, key, Read(E, Rank(key), t));
    }
  }

  // ---- Group commit ----

  // The record of a group, as the batch its bytes spell.
  function LoggedFor(r: G.Record): LogReplay.Logged {
    LogReplay.Logged(r.base + 1, r.ops)
  }

  function LoggedAll(log: seq<G.Record>): (r: seq<LogReplay.Logged>)
    ensures |r| == |log| && forall i :: 0 <= i < |log| ==> r[i] == LoggedFor(log[i])
  {
    seq(|log|, i requires 0 <= i < |log| => LoggedFor(log[i]))
  }

  // What MemTableInserter adds for the bytes of one batch.
  ghost function Inserted(rep: Bytes): set<Entry> {
    if |rep| < W.HEADER || W.SequenceOf(rep) == 0 then {}
    else
      var ops := OpsFor(W.Parse(rep).0);
      var base := W.SequenceOf(rep) - 1;
      set i: nat | i < |ops| && base + 1 + i <= MAX_SEQUENCE :: Stamp(ops[i], base + 1 + i)
  }

  ghost function InsertedAll(reps: seq<Bytes>): set<Entry> {
    if reps == [] then {} else InsertedAll(reps[..|reps| - 1]) + Inserted(reps[|reps| - 1])
  }

  lemma InsertedIs(b: LogReplay.Logged)
    requires LogReplay.Loggable(b) && Numberable(b)
    ensures Inserted(W.BatchBytes(b.sn, b.ops)) == BatchEntries(BatchFor(b))
  {
    hide W.Parse, W.SequenceOf, W.BatchBytes, Stamp;
    W.BatchRoundTrip(b.sn, b.ops);
    var E := Inserted(W.BatchBytes(b.sn, b.ops));
    var ops := OpsFor(b.ops);
    assert BatchEntries(BatchFor(b)) == Stamped(ops, b.sn - 1, |ops|);
    forall e ensures e in E <==> e in Stamped(ops, b.sn - 1, |ops|) {
      if e in E {
        var i: nat :| i < |ops| && b.sn + i <= MAX_SEQUENCE && e == Stamp(ops[i], b.sn - 1 + 1 + i);
        assert e in Stamped(ops, b.sn - 1, |ops|);
      }
      if e in Stamped(ops, b.sn - 1, |ops|) {
        var i :| 0 <= i < |ops| && e == Stamp(ops[i], b.sn - 1 + 1 + i);
      }
    }
  }

  // The batches of a log hold what inserting their bytes puts into the memtable.
  lemma {:induction false} LogIsInserted(bs: seq<LogReplay.Logged>)
    requires forall i :: 0 <= i < |bs| ==> LogReplay.Loggable(bs[i]) && Numberable(bs[i])
    requires LogOk(BatchesFor(bs))
    ensures LogEntries(BatchesFor(bs)) == InsertedAll(LogReplay.Encoded(bs))
  {
    hide LogReplay.Loggable, Inserted, W.BatchBytes, BatchEntries, BatchFor;
    if bs != [] {
      var k := |bs| - 1;
      BatchesPrefix(bs, k);
      LogPart(BatchesFor(bs), k);
      LogIsInserted(bs[..k]);
      LogReplay.EncodedPrefix(bs, k);
      InsertedIs(bs[k]);
      assert LogReplay.Encoded(bs)[k] == W.BatchBytes(bs[k].sn, bs[k].ops);
    }
  }

  lemma StampedConcat(a: seq<WriteOp>, b: seq<WriteOp>)
    requires |a| + |b| <= MAX_SEQUENCE
    ensures Stamped(a + b, 0, |a| + |b|) == Stamped(a, 0, |a|) + Stamped(b, |a|, |b|)
  {
    hide Stamp;
    var all := Stamped(a + b, 0, |a| + |b|);
    forall e ensures e in all <==> e in Stamped(a, 0, |a|) || e in Stamped(b, |a|, |b|) {
      if e in all {
        var i :| 0 <= i < |a| + |b| && e == Stamp((a + b)[i], 0 + 1 + i);
        if i < |a| {
          assert e == Stamp(a[i], 0 + 1 + i);
        } else {
          assert e == Stamp(b[i - |a|], |a| + 1 + (i - |a|));
        }
      }
      if e in Stamped(a, 0, |a|) {
        var i :| 0 <= i < |a| && e == Stamp(a[i], 0 + 1 + i);
        assert (a + b)[i] == a[i];
        assert e == Stamp((a + b)[i], 0 + 1 + i);
      }
      if e in Stamped(b, |a|, |b|) {
        var i :| 0 <= i < |b| && e == Stamp(b[i], |a| + 1 + i);
        assert (a + b)[|a| + i] == b[i];
        assert e == Stamp((a + b)[|a| + i], 0 + 1 + (|a| + i));
      }
    }
  }

  // Records numbered without a gap, as a log and as one list of operations.
  ghost predicate Gapless(log: seq<G.Record>) {
    |G.LogOps(log)| <= MAX_SEQUENCE
    && forall i :: 0 <= i < |log| ==> log[i].base == |G.LogOps(log[..i])|
  }

  lemma {:induction false} OpsGrow(log: seq<G.Record>, i: nat)
    requires i <= |log|
    ensures |G.LogOps(log[..i])| <= |G.LogOps(log)|
    ensures i < |log| ==> |G.LogOps(log[..i])| + |log[i].ops| <= |G.LogOps(log)|
  {
    if i < |log| {
      var init := log[..|log| - 1];
      if i < |init| {
        OpsGrow(init, i);
        assert init[..i] == log[..i];
      } else {
        assert log[..i] == init;
      }
    } else {
      assert log[..i] == log;
    }
  }

  lemma GaplessPrefix(log: seq<G.Record>, w: nat)
    requires Gapless(log) && w <= |log|
    ensures Gapless(log[..w])
  {
    OpsGrow(log, w);
    forall i | 0 <= i < w ensures log[..w][i].base == |G.LogOps(log[..w][..i])| {
      assert log[..w][..i] == log[..i];
    }
  }

  lemma GaplessBounds(log: seq<G.Record>)
    requires Gapless(log)
    ensures forall i :: 0 <= i < |log| ==> Numberable(LoggedAll(log)[i])
    ensures LogOk(BatchesFor(LoggedAll(log)))
  {
    hide G.LogOps, OpFor;
    forall i | 0 <= i < |log| ensures log[i].base + |log[i].ops| <= MAX_SEQUENCE {
      OpsGrow(log, i);
    }
    forall i, j | 0 <= i < j < |log| ensures log[i].base + |log[i].ops| <= log[j].base {
      OpsGrow(log[..j], i);
      assert log[..j][..i] == log[..i];
    }
  }

  // The entries of such a log are its operations numbered from 1.
  lemma {:induction false} GaplessEntries(log: seq<G.Record>)
    requires Gapless(log) && (forall i :: 0 <= i < |log| ==> Numberable(LoggedAll(log)[i]))
    requires LogOk(BatchesFor(LoggedAll(log)))
    ensures var ops := OpsFor(G.LogOps(log)); LogEntries(BatchesFor(LoggedAll(log))) == Stamped(ops, 0, |ops|)
  {
    hide LogOk, Stamped, Gapless, Numberable, BatchFor, BatchEntries;
    if log == [] {
      assert LogEntries(BatchesFor(LoggedAll(log))) == {};
      NothingStamped();
      assert OpsFor(G.LogOps(log)) == [];
    } else {
      var k := |log| - 1;
      var bs := BatchesFor(LoggedAll(log));
      GaplessPrefix(log, k);
      GaplessBounds(log[..k]);
      GaplessEntries(log[..k]);
      assert bs[..k] == BatchesFor(LoggedAll(log[..k]));
      LogPart(bs, k);
      LastRecord(log);
    }
  }

  lemma LogOpsLast(log: seq<G.Record>)
    requires log != []
    ensures G.LogOps(log) == G.LogOps(log[..|log| - 1]) + log[|log| - 1].ops
  {
  }

  lemma LastRecord(log: seq<G.Record>)
    requires Gapless(log) && log != [] && Numberable(LoggedFor(log[|log| - 1]))
    ensures var init, last := OpsFor(G.LogOps(log[..|log| - 1])), log[|log| - 1];
      var ops := OpsFor(G.LogOps(log));
      |init| <= |ops| <= MAX_SEQUENCE
      && BatchFor(LoggedFor(last)).base + |BatchFor(LoggedFor(last)).ops| <= MAX_SEQUENCE
      && Stamped(ops, 0, |ops|) == Stamped(init, 0, |init|) + BatchEntries(BatchFor(LoggedFor(last)))
  {
    hide Stamped, OpFor, G.LogOps;
    var k := |log| - 1;
    var a, b := OpsFor(G.LogOps(log[..k])), OpsFor(log[k].ops);
    LogOpsLast(log);
    assert OpsFor(G.LogOps(log)) == a + b;
    StampedConcat(a, b);
    assert log[k].base == |a|;
  }

  lemma NothingStamped()
    ensures Stamped([], 0, 0) == {}
  {
  }

  // The log file of a run of group commits without I/O faults, cut at any byte: replaying it puts back
  // exactly the first operations of the successful calls, in order of arrival and numbered from 1; for the
  // whole file, exactly what inserting the batches put into the memtable.
  method CommitsReplayed(q: G.Queue, n: nat, ghost trace: seq<G.Queue>, ghost t: nat)
    returns (back: seq<LogReplay.Logged>, ghost m: nat)
    requires G.Run(trace) && t < |trace| && trace[t] == q && q.faults == 0 && q.lastSequence <= MAX_SEQUENCE
    requires forall i :: 0 <= i < |q.log| ==> LogReplay.Loggable(LoggedFor(q.log[i]))
    requires n <= |LogFormat.Records(LogReplay.Encoded(LoggedAll(q.log)), 0)|
    ensures forall i :: 0 <= i < |back| ==> Numberable(back[i])
    ensures m <= |G.Written(q.completed)| <= MAX_SEQUENCE && LogOk(BatchesFor(back))
    ensures LogEntries(BatchesFor(back)) == Stamped(OpsFor(G.Written(q.completed)), 0, m)
    ensures forall key: Bytes ::
      Read(LogEntries(BatchesFor(back)), Rank(key), m) == ValueAfter(G.Written(q.completed)[..m], key, None)
    ensures n == |LogFormat.Records(LogReplay.Encoded(LoggedAll(q.log)), 0)| ==>
      m == |G.Written(q.completed)|
      && LogEntries(BatchesFor(back)) == InsertedAll(LogReplay.Encoded(LoggedAll(q.applied)))
  {
    hide G.Run, G.Written, LogReplay.Loggable, LogFormat.Records, LogReplay.Encoded, LogCrash.Whole, LogOk, Stamped,
      LogEntries, Gapless;
    G.ReplayIsCommits(trace, t);
    var bs := LoggedAll(q.log);
    var clean, drops;
    back, clean, drops := LogReplay.CrashAndReplay(bs, n);
    ghost var w := LogCrash.Whole(LogReplay.Encoded(bs), 0, n);
    assert Gapless(q.log) by { IsGapless(q.log); }
    GaplessPrefix(q.log, w);
    assert LoggedAll(q.log[..w]) == back;
    GaplessBounds(q.log[..w]);
    GaplessEntries(q.log[..w]);
    OpsGrow(q.log, w);
    m := |G.LogOps(q.log[..w])|;
    StampedFront(q.log, w);
    StampedReads(G.Written(q.completed), m);
    if n == |LogFormat.Records(LogReplay.Encoded(bs), 0)| {
      WholeFile(LogReplay.Encoded(bs), n);
      assert q.log[..w] == q.log;
      LogIsInserted(bs);
    }
  }

  // The first m operations, stamped from 1, read as they were written.
  lemma StampedReads(ops: seq<W.Op>, m: nat)
    requires m <= |ops| <= MAX_SEQUENCE
    ensures forall key: Bytes :: Read(Stamped(OpsFor(ops), 0, m), Rank(key), m) == ValueAfter(ops[..m], key, None)
  {
    hide Stamped, Outcome, OpFor, Rank, ValueAfter;
    forall key: Bytes ensures Read(Stamped(OpsFor(ops), 0, m), Rank(key), m) == ValueAfter(ops[..m], key, None) {
      ReadStamped({}, OpsFor(ops), 0, m, Rank(key));
      assert {} + Stamped(OpsFor(ops), 0, m) == Stamped(OpsFor(ops), 0, m);
      assert OpsFor(ops)[..m] == OpsFor(ops[..m]);
      NewestNone({}, Rank(key), 0);
      OutcomeIs(ops[..m], key, None);
    }
  }

  lemma IsGapless(log: seq<G.Record>)
    requires |G.LogOps(log)| <= MAX_SEQUENCE && forall i :: 0 <= i < |log| ==> log[i].base == |G.LogOps(log[..i])|
    ensures Gapless(log)
  {
  }

  // All records are whole in the whole file.
  lemma {:induction false} WholeFile(rs: seq<Bytes>, n: nat)
    requires n == |LogFormat.Records(rs, 0)|
    ensures LogCrash.Whole(rs, 0, n) == |rs|
  {
    hide LogFormat.Records, LogCrash.Whole;
    if rs != [] {
      LogCrash.WholeCounts(rs, 0, n, |rs| - 1);
      assert rs[..|rs| - 1 + 1] == rs;
    }
  }

  lemma StampedFront(log: seq<G.Record>, w: nat)
    requires w <= |log| && |G.LogOps(log)| <= MAX_SEQUENCE
    ensures var ops, all := OpsFor(G.LogOps(log[..w])), OpsFor(G.LogOps(log));
      |ops| <= |all| && Stamped(ops, 0, |ops|) == Stamped(all, 0, |ops|)
  {
    OpsFront(log, w);
    var ops, all := OpsFor(G.LogOps(log[..w])), OpsFor(G.LogOps(log));
    hide Stamp;
    assert forall i :: 0 <= i < |ops| ==> ops[i] == all[i];
  }

  lemma {:induction false} OpsFront(log: seq<G.Record>, w: nat)
    requires w <= |log|
    ensures G.LogOps(log[..w]) <= G.LogOps(log)
  {
    if w < |log| {
      OpsFront(log[..|log| - 1], w);
      assert log[..|log| - 1][..w] == log[..w];
    } else {
      assert log[..w] == log;
    }
  }
}
