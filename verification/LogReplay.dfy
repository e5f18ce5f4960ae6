// Batches through the log.

module LogReplay {
  // What RecoverLogFile gets out of a log file cut by a crash
  // (db/db_impl.cc, db/write_batch.cc, db/log_writer.cc, db/log_reader.cc).

  import opened DbFormat
  import opened Coding
  import opened WriteBatch
  import opened LogFile
  import LogFormat
  import LogCrash
  import LogLayout

  datatype Logged = Logged(sn: nat, ops: seq<Op>)

  predicate Loggable(b: Logged) {
    AllFit(b.ops) && b.sn < 0x1_0000_0000_0000_0000 && |b.ops| < 0x8000_0000
  }

  function Encoded(bs: seq<Logged>): (r: seq<Bytes>)
    ensures |r| == |bs|
  {
    seq(|bs|, i requires 0 <= i < |bs| => BatchBytes(bs[i].sn, bs[i].ops))
  }

  // Every record of a log file, in order.
  method ReadLog(contents: Bytes) returns (records: seq<Bytes>, drops: seq<LogFormat.Drop>)
    ensures (records, drops) == LogFormat.ReadAll(contents, 0)
  {
    hide LogFormat.ReadFrom, LogLayout.Spelled;
    var reader := new Reader(contents);
    records := [];
    ghost var tail := LogFormat.ReadAll(contents, 0);
    assert records + tail.0 == tail.0 && reader.drops + tail.1 == tail.1;
    while true
      invariant reader.Ok() && fresh(reader) && reader.file == contents
      invariant LogFormat.ReadAll(contents, 0) ==
        (records + LogFormat.ReadAll(contents, reader.At()).0,
         reader.drops + LogFormat.ReadAll(contents, reader.At()).1)
      decreases |contents| - reader.At()
    {
      ghost var before, p := reader.drops, reader.At();
      ghost var rest := LogFormat.ReadAll(contents, p);
      ReadAllTurn(contents, p);
      var ok, record := reader.ReadRecord();
      if !ok {
        assert records + [] == records;
        return records, reader.drops;
      }
      ghost var next := LogFormat.ReadAll(contents, reader.At());
      assert records + ([record] + next.0) == (records + [record]) + next.0;
      ghost var more := LogFormat.ReadFrom(contents, p, false, [], 0).drops;
      assert before + (more + next.1) == (before + more) + next.1;
      records := records + [record];
    }
  }

  lemma ReadAllTurn(f: Bytes, p: nat)
    requires p <= |f|
    ensures var one := LogFormat.ReadFrom(f, p, false, [], 0);
      LogFormat.ReadAll(f, p) ==
      if one.record.None? then ([], one.drops)
      else ([one.record.value] + LogFormat.ReadAll(f, one.next).0, one.drops + LogFormat.ReadAll(f, one.next).1)
  {
    hide LogFormat.ReadFrom;
  }

  // AddRecord for each batch of a fresh log.
  method WriteLog(bs: seq<Logged>) returns (contents: Bytes)
    requires forall i :: 0 <= i < |bs| ==> Loggable(bs[i])
    ensures contents == LogFormat.Records(Encoded(bs), 0)
  {
    hide LogFormat.Encode, BatchBytes, Loggable, LogLayout.Laid;
    var writer := new Writer([]);
    assert Encoded(bs[..0]) == [];
    for i := 0 to |bs|
      invariant writer.Ok() && fresh(writer) && writer.dest == LogFormat.Records(Encoded(bs[..i]), 0)
    {
      var rep := MakeBatch(bs[i]);
      writer.AddRecord(rep);
      assert Encoded(bs[..i + 1]) == Encoded(bs[..i]) + [BatchBytes(bs[i].sn, bs[i].ops)];
      LogFormat.RecordsAppend(Encoded(bs[..i]), BatchBytes(bs[i].sn, bs[i].ops), 0);
    }
    assert bs[..|bs|] == bs;
    contents := writer.dest;
  }

  // A batch built by the client's calls and numbered by DBImpl::Write.
  method MakeBatch(b: Logged) returns (rep: Bytes)
    requires Loggable(b)
    ensures rep == BatchBytes(b.sn, b.ops)
  {
    hide OpsBytes, EncodeFixed;
    var batch := new Batch();
    for i := 0 to |b.ops|
      invariant batch.Ok() && fresh(batch) && batch.ops == b.ops[..i]
    {
      assert b.ops[..i + 1] == b.ops[..i] + [b.ops[i]];
      match b.ops[i]
      case PutOp(key, value) => batch.Put(key, value);
      case DeleteOp(key) => batch.Delete(key);
    }
    assert b.ops[..|b.ops|] == b.ops;
    batch.SetSequence(b.sn);
    rep := batch.rep;
  }

  // What RecoverLogFile makes of any records: what each hands to the memtable, and whether none was
  // corrupt.  Errors are ignored, as without paranoid checks.
  function Decoded(records: seq<Bytes>): (seq<Logged>, bool) {
    if records == [] then ([], true)
    else
      var init, rep := Decoded(records[..|records| - 1]), records[|records| - 1];
      if |rep| < HEADER then (init.0, false)
      else (init.0 + [Logged(SequenceOf(rep), Parse(rep).0)], init.1 && Parse(rep).1.Done?)
  }

  method DecodeBatches(records: seq<Bytes>) returns (bs: seq<Logged>, clean: bool)
    ensures (bs, clean) == Decoded(records)
  {
    hide Parse, SequenceOf;
    bs, clean := [], true;
    for i := 0 to |records|
      invariant (bs, clean) == Decoded(records[..i])
    {
      assert records[..i + 1][..i] == records[..i];
      if |records[i]| < HEADER {
        clean := false;
        continue;
      }
      var ops, end := Iterate(records[i]);
      bs := bs + [Logged(SequenceOf(records[i]), ops)];
      clean := clean && end == Done;
    }
    assert records[..|records|] == records;
  }

  lemma {:induction false} DecodeRoundTrip(bs: seq<Logged>)
    requires forall i :: 0 <= i < |bs| ==> Loggable(bs[i])
    ensures Decoded(Encoded(bs)) == (bs, true)
  {
    hide Parse, SequenceOf, BatchBytes;
    if bs != [] {
      var last := bs[|bs| - 1];
      assert Encoded(bs)[..|bs| - 1] == Encoded(bs[..|bs| - 1]);
      DecodeRoundTrip(bs[..|bs| - 1]);
      BatchRoundTrip(last.sn, last.ops);
      assert Encoded(bs)[|bs| - 1] == BatchBytes(last.sn, last.ops);
      assert bs == bs[..|bs| - 1] + [Logged(last.sn, last.ops)];
    }
  }

  // A log written, cut at any byte, read back and decoded: exactly the batches whole in the cut
  // file come back, and nothing is reported.
  method CrashAndReplay(bs: seq<Logged>, n: nat) returns (back: seq<Logged>, clean: bool, drops: seq<LogFormat.Drop>)
    requires forall i :: 0 <= i < |bs| ==> Loggable(bs[i])
    requires n <= |LogFormat.Records(Encoded(bs), 0)|
    ensures back == bs[..LogCrash.Whole(Encoded(bs), 0, n)] && clean && drops == []
  {
    hide LogFormat.Records, LogFormat.ReadAll, Loggable, Encoded, LogCrash.Whole;
    var contents := WriteLog(bs);
    var records;
    records, drops := ReadLog(contents[..n]);
    assert contents[..n][0..] == contents[..n];
    LogCrash.CrashSafe(Encoded(bs), contents[..n], 0);
    var w := LogCrash.Whole(Encoded(bs), 0, n);
    EncodedPrefix(bs, w);
    DecodeRoundTrip(bs[..w]);
    back, clean := DecodeBatches(records);
  }

  lemma EncodedPrefix(bs: seq<Logged>, w: nat)
    requires w <= |bs|
    ensures Encoded(bs)[..w] == Encoded(bs[..w])
  {
  }
}
