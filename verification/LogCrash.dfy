// Crash safety of the log.

module LogCrash {
  // From any byte prefix of what the writer produced, the reader
  // gets exactly the records that are whole in it, and reports nothing.

  import opened DbFormat
  import opened Coding
  import opened LogFormat

  // A whole physical record at the front of a buffer.
  lemma ParseWhole(kind: byte, payload: Bytes, rest: Bytes, eof: bool)
    requires |payload| <= 0xffff && FULL <= kind <= LAST
    ensures Parse(Physical(kind, payload) + rest, eof) == Phys(kind, payload, HEADER + |payload|, [])
  {
    hide CrcMatches, CrcBytes;
    var buf := Physical(kind, payload) + rest;
    assert buf[..4] == CrcBytes(kind, payload);
    assert buf[4] == |payload| % 256 && buf[5] == |payload| / 256 && buf[6] == kind;
    assert buf[HEADER..HEADER + |payload|] == payload;
    CrcAccepted(kind, payload);
  }

  // A physical record cut anywhere after its header, at the end of the file.
  lemma ParseCut(kind: byte, payload: Bytes, n: nat)
    requires |payload| <= 0xffff && HEADER <= n < HEADER + |payload|
    ensures Parse(Physical(kind, payload)[..n], true) == Phys(EOF, [], n, [])
  {
    hide CrcMatches, CrcBytes;
  }

  // A whole fragment is read back.
  lemma FragmentWhole(f: Bytes, p: nat, kind: byte, payload: Bytes)
    requires |payload| <= Avail(p) && FULL <= kind <= LAST
    requires p + |Fragment(p, kind, payload)| <= |f|
      && f[p..p + |Fragment(p, kind, payload)|] == Fragment(p, kind, payload)
    ensures PhysAt(f, p) == Phys(kind, payload, |Fragment(p, kind, payload)|, [])
  {
    hide Physical, Parse, Pad;
    var start := p + Pad(p);
    var end := Least(BlockEnd(start), |f|);
    var n := HEADER + |payload|;
    assert start + n <= end;
    var frag := Fragment(p, kind, payload);
    assert f[start..start + n] == f[p..p + |frag|][Pad(p)..] == Physical(kind, payload);
    assert f[start..end] == Physical(kind, payload) + f[start + n..end];
    ParseWhole(kind, payload, f[start + n..end], BlockEnd(start) > |f|);
  }

  // A fragment cut anywhere reads as the end of the file.
  lemma FragmentCut(f: Bytes, p: nat, kind: byte, payload: Bytes)
    requires |payload| <= Avail(p) && p <= |f| < p + |Fragment(p, kind, payload)|
    requires f[p..] == Fragment(p, kind, payload)[..|f| - p]
    ensures PhysAt(f, p) == Phys(EOF, [], |f| - p, [])
  {
    hide Physical, Parse, Pad;
    var start := p + Pad(p);
    if start + HEADER <= |f| {
      var n := |f| - start;
      assert f[start..] == f[p..][Pad(p)..];
      assert f[start..] == Physical(kind, payload)[..n];
      assert BlockEnd(start) > |f|;
      assert f[start..Least(BlockEnd(start), |f|)] == f[start..];
      ParseCut(kind, payload, n);
    }
  }

  // One fragment taken by the reassembly loop.
  lemma ReadStep(f: Bytes, p: nat, begin: bool, end: bool, payload: Bytes, used: nat, scratch: Bytes, from: int)
    requires p <= |f| && PhysAt(f, p) == Phys(KindOf(begin, end), payload, used, [])
    ensures var s := if begin then payload else scratch + payload;
      var o := if begin then p + used - HEADER - |payload| else from;
      ReadFrom(f, p, !begin, scratch, from)
        == if end then Logical(Some(s), o, p + used, []) else Reporting([], ReadFrom(f, p + used, true, s, o))
  {
    hide PhysAt;
  }

  lemma ReadEnd(f: Bytes, p: nat, inFragment: bool, scratch: Bytes, from: int)
    requires p <= |f| && PhysAt(f, p).kind == EOF && PhysAt(f, p).drops == []
    ensures ReadFrom(f, p, inFragment, scratch, from).record == None
    ensures ReadFrom(f, p, inFragment, scratch, from).drops == []
  {
    hide PhysAt;
  }

  lemma EncodeStep(r: Bytes, at: nat, begin: bool)
    ensures var n := Piece(r, at);
      var head := Fragment(at, KindOf(begin, n == |r|), r[..n]);
      Encode(r, at, begin) == if n == |r| then head else head + Encode(r[n..], at + |head|, false)
  {
  }

  // A whole record, or the whole rest of one, is reassembled.
  lemma {:induction false} RecordWhole(f: Bytes, p: nat, r: Bytes, begin: bool, scratch: Bytes, from: int)
    requires var bs := Encode(r, p, begin); p + |bs| <= |f| && f[p..p + |bs|] == bs
    ensures var l := ReadFrom(f, p, !begin, scratch, from);
      l.record == Some(if begin then r else scratch + r) && l.next == p + |Encode(r, p, begin)| && l.drops == []
      && l.offset == if begin then p + Pad(p) else from
    decreases |r|, if Avail(p) == 0 then 1 else 0
  {
    hide Encode, Fragment, PhysAt, Pad, Avail, ReadFrom, KindOf;
    EncodeStep(r, p, begin);
    var n := Piece(r, p);
    var kind := KindOf(begin, n == |r|);
    var head := Fragment(p, kind, r[..n]);
    var bs := Encode(r, p, begin);
    assert f[p..p + |head|] == head by {
      assert f[p..p + |head|] == f[p..p + |bs|][..|head|];
    }
    FragmentWhole(f, p, kind, r[..n]);
    ReadStep(f, p, begin, n == |r|, r[..n], |head|, scratch, from);
    if n == |r| {
      assert r[..n] == r;
    } else {
      NextBlock(p);
      var q := p + |head|;
      var rest := Encode(r[n..], q, false);
      assert f[q..q + |rest|] == f[p..p + |bs|][|head|..] == rest;
      var s := if begin then r[..n] else scratch + r[..n];
      RecordWhole(f, q, r[n..], false, s, if begin then p + Pad(p) else from);
      assert s + r[n..] == if begin then r else scratch + r;
    }
  }

  // A record cut anywhere is dropped silently.
  lemma {:induction false} RecordCut(f: Bytes, p: nat, r: Bytes, begin: bool, scratch: Bytes, from: int)
    requires p <= |f| < p + |Encode(r, p, begin)| && f[p..] == Encode(r, p, begin)[..|f| - p]
    ensures var l := ReadFrom(f, p, !begin, scratch, from); l.record == None && l.drops == []
    decreases |r|, if Avail(p) == 0 then 1 else 0
  {
    hide Encode, Fragment, PhysAt, Pad, Avail, ReadFrom, KindOf;
    EncodeStep(r, p, begin);
    var n := Piece(r, p);
    var kind := KindOf(begin, n == |r|);
    var head := Fragment(p, kind, r[..n]);
    var bs := Encode(r, p, begin);
    if |f| < p + |head| {
      assert f[p..] == head[..|f| - p];
      FragmentCut(f, p, kind, r[..n]);
      ReadEnd(f, p, !begin, scratch, from);
    } else {
      NextBlock(p);
      var q := p + |head|;
      assert f[p..q] == head by {
        assert f[p..q] == f[p..][..|head|];
      }
      FragmentWhole(f, p, kind, r[..n]);
      ReadStep(f, p, begin, n == |r|, r[..n], |head|, scratch, from);
      var rest := Encode(r[n..], q, false);
      assert f[q..] == f[p..][|head|..];
      assert f[q..] == rest[..|f| - q];
      RecordCut(f, q, r[n..], false, if begin then r[..n] else scratch + r[..n], if begin then p + Pad(p) else from);
    }
  }

  // How many of the records written from `at` on are whole in the first n bytes.
  function Whole(rs: seq<Bytes>, at: nat, n: nat): (w: nat)
    ensures w <= |rs|
    decreases |rs|
  {
    if rs == [] || n < |Encode(rs[0], at, true)| then 0
    else 1 + Whole(rs[1..], at + |Encode(rs[0], at, true)|, n - |Encode(rs[0], at, true)|)
  }

  // A record is counted exactly when its last byte is in the prefix.
  lemma {:induction false} WholeCounts(rs: seq<Bytes>, at: nat, n: nat, i: nat)
    requires i < |rs|
    ensures i < Whole(rs, at, n) <==> |Records(rs[..i + 1], at)| <= n
    decreases |rs|
  {
    hide Encode;
    var head := Encode(rs[0], at, true);
    assert rs[..i + 1][1..] == rs[1..][..i];
    if n >= |head| && i > 0 {
      WholeCounts(rs[1..], at + |head|, n - |head|, i - 1);
    }
  }

  // Any prefix of the log, from the start to a cut anywhere, gives exactly its whole records.
  lemma {:induction false} CrashSafe(rs: seq<Bytes>, f: Bytes, p: nat)
    requires p <= |f| <= p + |Records(rs, p)| && f[p..] == Records(rs, p)[..|f| - p]
    ensures ReadAll(f, p) == (rs[..Whole(rs, p, |f| - p)], [])
    decreases |rs|
  {
    hide Encode, ReadFrom;
    if rs == [] {
      AtEnd(f);
    } else {
      var head := Encode(rs[0], p, true);
      var tail := Records(rs[1..], p + |head|);
      if |f| - p < |head| {
        assert f[p..] == head[..|f| - p];
        RecordCut(f, p, rs[0], true, [], 0);
      } else {
        var q := p + |head|;
        assert f[p..q] == f[p..][..|head|] == head;
        RecordWhole(f, p, rs[0], true, [], 0);
        assert f[q..] == f[p..][|head|..] == tail[..|f| - q];
        CrashSafe(rs[1..], f, q);
        ReadAllStep(f, p);
        var one := ReadFrom(f, p, false, [], 0);
        assert one.next == q && one.drops + ReadAll(f, q).1 == [];
        assert [rs[0]] + rs[1..][..Whole(rs[1..], q, |f| - q)] == rs[..Whole(rs, p, |f| - p)];
      }
    }
  }

  lemma ReadAllStep(f: Bytes, p: nat)
    requires p <= |f| && ReadFrom(f, p, false, [], 0).record.Some?
    ensures var one := ReadFrom(f, p, false, [], 0);
      var tail := ReadAll(f, one.next);
      ReadAll(f, p) == ([one.record.value] + tail.0, one.drops + tail.1)
  {
    hide ReadFrom;
  }

  lemma AtEnd(f: Bytes)
    ensures ReadFrom(f, |f|, false, [], 0) == Logical(None, 0, |f|, [])
  {
    hide Parse;
  }

  // The whole log reads back as what was written.
  lemma RoundTrip(rs: seq<Bytes>)
    ensures ReadAll(Records(rs, 0), 0) == (rs, [])
  {
    hide Records, ReadAll, Whole, Encode;
    var f := Records(rs, 0);
    assert f[0..] == f == f[..|f|];
    CrashSafe(rs, f, 0);
    if rs != [] {
      WholeCounts(rs, 0, |f|, |rs| - 1);
    }
    assert rs[..|rs|] == rs;
  }
}
