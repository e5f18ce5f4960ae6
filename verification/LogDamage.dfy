// What a damaged block costs.

module LogDamage {
  // A bad fragment in a log file costs the rest of its block and the record it breaks, and nothing else
  // (db/log_reader.cc).

  import opened DbFormat
  import opened Coding
  import opened LogFormat
  import opened LogCrash
  import opened LogLayout
  import Crc32c

  // End of the 32 kB block a position is in.
  function EndOf(p: nat): (r: nat)
    ensures p < r
  {
    p - p % 32768 + 32768
  }

  // In a whole block, a header whose length runs over the end of the block, or whose checksum is not that of the
  // type and the payload.
  ghost predicate BadFragment(f: Bytes, p: nat, why: Reason) {
    p % 32768 + 7 <= 32768 && EndOf(p) <= |f|
    && var n := (f[p + 4] as nat) + 0x100 * (f[p + 5] as nat);
    if p + 7 + n > EndOf(p) then
      why == BadLength
    else
      why == ChecksumMismatch && (n > 0 || f[p + 6] != 0)
      && Word32(f[p], f[p + 1], f[p + 2], f[p + 3]) as bv32
         != Masked(Crc32c.Simple(0, Bits([f[p + 6]] + f[p + 7..p + 7 + n])))
  }

  lemma BadParse(f: Bytes, p: nat, why: Reason)
    requires BadFragment(f, p, why)
    ensures Parse(f[p..EndOf(p)], EndOf(p) > |f|) == Phys(BAD, [], EndOf(p) - p, [Drop(EndOf(p) - p, why)])
  {
    hide CrcMatches, Crc32c.Simple, Masked, Word32;
    var buf := f[p..EndOf(p)];
    var n := (f[p + 4] as nat) + 0x100 * (f[p + 5] as nat);
    assert buf[4] == f[p + 4] && buf[5] == f[p + 5] && buf[6] == f[p + 6];
    if p + 7 + n <= EndOf(p) {
      Slice(f, p, buf, 7, 7 + n);
      if CrcMatches(buf[..4], buf[6], buf[7..7 + n]) {
        StoredMatches(buf[..4], buf[6], buf[7..7 + n]);
      }
    }
  }

  lemma BadPhys(f: Bytes, p: nat, why: Reason)
    requires BadFragment(f, p, why)
    ensures PhysAt(f, p) == Phys(BAD, [], EndOf(p) - p, [Drop(EndOf(p) - p, why)])
  {
    hide Parse, Masked, Word32, Crc32c.Simple;
    BadParse(f, p, why);
  }

  // From a bad fragment reading goes on at the end of its block, with the rest of the block reported, and what was
  // put together so far given up and reported too.
  lemma BadSkipsBlock(f: Bytes, p: nat, why: Reason, inFragment: bool, scratch: Bytes, from: int)
    requires BadFragment(f, p, why)
    ensures ReadFrom(f, p, inFragment, scratch, from) ==
      Reporting([Drop(EndOf(p) - p, why)] + if inFragment then [Drop(|scratch|, ErrorInMiddle)] else [],
                ReadFrom(f, EndOf(p), false, if inFragment then [] else scratch, from))
  {
    hide PhysAt, BadFragment;
    BadPhys(f, p, why);
    assert [Drop(EndOf(p) - p, why)] + [] == [Drop(EndOf(p) - p, why)];
  }

  // ---- Fragments that are whole, fill and ends ----

  // A fragment with the right checksum inside its block.
  ghost predicate Intact(f: Bytes, p: nat, kind: byte, payload: Bytes) {
    IsFragment(f, p, kind, payload) && p % 32768 + 7 + |payload| <= 32768 && (kind != 0 || payload != [])
  }

  lemma MatchesStored(stored: Bytes, kind: byte, payload: Bytes)
    requires |stored| == 4
    requires Word32(stored[0], stored[1], stored[2], stored[3]) as bv32 ==
      Masked(Crc32c.Simple(0, Bits([kind] + payload)))
    ensures CrcMatches(stored, kind, payload)
  {
    hide DecodeFixed, Crc32c.Simple, Crc32c.Unmask, Masked, Word32;
    FixedWord(stored);
    SameMask(Crc32c.Simple(0, Bits([kind] + payload)));
    Crc32c.MaskRoundTrip(Crc32c.Simple(0, Bits([kind] + payload)));
  }

  lemma IntactParse(f: Bytes, p: nat, end: nat, eof: bool, kind: byte, payload: Bytes)
    requires IsFragment(f, p, kind, payload) && p + 7 + |payload| <= end <= |f| && (kind != 0 || payload != [])
    ensures Parse(f[p..end], eof) == Phys(kind, payload, 7 + |payload|, [])
  {
    hide CrcMatches, Crc32c.Simple, Masked, Word32;
    var buf := f[p..end];
    assert forall i :: 0 <= i < 7 ==> buf[i] == f[p + i];
    Slice(f, p, buf, 7, 7 + |payload|);
    MatchesStored(buf[..4], kind, payload);
  }

  lemma IntactPhys(f: Bytes, p: nat, kind: byte, payload: Bytes)
    requires Intact(f, p, kind, payload)
    ensures p <= |f| && PhysAt(f, p) == Phys(kind, payload, 7 + |payload|, [])
  {
    hide Parse, Masked, Word32, Crc32c.Simple;
    IntactParse(f, p, Least(EndOf(p), |f|), EndOf(p) > |f|, kind, payload);
  }

  // What each type of fragment does to the record being put together, in its place and out of it.
  lemma IntactRead(f: Bytes, p: nat, kind: byte, payload: Bytes, scratch: Bytes, from: int)
    requires Intact(f, p, kind, payload)
    ensures p + 7 + |payload| <= |f|
    ensures var next := p + 7 + |payload|;
      var partial := if scratch != [] then [Drop(|scratch|, PartialWithoutEnd)] else [];
      var outside, inside := ReadFrom(f, p, false, scratch, from), ReadFrom(f, p, true, scratch, from);
      (kind == 1 ==> outside == Logical(Some(payload), p, next, []) && inside == outside.(drops := partial))
      && (kind == 2 ==>
            outside == ReadFrom(f, next, true, payload, p) && inside == Reporting(partial, outside))
      && (kind == 3 || kind == 4 ==>
            outside == Reporting([Drop(|payload|, MissingStart)], ReadFrom(f, next, false, scratch, from)))
      && (kind == 3 ==> inside == ReadFrom(f, next, true, scratch + payload, from))
      && (kind == 4 ==> inside == Logical(Some(scratch + payload), from, next, []))
      && (kind == 0 || kind > 6 ==>
            outside == Reporting([Drop(|payload|, UnknownType)], ReadFrom(f, next, false, [], from))
            && inside == Reporting([Drop(|payload| + |scratch|, UnknownType)], ReadFrom(f, next, false, [], from)))
  {
    hide PhysAt, Intact;
    IntactPhys(f, p, kind, payload);
    ReportingNone(ReadFrom(f, p + 7 + |payload|, true, payload, p));
    ReportingNone(ReadFrom(f, p + 7 + |payload|, true, scratch + payload, from));
    assert forall ds: seq<Drop> :: [] + ds == ds && ds + [] == ds;
  }

  lemma ReportingNone(l: Logical)
    ensures Reporting([], l) == l
  {
    assert [] + l.drops == l.drops;
  }

  lemma FillParse(f: Bytes, p: nat, end: nat, eof: bool)
    requires p + 7 <= end <= |f| && f[p + 4] == f[p + 5] == f[p + 6] == 0
    ensures Parse(f[p..end], eof) == Phys(BAD, [], end - p, [])
  {
    hide CrcMatches;
    var buf := f[p..end];
    assert buf[4] == f[p + 4] && buf[5] == f[p + 5] && buf[6] == f[p + 6];
  }

  lemma FillPhys(f: Bytes, p: nat)
    requires p + 7 <= Least(EndOf(p), |f|) && f[p + 4] == f[p + 5] == f[p + 6] == 0
    ensures PhysAt(f, p) == Phys(BAD, [], Least(EndOf(p), |f|) - p, [])
  {
    hide Parse;
    FillParse(f, p, Least(EndOf(p), |f|), EndOf(p) > |f|);
  }

  lemma SilentBad(f: Bytes, p: nat, next: nat, scratch: Bytes, from: int)
    requires p <= next <= |f| && PhysAt(f, p) == Phys(BAD, [], next - p, [])
    ensures ReadFrom(f, p, false, scratch, from) == ReadFrom(f, next, false, scratch, from)
    ensures ReadFrom(f, p, true, scratch, from) ==
      Reporting([Drop(|scratch|, ErrorInMiddle)], ReadFrom(f, next, false, [], from))
  {
    hide PhysAt;
    assert [] + [Drop(|scratch|, ErrorInMiddle)] == [Drop(|scratch|, ErrorInMiddle)];
    ReportingNone(ReadFrom(f, next, false, scratch, from));
  }

  // A block's rest that starts like fill, length and type zero, is passed over without a report on it.
  lemma FillPassed(f: Bytes, p: nat, scratch: Bytes, from: int)
    requires p + 7 <= Least(EndOf(p), |f|) && f[p + 4] == f[p + 5] == f[p + 6] == 0
    ensures var next := Least(EndOf(p), |f|);
      ReadFrom(f, p, false, scratch, from) == ReadFrom(f, next, false, scratch, from)
      && ReadFrom(f, p, true, scratch, from) ==
         Reporting([Drop(|scratch|, ErrorInMiddle)], ReadFrom(f, next, false, [], from))
  {
    hide PhysAt, EndOf, Least, ReadFrom;
    FillPhys(f, p);
    SilentBad(f, p, Least(EndOf(p), |f|), scratch, from);
  }

  // A header or a payload that the end of the file cuts off is no error: the writer may have died there.
  lemma CutIsEnd(f: Bytes, p: nat, inFragment: bool, scratch: Bytes, from: int)
    requires p % 32768 + 7 <= 32768 && p <= |f| < EndOf(p)
    requires p + 7 <= |f| ==> p + 7 + ((f[p + 4] as nat) + 0x100 * (f[p + 5] as nat)) > |f|
    ensures ReadFrom(f, p, inFragment, scratch, from) == Logical(None, from, |f|, [])
  {
    assert PhysAt(f, p) == Phys(EOF, [], |f| - p, []);
    hide PhysAt;
  }

  // ---- The rest of a record whose start is lost ----

  // The reports on the fragments of the rest of a record.
  function Orphans(r: Bytes, at: nat): (ds: seq<Drop>)
    decreases |r|, if Avail(at) == 0 then 1 else 0
  {
    var n := Piece(r, at);
    if n == |r| then [Drop(n, MissingStart)]
    else
      NextBlock(at);
      [Drop(n, MissingStart)] + Orphans(r[n..], at + |Fragment(at, MIDDLE, r[..n])|)
  }

  lemma OrphanStep(f: Bytes, p: nat, kind: byte, payload: Bytes, used: nat)
    requires p <= |f| && PhysAt(f, p) == Phys(kind, payload, used, []) && MIDDLE <= kind <= LAST
    ensures ReadFrom(f, p, false, [], 0) ==
      Reporting([Drop(|payload|, MissingStart)], ReadFrom(f, p + used, false, [], 0))
  {
    hide PhysAt;
    assert [] + [Drop(|payload|, MissingStart)] == [Drop(|payload|, MissingStart)];
  }

  lemma ReportingTwice(a: seq<Drop>, b: seq<Drop>, l: Logical)
    ensures Reporting(a, Reporting(b, l)) == Reporting(a + b, l)
  {
    assert a + (b + l.drops) == a + b + l.drops;
  }

  // Reading passes over it.
  lemma {:induction false} RestSkipped(f: Bytes, p: nat, r: Bytes)
    requires var bs := Encode(r, p, false); p + |bs| <= |f| && f[p..p + |bs|] == bs
    ensures ReadFrom(f, p, false, [], 0) ==
      Reporting(Orphans(r, p), ReadFrom(f, p + |Encode(r, p, false)|, false, [], 0))
    decreases |r|, if Avail(p) == 0 then 1 else 0
  {
    hide Encode, Physical, PhysAt, Pad, Avail, ReadFrom, Reporting;
    EncodeStep(r, p, false);
    var n := Piece(r, p);
    var kind := KindOf(false, n == |r|);
    var head := Fragment(p, kind, r[..n]);
    var bs := Encode(r, p, false);
    assert f[p..p + |head|] == head by {
      assert f[p..p + |head|] == f[p..p + |bs|][..|head|];
    }
    FragmentWhole(f, p, kind, r[..n]);
    OrphanStep(f, p, kind, r[..n], |head|);
    if n < |r| {
      NextBlock(p);
      var q := p + |head|;
      var rest := Encode(r[n..], q, false);
      assert f[q..q + |rest|] == f[p..p + |bs|][|head|..] == rest;
      RestSkipped(f, q, r[n..]);
      ReportingTwice([Drop(n, MissingStart)], Orphans(r[n..], q), ReadFrom(f, q + |rest|, false, [], 0));
    }
  }

  // ---- Fragments of a record and where they start ----

  // A fragment of r, laid out from `at` on, starts at p.
  predicate StartsAt(r: Bytes, at: nat, p: nat)
    decreases |r|, if Avail(at) == 0 then 1 else 0
  {
    var n := Piece(r, at);
    p == at + Pad(at) || (n < |r| && (NextBlock(at); StartsAt(r[n..], at + Pad(at) + HEADER + n, p)))
  }

  // How many bytes of r are in the fragments before that one.
  function TakenBefore(r: Bytes, at: nat, p: nat): (k: nat)
    requires StartsAt(r, at, p)
    ensures k <= |r|
    decreases |r|, if Avail(at) == 0 then 1 else 0
  {
    if p == at + Pad(at) then 0
    else
      var n := Piece(r, at);
      NextBlock(at);
      n + TakenBefore(r[n..], at + Pad(at) + HEADER + n, p)
  }

  lemma PhysPad(f: Bytes, at: nat)
    requires at + Pad(at) <= |f|
    ensures PhysAt(f, at) == PhysAt(f, at + Pad(at)).(used := Pad(at) + PhysAt(f, at + Pad(at)).used)
  {
    hide Parse;
    assert Pad(at + Pad(at)) == 0;
  }

  // Whatever is in the bytes before a block's end that are too few for a header, they are passed over.
  lemma PadSkipped(f: Bytes, at: nat, inFragment: bool, scratch: Bytes, from: int)
    requires at + Pad(at) <= |f|
    ensures ReadFrom(f, at, inFragment, scratch, from) == ReadFrom(f, at + Pad(at), inFragment, scratch, from)
  {
    hide PhysAt, Pad;
    PhysPad(f, at);
  }

  lemma SplitAt(f: Bytes, at: nat, p: nat, head: Bytes, rest: Bytes)
    requires at + |head| <= p <= |f| && p <= at + |head + rest| && f[at..p] == (head + rest)[..p - at]
    ensures var q := at + |head|; f[at..q] == head && f[q..p] == rest[..p - q]
  {
    var q := at + |head|;
    assert f[at..q] == f[at..p][..|head|];
    assert f[q..p] == f[at..p][|head|..];
  }

  // The first fragment of several is taken.
  lemma FirstPiece(f: Bytes, at: nat, r: Bytes, begin: bool, scratch: Bytes, from: int)
    requires Piece(r, at) < |r|
    requires var head := Fragment(at, KindOf(begin, false), r[..Piece(r, at)]);
      at + |head| <= |f| && f[at..at + |head|] == head
    ensures var n := Piece(r, at);
      var q := at + Pad(at) + HEADER + n;
      ReadFrom(f, at, !begin, scratch, from) ==
      ReadFrom(f, q, true, if begin then r[..n] else scratch + r[..n], if begin then q - HEADER - n else from)
  {
    hide Physical, PhysAt, Pad, Avail, ReadFrom, Reporting, KindOf;
    var n := Piece(r, at);
    var q := at + Pad(at) + HEADER + n;
    FragmentWhole(f, at, KindOf(begin, false), r[..n]);
    ReadStep(f, at, begin, false, r[..n], q - at, scratch, from);
    ReportingNone(
      ReadFrom(f, q, true, if begin then r[..n] else scratch + r[..n], if begin then q - HEADER - n else from));
  }

  // Fragments before the bad one are read, and given up at it.
  lemma {:induction false} ReachBad(f: Bytes, at: nat, r: Bytes, begin: bool, scratch: Bytes, from: int, p: nat,
                                    why: Reason)
    returns (x: int)
    requires StartsAt(r, at, p) && BadFragment(f, p, why) && at <= p <= at + |Encode(r, at, begin)|
    requires f[at..p] == Encode(r, at, begin)[..p - at] && (begin ==> scratch == [])
    ensures ReadFrom(f, at, !begin, scratch, from) ==
      Reporting([Drop(EndOf(p) - p, why)] + if begin && p == at + Pad(at) then [] else
                  [Drop(|scratch| + TakenBefore(r, at, p), ErrorInMiddle)],
                ReadFrom(f, EndOf(p), false, [], x))
    decreases |r|, if Avail(at) == 0 then 1 else 0
  {
    hide Encode, Physical, PhysAt, Pad, Avail, ReadFrom, Reporting, BadFragment;
    if p == at + Pad(at) {
      PadSkipped(f, at, !begin, scratch, from) by { BadInside(f, p, why); }
      BadSkipsBlock(f, p, why, !begin, scratch, from);
      x := from;
    } else {
      BadInside(f, p, why);
      EncodeStep(r, at, begin);
      var n := Piece(r, at);
      var kind := KindOf(begin, n == |r|);
      var head := Fragment(at, kind, r[..n]);
      NextBlock(at);
      var q := at + |head|;
      StartsPast(r[n..], q, p);
      var rest := Encode(r[n..], q, false);
      SplitAt(f, at, p, head, rest);
      FirstPiece(f, at, r, begin, scratch, from);
      var s := if begin then r[..n] else scratch + r[..n];
      x := ReachBad(f, q, r[n..], false, s, if begin then q - HEADER - n else from, p, why);
    }
  }

  lemma BadInside(f: Bytes, p: nat, why: Reason)
    requires BadFragment(f, p, why)
    ensures p <= |f|
  {
    hide Masked, Word32, Crc32c.Simple;
  }

  lemma {:induction false} StartsPast(r: Bytes, at: nat, p: nat)
    requires StartsAt(r, at, p)
    ensures p >= at
    decreases |r|, if Avail(at) == 0 then 1 else 0
  {
    if p != at + Pad(at) {
      var n := Piece(r, at);
      NextBlock(at);
      StartsPast(r[n..], at + Pad(at) + HEADER + n, p);
    }
  }

  // A block's end inside a record, past its start, is the start of one of its fragments; the rest of the record
  // is laid out from there.
  lemma {:induction false} AtBoundary(r: Bytes, at: nat, begin: bool, e: nat)
    requires e % BLOCK == 0 && at + Pad(at) < e < at + |Encode(r, at, begin)|
    ensures StartsAt(r, at, e) && Encode(r, at, begin)[e - at..] == Encode(r[TakenBefore(r, at, e)..], e, false)
    decreases |r|, if Avail(at) == 0 then 1 else 0
  {
    hide Encode, Physical, Pad, Avail;
    EncodeStep(r, at, begin);
    var n := Piece(r, at);
    var head := Fragment(at, KindOf(begin, n == |r|), r[..n]);
    NextBlock(at);
    InBlock(at, n, e);
    var q := at + |head|;
    assert n < |r| && q <= e;
    var rest := Encode(r[n..], q, false);
    assert Encode(r, at, begin)[e - at..] == rest[e - q..];
    BlockStart(q);
    if e == q {
      assert r[n..][0..] == r[n..] && rest[0..] == rest;
    } else {
      AtBoundary(r[n..], q, false, e);
      var k := TakenBefore(r[n..], q, e);
      assert r[n..][k..] == r[n + k..];
    }
  }

  lemma BlockStart(q: nat)
    ensures q % BLOCK == 0 ==> Pad(q) == 0
  {
  }

  // A fragment does not cross the end of its block.
  lemma InBlock(at: nat, n: nat, e: nat)
    requires n <= Avail(at) && at + Pad(at) < e && e % BLOCK == 0
    ensures at + Pad(at) + HEADER + n <= e
  {
  }

  // ---- The whole file ----

  // Where a record is looked for matters only for the offset given when there is none.
  lemma {:induction false} OffsetOnly(f: Bytes, p: nat, x: int, y: int)
    requires p <= |f|
    ensures var l, m := ReadFrom(f, p, false, [], x), ReadFrom(f, p, false, [], y);
      l.record == m.record && l.next == m.next && l.drops == m.drops
    decreases |f| - p
  {
    hide PhysAt;
    var ph := PhysAt(f, p);
    if ph.kind != EOF && ph.kind != FULL && ph.kind != FIRST {
      OffsetOnly(f, p + ph.used, x, y);
    }
  }

  // Reading on elsewhere after some reports.
  lemma ReadAllOn(f: Bytes, p: nat, q: nat, ds: seq<Drop>, x: int)
    requires p <= |f| && q <= |f| && ReadFrom(f, p, false, [], 0) == Reporting(ds, ReadFrom(f, q, false, [], x))
    ensures ReadAll(f, p) == (ReadAll(f, q).0, ds + ReadAll(f, q).1)
  {
    hide ReadFrom;
    OffsetOnly(f, q, x, 0);
    var one := ReadFrom(f, q, false, [], 0);
    if one.record.Some? {
      ReadAllStep(f, p);
      ReadAllStep(f, q);
      assert ds + one.drops + ReadAll(f, one.next).1 == ds + (one.drops + ReadAll(f, one.next).1);
    }
  }

  // Whole records in front are read first.
  lemma {:induction false} WholeFirst(f: Bytes, at: nat, rs: seq<Bytes>)
    requires var bs := Records(rs, at); at + |bs| <= |f| && f[at..at + |bs|] == bs
    ensures var q := at + |Records(rs, at)|; ReadAll(f, at) == (rs + ReadAll(f, q).0, ReadAll(f, q).1)
    decreases |rs|
  {
    hide Encode, ReadFrom, ReadAll;
    var q := at + |Records(rs, at)|;
    if rs == [] {
      assert [] + ReadAll(f, q).0 == ReadAll(f, q).0;
    } else {
      var head := Encode(rs[0], at, true);
      var mid := at + |head|;
      var tail := Records(rs[1..], mid);
      assert f[at..mid] == f[at..q][..|head|] == head;
      assert f[mid..q] == f[at..q][|head|..] == tail;
      RecordWhole(f, at, rs[0], true, [], 0);
      WholeFirst(f, mid, rs[1..]);
      ReadAllStep(f, at);
      assert [] + ReadAll(f, mid).1 == ReadAll(f, mid).1;
      assert [rs[0]] + (rs[1..] + ReadAll(f, q).0) == rs + ReadAll(f, q).0;
    }
  }

  lemma {:induction false} RecordsConcat(a: seq<Bytes>, b: seq<Bytes>, at: nat)
    ensures Records(a + b, at) == Records(a, at) + Records(b, at + |Records(a, at)|)
    decreases |a|
  {
    hide Encode;
    if a == [] {
      assert a + b == b;
    } else {
      assert (a + b)[1..] == a[1..] + b;
      RecordsConcat(a[1..], b, at + |Encode(a[0], at, true)|);
    }
  }

  // A record laid out from a place with a trailer is the trailer and the record laid out from after it.
  lemma EncodePad(r: Bytes, at: nat)
    ensures Encode(r, at, true) == Trailer(Pad(at)) + Encode(r, at + Pad(at), true)
  {
    hide Encode, Fragment, Pad, Avail;
    EncodeStep(r, at, true);
    EncodeStep(r, at + Pad(at), true);
    PadOnce(at);
    var n := Piece(r, at);
    FragmentPad(at, KindOf(true, n == |r|), r[..n]);
  }

  lemma PadOnce(at: nat)
    ensures Pad(at + Pad(at)) == 0 && Avail(at + Pad(at)) == Avail(at)
  {
  }

  lemma FragmentPad(at: nat, kind: byte, payload: Bytes)
    requires |payload| <= Avail(at) == Avail(at + Pad(at)) && Pad(at + Pad(at)) == 0
    ensures Fragment(at, kind, payload) == Trailer(Pad(at)) + Fragment(at + Pad(at), kind, payload)
  {
    hide Physical, Pad, Avail;
    assert Trailer(0) + Physical(kind, payload) == Physical(kind, payload);
  }

  // Records after a trailer are read from the end of the trailer.
  lemma AfterTrailer(f: Bytes, at: nat, e: nat, rs: seq<Bytes>)
    requires at <= e && (rs == [] || e == at + Pad(at)) && |f| == at + |Records(rs, at)| && e <= |f|
    requires f[e..] == Records(rs, at)[e - at..]
    ensures ReadAll(f, e) == (rs, [])
  {
    hide Encode, Pad, ReadAll;
    if rs == [] {
      assert e == |f| && f[e..] == Records([], e);
    } else {
      EncodePad(rs[0], at);
      var head := Encode(rs[0], at, true);
      assert Records(rs, at)[e - at..] == head[Pad(at)..] + Records(rs[1..], at + |head|);
      assert head[Pad(at)..] == Encode(rs[0], e, true);
    }
    var all := Records(rs, e);
    assert f[e..] == all == all[..|f| - e];
    CrashSafe(rs, f, e);
    AllWhole(rs, e);
  }

  lemma AllWhole(rs: seq<Bytes>, at: nat)
    ensures Whole(rs, at, |Records(rs, at)|) == |rs| && rs[..|rs|] == rs
  {
    hide Whole, Records, Encode;
    assert rs[..|rs|] == rs;
    if rs != [] {
      WholeCounts(rs, at, |Records(rs, at)|, |rs| - 1);
    }
  }

  function LastStart(lost: seq<Bytes>, at: nat): nat
    requires lost != []
  {
    at + |Records(lost[..|lost| - 1], at)|
  }

  // A file agrees with the log of these records up to p and again from the end of p's block; at p, the start of a
  // fragment of the first of the lost records, it holds a bad fragment. The last of the lost records starts before
  // the end of that block, the record after it does not.
  ghost predicate Broken(f: Bytes, before: seq<Bytes>, lost: seq<Bytes>, after: seq<Bytes>, p: nat, why: Reason) {
    var a, g, e := |Records(before, 0)|, Records(before + (lost + after), 0), EndOf(p);
    BadFragment(f, p, why)
    && p <= e <= |f| == |g| && f[..p] == g[..p] && f[e..] == g[e..]
    && lost != [] && StartsAt(lost[0], a, p)
    && LastStart(lost, a) + Pad(LastStart(lost, a)) < e
    && (after == [] || e <= a + |Records(lost, a)| + Pad(a + |Records(lost, a)|))
  }

  lemma {:induction false} StartsWithin(r: Bytes, at: nat, begin: bool, p: nat)
    requires StartsAt(r, at, p)
    ensures at <= p < at + |Encode(r, at, begin)|
    decreases |r|, if Avail(at) == 0 then 1 else 0
  {
    hide Encode, Physical, Pad, Avail;
    EncodeStep(r, at, begin);
    if p != at + Pad(at) {
      var n := Piece(r, at);
      NextBlock(at);
      StartsWithin(r[n..], at + Pad(at) + HEADER + n, false, p);
    }
  }

  // The report on the fragments of r before the one at p, if any.
  function Unfinished(r: Bytes, at: nat, p: nat): seq<Drop>
    requires StartsAt(r, at, p)
  {
    if p == at + Pad(at) then [] else [Drop(TakenBefore(r, at, p), ErrorInMiddle)]
  }

  // The reports on the fragments of the last of the lost records from e on, if any.
  function Unplaced(lost: seq<Bytes>, at: nat, e: nat): seq<Drop>
    requires lost != []
  {
    var last, l := lost[|lost| - 1], LastStart(lost, at);
    if e < at + |Records(lost, at)| && StartsAt(last, l, e) then Orphans(last[TakenBefore(last, l, e)..], e) else []
  }

  // Up to the bad fragment: the records before are read, then its block is left.
  lemma ToBadBlock(f: Bytes, before: seq<Bytes>, lost: seq<Bytes>, after: seq<Bytes>, p: nat, why: Reason)
    requires Broken(f, before, lost, after, p, why)
    ensures var a, next := |Records(before, 0)|, ReadAll(f, EndOf(p));
      ReadAll(f, 0) == (before + next.0, [Drop(EndOf(p) - p, why)] + Unfinished(lost[0], a, p) + next.1)
  {
    hide Encode, ReadAll, ReadFrom, StartsAt, TakenBefore, Pad, BadFragment, EndOf;
    var a, g := |Records(before, 0)|, Records(before + (lost + after), 0);
    RecordsConcat(before, lost + after, 0);
    StartsWithin(lost[0], a, true, p);
    var first := Encode(lost[0], a, true);
    assert (lost + after)[0] == lost[0];
    assert g[a..] == Records(lost + after, a) && first <= g[a..];
    assert f[0..a] == g[..p][..a] == Records(before, 0);
    WholeFirst(f, 0, before);
    assert f[a..p] == g[..p][a..] == first[..p - a];
    var x := ReachBad(f, a, lost[0], true, [], 0, p, why);
    ReadAllOn(f, a, EndOf(p), [Drop(EndOf(p) - p, why)] + Unfinished(lost[0], a, p), x);
  }

  // From the end of the block: the rest of a lost record is passed over, and all records after it are read.
  lemma FromNextBlock(f: Bytes, last: Bytes, at: nat, after: seq<Bytes>, e: nat)
    requires at + Pad(at) < e <= |f| && e % BLOCK == 0
    requires var b := at + |Encode(last, at, true)|;
      |f| == b + |Records(after, b)| && (after == [] || e <= b + Pad(b))
      && f[e..] == (Encode(last, at, true) + Records(after, b))[e - at..]
    ensures var b := at + |Encode(last, at, true)|;
      if e < b then
        StartsAt(last, at, e) && ReadAll(f, e) == (after, Orphans(last[TakenBefore(last, at, e)..], e))
      else ReadAll(f, e) == (after, [])
  {
    hide Encode, ReadAll, ReadFrom, StartsAt, TakenBefore, Pad, Orphans;
    var bs := Encode(last, at, true);
    var b := at + |bs|;
    if e < b {
      AtBoundary(last, at, true, e);
      var rest := last[TakenBefore(last, at, e)..];
      assert f[e..b] == f[e..][..b - e] == bs[e - at..] == Encode(rest, e, false);
      RestSkipped(f, e, rest);
      ReadAllOn(f, e, b, Orphans(rest, e), 0);
      assert f[b..] == f[e..][b - e..] == Records(after, b) == Records(after, b)[..|f| - b];
      CrashSafe(after, f, b);
      AllWhole(after, b);
      assert Orphans(rest, e) + [] == Orphans(rest, e);
    } else {
      assert f[e..] == Records(after, b)[e - b..];
      if after != [] { OneBoundary(b, e); }
      AfterTrailer(f, b, e, after);
    }
  }

  lemma OneBoundary(b: nat, e: nat)
    requires e % BLOCK == 0 && b <= e <= b + Pad(b)
    ensures e == b + Pad(b)
  {
  }

  // From the last of the lost records on, the file is that record and those after it.
  lemma LostLayout(before: seq<Bytes>, lost: seq<Bytes>, after: seq<Bytes>)
    returns (front: Bytes)
    requires lost != []
    ensures var a := |Records(before, 0)|;
      var l, b := LastStart(lost, a), a + |Records(lost, a)|;
      |front| == l && b == l + |Encode(lost[|lost| - 1], l, true)|
      && Records(before + (lost + after), 0) == front + (Encode(lost[|lost| - 1], l, true) + Records(after, b))
  {
    hide Encode, Records;
    var a := |Records(before, 0)|;
    var init, last := lost[..|lost| - 1], lost[|lost| - 1];
    RecordsConcat(before, lost + after, 0);
    RecordsConcat(lost, after, a);
    assert lost == init + [last];
    RecordsAppend(init, last, a);
    front := Records(before, 0) + Records(init, a);
  }

  lemma FromBroken(f: Bytes, before: seq<Bytes>, lost: seq<Bytes>, after: seq<Bytes>, p: nat, why: Reason)
    requires Broken(f, before, lost, after, p, why)
    ensures var a, e := |Records(before, 0)|, EndOf(p);
      ReadAll(f, e) == (after, Unplaced(lost, a, e))
      && (e < a + |Records(lost, a)| ==> StartsAt(lost[|lost| - 1], LastStart(lost, a), e))
  {
    hide Encode, Records, ReadAll, StartsAt, TakenBefore, Pad, BadFragment, Orphans, LastStart;
    var a := |Records(before, 0)|;
    var front := LostLayout(before, lost, after);
    FromNextBlock(f, lost[|lost| - 1], LastStart(lost, a), after, EndOf(p));
  }

  // A bad fragment costs the records with bytes in the rest of its block, and no other. Reported are the rest of the
  // block, what had been put together of the first of them, and what is left of the last.
  lemma DamageCosts(f: Bytes, before: seq<Bytes>, lost: seq<Bytes>, after: seq<Bytes>, p: nat, why: Reason)
    requires Broken(f, before, lost, after, p, why)
    ensures var a, e := |Records(before, 0)|, EndOf(p);
      ReadAll(f, 0) ==
      (before + after, [Drop(e - p, why)] + Unfinished(lost[0], a, p) + Unplaced(lost, a, e))
    ensures var a, e := |Records(before, 0)|, EndOf(p);
      e < a + |Records(lost, a)| ==> StartsAt(lost[|lost| - 1], LastStart(lost, a), e)
  {
    hide Records, ReadAll, StartsAt, Pad, BadFragment, LastStart, Unfinished, Unplaced;
    ToBadBlock(f, before, lost, after, p, why);
    FromBroken(f, before, lost, after, p, why);
  }
}
