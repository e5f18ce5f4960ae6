// The log writer and reader objects (db/log_writer.cc, db/log_reader.cc).

module LogFile {
  import opened DbFormat
  import opened Coding
  import opened LogFormat
  import opened LogCrash
  import opened LogLayout
  import Crc32c

  // Bits distributes over concatenation.
  lemma BitsConcat(a: Bytes, b: Bytes)
    ensures Bits(a + b) == Bits(a) + Bits(b)
  {
  }

  // A checksum over a buffer at whatever address it has.
  method CrcExtend(crc: bv32, bs: Bytes) returns (r: bv32)
    ensures r == Crc32c.Simple(crc, Bits(bs))
  {
    var misalign: nat :| misalign < 4;
    r := Crc32c.Extend(crc, Bits(bs), misalign);
  }

  class Writer {
    var dest: Bytes
    var blockOffset: nat
    var typeCrc: seq<bv32>

    ghost predicate Ok()
      reads this
    {
      blockOffset <= BLOCK && blockOffset % BLOCK == |dest| % BLOCK && TypeCrcs(typeCrc, LAST as nat + 1)
    }

    static ghost predicate TypeCrcs(crcs: seq<bv32>, n: nat)
    {
      |crcs| == n && forall t: nat :: t < n && t < 256 ==> crcs[t] == Crc32c.Simple(0, Bits([t]))
    }

    // A new log, or one to append to.
    constructor (contents: Bytes)
      ensures Ok() && dest == contents
    {
      dest := contents;
      blockOffset := |contents| % BLOCK;
      typeCrc := [];
      new;
      InitTypeCrc();
    }

    method InitTypeCrc()
      modifies this`typeCrc
      ensures TypeCrcs(typeCrc, LAST as nat + 1)
    {
      typeCrc := [];
      for i := 0 to LAST as nat + 1
        invariant TypeCrcs(typeCrc, i)
      {
        var crc := CrcExtend(0, [i]);
        typeCrc := typeCrc + [crc];
      }
    }

    // The whole record, fragmented over blocks.
    method AddRecord(slice: Bytes)
      requires Ok()
      modifies this`dest, this`blockOffset
      ensures Ok() && dest == old(dest) + Encode(slice, |old(dest)|, true)
      ensures Laid(dest, |old(dest)|, |dest|, slice, true)
    {
      hide Fragment, Encode, TypeCrcs, Pad, Avail, Laid, KindOf, Piece;
      var ptr, left := 0, |slice|;
      var begin, again := true, true;
      ghost var all := old(dest) + Encode(slice, |old(dest)|, true);
      assert slice[0..] == slice;
      while again
        invariant Ok() && 0 <= ptr <= |slice| && left == |slice| - ptr
        invariant all == if again then dest + Encode(slice[ptr..], |dest|, begin) else dest
        decreases left, if again then 1 + (if Avail(|dest|) == 0 then 1 else 0) else 0
      {
        ghost var was, rest, at := dest, slice[ptr..], |dest|;
        EncodeStep(rest, at, begin);
        NextBlock(at);
        ghost var head := Fragment(at, KindOf(begin, Piece(rest, at) == |rest|), rest[..Piece(rest, at)]);
        var n := AddFragment(slice[ptr..], begin);
        assert slice[ptr..][n..] == slice[ptr + n..];
        ghost var tail := if n < |rest| then Encode(rest[n..], at + |head|, false) else [];
        Regroup(was, head, tail);
        ptr, left := ptr + n, left - n;
        begin, again := false, left > 0;
      }
      assert dest[|old(dest)|..] == Encode(slice, |old(dest)|, true);
      EncodeLaid(dest, |old(dest)|, slice, true);
    }

    lemma Regroup(a: Bytes, b: Bytes, c: Bytes)
      ensures a + (b + c) == (a + b) + c && b + [] == b
    {
    }

    // One turn of AddRecord's loop: what is left of the record is `rest`.
    method AddFragment(rest: Bytes, begin: bool) returns (n: nat)
      requires Ok()
      modifies this`dest, this`blockOffset
      ensures Ok() && n == Piece(rest, |old(dest)|)
      ensures dest == old(dest) + Fragment(|old(dest)|, KindOf(begin, n == |rest|), rest[..n])
    {
      hide Physical, Trailer, TypeCrcs, Pad, Avail;
      SwitchBlock();
      var avail := BLOCK - blockOffset - HEADER;
      n := if |rest| < avail then |rest| else avail;
      ghost var at := |dest|;
      EmitPhysicalRecord(KindOf(begin, n == |rest|), rest[..n]);
      SameOffset(at, blockOffset - HEADER - n, HEADER + n);
    }

    lemma SameOffset(at: nat, offset: nat, n: nat)
      requires at % BLOCK == offset % BLOCK
      ensures (at + n) % BLOCK == (offset + n) % BLOCK
    {
    }

    // Fills the trailer when no header fits in the block.
    method SwitchBlock()
      requires Ok()
      modifies this`dest, this`blockOffset
      ensures Ok() && dest == old(dest) + Trailer(Pad(|old(dest)|))
      ensures blockOffset + HEADER + Avail(|old(dest)|) == BLOCK
    {
      hide TypeCrcs;
      var leftover := BLOCK - blockOffset;
      Room(|dest|, blockOffset);
      if leftover < HEADER {
        if leftover > 0 {
          dest := dest + Trailer(leftover);
        }
        blockOffset := 0;
      }
    }

    // The block offset gives the trailer and the room left.
    lemma Room(at: nat, offset: nat)
      requires offset <= BLOCK && offset % BLOCK == at % BLOCK
      ensures BLOCK - offset < HEADER ==> Pad(at) == BLOCK - offset && Avail(at) == BLOCK - HEADER
      ensures BLOCK - offset >= HEADER ==> Pad(at) == 0 && Avail(at) == BLOCK - offset - HEADER
    {
    }

    method EmitPhysicalRecord(kind: byte, payload: Bytes)
      requires FULL <= kind <= LAST && blockOffset + HEADER + |payload| <= BLOCK
      requires TypeCrcs(typeCrc, LAST as nat + 1)
      modifies this`dest, this`blockOffset
      ensures dest == old(dest) + Physical(kind, payload) && blockOffset == old(blockOffset) + HEADER + |payload|
    {
      hide EncodeFixed, Crc32c.Mask, Crc32c.Simple;
      var crc := CrcExtend(typeCrc[kind as nat], payload);
      BitsConcat([kind], payload);
      Crc32c.SimpleConcat(0, Bits([kind]), Bits(payload));
      var buf := EncodeFixed(Crc32c.Mask(crc) as nat, 4) + [|payload| % 256, |payload| / 256, kind];
      dest := dest + buf;
      dest := dest + payload;
      assert dest == old(dest) + Physical(kind, payload);
      blockOffset := blockOffset + HEADER + |payload|;
    }
  }

  // The reader with checksums on and initial offset 0; reports go to `drops`.
  class Reader {
    const file: Bytes
    var position: nat  // end_of_buffer_offset_: how much of the file has been read
    var buffer: Bytes
    var eof: bool
    var lastRecordOffset: int
    var drops: seq<Drop>

    ghost predicate Ok()
      reads this
    {
      |buffer| <= position <= |file| && buffer == file[position - |buffer|..position]
      && (if eof then position == |file| && (buffer != [] ==> position % BLOCK != 0) else position % BLOCK == 0)
      && (buffer != [] ==> position <= BlockEnd(position - |buffer|))
    }

    // Position of the first byte not yet used.
    ghost function At(): nat
      requires |buffer| <= position
      reads this
    {
      position - |buffer|
    }

    constructor (contents: Bytes)
      ensures Ok() && At() == 0 && file == contents && drops == []
    {
      file := contents;
      hide BlockEnd;
      position, buffer, eof, lastRecordOffset, drops := 0, [], false, 0, [];
      new;
      assert 0 % BLOCK == 0 && file[0..0] == [];
    }

    method ReportCorruption(bytes: nat, reason: Reason)
      modifies this`drops
      ensures drops == old(drops) + [Drop(bytes, reason)]
    {
      drops := drops + [Drop(bytes, reason)];
    }

    // The next block, or what there is of it.
    method ReadBlock()
      requires Ok() && !eof && |buffer| < HEADER
      modifies this`position, this`buffer, this`eof
      ensures Ok() && (|buffer| >= HEADER || eof) && (|buffer| < BLOCK ==> eof)
      ensures PhysNext(file, At()) == PhysNext(file, old(At()))
    {
      hide BlockEnd, PhysNext;
      ghost var p := At();
      var end := Least(position + BLOCK, |file|);
      SkipTrailer(file, p, position);
      BlockRead(position, end);
      buffer := file[position..end];
      position := end;
      if |buffer| < BLOCK {
        eof := true;
      }
    }

    method ReadPhysicalRecord() returns (kind: byte, payload: Bytes)
      requires Ok()
      modifies this`position, this`buffer, this`eof, this`drops
      ensures Ok()
      ensures var ph := PhysAt(file, old(At()));
        kind == ph.kind && payload == ph.payload && At() == old(At()) + ph.used && drops == old(drops) + ph.drops
    {
      hide PhysAt, Parse, Pad, BlockEnd;
      ghost var p := At();
      while true
        invariant Ok() && drops == old(drops) && PhysNext(file, At()) == PhysNext(file, p)
        decreases if eof then 0 else 1, if |buffer| < HEADER then 1 else 0
      {
        if |buffer| < HEADER {
          if !eof {
            ReadBlock();
            continue;
          }
          // A truncated header at the end of the file.
          TruncatedHeader(file, At());
          buffer := [];
          return EOF, [];
        }
        BufferIs(file, At(), position, eof);
        kind, payload := ParseBuffer();
        break;
      }
    }

    // The part of ReadPhysicalRecord past the header check.
    method ParseBuffer() returns (kind: byte, payload: Bytes)
      requires Ok() && |buffer| >= HEADER
      modifies this`buffer, this`drops
      ensures Ok()
      ensures var ph := Parse(old(buffer), eof);
        kind == ph.kind && payload == ph.payload && |buffer| == |old(buffer)| - ph.used
          && drops == old(drops) + ph.drops
    {
      hide CrcMatches, BlockEnd;
      var length: nat := (buffer[4] as nat) + 256 * (buffer[5] as nat);
      kind, payload := buffer[6], [];
      if HEADER + length > |buffer| {
        var dropSize := |buffer|;
        buffer := [];
        if !eof {
          ReportCorruption(dropSize, BadLength);
          return BAD, [];
        }
        return EOF, [];
      }
      if kind == ZERO && length == 0 {
        buffer := [];
        return BAD, [];
      }
      var matches := CheckCrc(length);
      if !matches {
        var dropSize := |buffer|;
        buffer := [];
        ReportCorruption(dropSize, ChecksumMismatch);
        return BAD, [];
      }
      payload := buffer[HEADER..HEADER + length];
      Consume(HEADER + length);
    }

    method CheckCrc(length: nat) returns (matches: bool)
      requires HEADER + length <= |buffer|
      ensures matches == CrcMatches(buffer[..4], buffer[6], buffer[HEADER..HEADER + length])
    {
      hide Crc32c.Simple, Crc32c.Unmask, DecodeFixed, Span;
      DecodeBound(buffer[..4]);
      Four();
      var expected := Crc32c.Unmask(DecodeFixed(buffer[..4]) as bv32);
      assert buffer[6..7 + length] == [buffer[6]] + buffer[7..7 + length];
      var actual := CrcExtend(0, buffer[6..7 + length]);
      matches := actual == expected;
    }

    method Consume(n: nat)
      requires Ok() && n <= |buffer|
      modifies this`buffer
      ensures Ok() && buffer == old(buffer)[n..]
    {
      buffer := buffer[n..];
      if buffer != [] {
        SameBlock(position - |old(buffer)|, n, position);
      }
    }

    // One logical record, or false at the end.
    method ReadRecord() returns (ok: bool, record: Bytes)
      requires Ok()
      modifies this`position, this`buffer, this`eof, this`drops, this`lastRecordOffset
      ensures Ok()
      ensures var l := ReadFrom(file, old(At()), false, [], 0);
        ok == l.record.Some? && (ok ==> record == l.record.value && lastRecordOffset == l.offset)
        && At() == l.next && drops == old(drops) + l.drops
      ensures ok ==> Spelled(file, old(At()), At(), record, true)
    {
      hide PhysAt, BlockEnd, ReadFrom, Reporting, Spelled;
      ReadSound(file, At(), false, [], 0);
      ReportingParts(drops, ReadFrom(file, At(), false, [], 0));
      var inFragment, scratch, prospective := false, [], 0;
      record := [];
      ghost var p := At();
      while true
        invariant Ok()
        invariant Reporting(old(drops), ReadFrom(file, p, false, [], 0))
               == Reporting(drops, ReadFrom(file, At(), inFragment, scratch, prospective))
        decreases |file| - At()
      {
        ghost var q, before := At(), drops;
        var kind, fragment := ReadPhysicalRecord();
        var offset := position - |buffer| - HEADER - |fragment|;
        ReadTurn(file, q, inFragment, scratch, prospective, before);
        assert drops + [] == drops;
        var done;
        done, ok, record, inFragment, scratch, prospective :=
          Reassemble(kind, fragment, offset, inFragment, scratch, prospective);
        if done {
          return;
        }
      }
    }

    // The switch on the record type inside ReadRecord's loop.
    method Reassemble(kind: byte, fragment: Bytes, offset: int, inFragment0: bool, scratch0: Bytes, prospective0: int)
      returns (done: bool, ok: bool, record: Bytes, inFragment: bool, scratch: Bytes, prospective: int)
      modifies this`drops, this`lastRecordOffset
      ensures done == (kind == FULL || kind == EOF || (kind == LAST && inFragment0))
      ensures ok == (done && kind != EOF)
      ensures ok ==> record == (if kind == FULL then fragment else scratch0 + fragment)
      ensures ok ==> lastRecordOffset == if kind == FULL then offset else prospective0
      ensures prospective == if kind == FIRST then offset else prospective0
      ensures !done ==> inFragment == (kind == FIRST || (kind == MIDDLE && inFragment0))
      ensures done || scratch ==
        if kind == FIRST then fragment
        else if kind == MIDDLE && inFragment0 then scratch0 + fragment
        else if (inFragment0 && kind == BAD) || kind == ZERO || kind > BAD then []
        else scratch0
      ensures drops == old(drops) +
        if kind == FULL || kind == FIRST then
          if inFragment0 && scratch0 != [] then [Drop(|scratch0|, PartialWithoutEnd)] else []
        else if kind == MIDDLE || kind == LAST then if inFragment0 then [] else [Drop(|fragment|, MissingStart)]
        else if kind == EOF then []
        else if kind == BAD then if inFragment0 then [Drop(|scratch0|, ErrorInMiddle)] else []
        else [Drop(|fragment| + if inFragment0 then |scratch0| else 0, UnknownType)]
    {
      done, ok, record := false, false, [];
      inFragment, scratch, prospective := inFragment0, scratch0, prospective0;
      match kind as int {
        case 1 =>
          if inFragment && scratch != [] {
            ReportCorruption(|scratch|, PartialWithoutEnd);
          }
          lastRecordOffset := offset;
          done, ok, record := true, true, fragment;
        case 2 =>
          if inFragment && scratch != [] {
            ReportCorruption(|scratch|, PartialWithoutEnd);
          }
          inFragment, scratch, prospective := true, fragment, offset;
        case 3 =>
          if !inFragment {
            ReportCorruption(|fragment|, MissingStart);
          } else {
            scratch := scratch + fragment;
          }
        case 4 =>
          if !inFragment {
            ReportCorruption(|fragment|, MissingStart);
          } else {
            lastRecordOffset := prospective;
            done, ok, record := true, true, scratch + fragment;
          }
        case 5 =>
          done := true;
        case 6 =>
          if inFragment {
            ReportCorruption(|scratch|, ErrorInMiddle);
            inFragment, scratch := false, [];
          }
        case _ =>
          ReportCorruption(|fragment| + if inFragment then |scratch| else 0, UnknownType);
          inFragment, scratch := false, [];
      }
    }
  }

  // PhysAt as a position after and the rest, so that different starting points compare.
  ghost function PhysNext(f: Bytes, p: nat): (nat, byte, Bytes, seq<Drop>)
    requires p <= |f|
  {
    var ph := PhysAt(f, p);
    (p + ph.used, ph.kind, ph.payload, ph.drops)
  }

  // A trailer of fewer than seven bytes is skipped.
  lemma SkipTrailer(f: Bytes, p: nat, position: nat)
    requires p <= position <= |f| && position - p < HEADER && position % BLOCK == 0
    requires p < position ==> position <= BlockEnd(p)
    ensures PhysNext(f, position) == PhysNext(f, p)
  {
    hide Parse;
  }

  lemma BlockRead(position: nat, end: nat)
    requires position % BLOCK == 0 && position <= end <= position + BLOCK
    ensures end <= BlockEnd(position) && (end % BLOCK == 0 <==> end == position || end == position + BLOCK)
  {
  }

  lemma TruncatedHeader(f: Bytes, p: nat)
    requires p <= |f| && |f| - p < HEADER
    ensures PhysAt(f, p) == Phys(EOF, [], |f| - p, [])
  {
  }

  // With a header in the buffer, the physical record is parsed from the buffer.
  lemma BufferIs(f: Bytes, p: nat, position: nat, eof: bool)
    requires p + HEADER <= position <= |f| && position <= BlockEnd(p)
    requires if eof then position == |f| && position % BLOCK != 0 else position % BLOCK == 0
    ensures PhysAt(f, p) == Parse(f[p..position], eof)
  {
    hide Parse;
    InOneBlock(p, position);
    assert f[p..Least(BlockEnd(p), |f|)] == f[p..position];
  }

  lemma InOneBlock(p: nat, position: nat)
    requires p + HEADER <= position <= BlockEnd(p)
    ensures Pad(p) == 0 && (position % BLOCK == 0 <==> position == BlockEnd(p))
  {
  }

  lemma SameBlock(p: nat, n: nat, position: nat)
    requires p + n < position <= BlockEnd(p)
    ensures position <= BlockEnd(p + n)
  {
  }

  lemma ReportingParts(d: seq<Drop>, l: Logical)
    ensures var m := Reporting(d, l);
      m.record == l.record && m.offset == l.offset && m.next == l.next && m.drops == d + l.drops
  {
  }

  lemma ReportingTwice(a: seq<Drop>, b: seq<Drop>, l: Logical)
    ensures Reporting(a, Reporting(b, l)) == Reporting(a + b, l)
  {
    assert a + (b + l.drops) == (a + b) + l.drops;
  }

  // One turn of ReadRecord's loop: what is still to be read, with the reports so far.
  lemma ReadTurn(f: Bytes, p: nat, inFragment: bool, scratch: Bytes, from: int, drops: seq<Drop>)
    requires p <= |f|
    ensures var ph, l := PhysAt(f, p), Reporting(drops, ReadFrom(f, p, inFragment, scratch, from));
      var next, now := p + ph.used, drops + ph.drops;
      var offset := next - HEADER - |ph.payload|;
      var dangling := if inFragment && scratch != [] then now + [Drop(|scratch|, PartialWithoutEnd)] else now;
      var size := |ph.payload| + if inFragment then |scratch| else 0;
      match ph.kind as int
      case 1 => l == Logical(Some(ph.payload), offset, next, dangling)
      case 2 => l == Reporting(dangling, ReadFrom(f, next, true, ph.payload, offset))
      case 3 =>
        l == if inFragment then Reporting(now, ReadFrom(f, next, true, scratch + ph.payload, from))
             else Reporting(now + [Drop(|ph.payload|, MissingStart)], ReadFrom(f, next, false, scratch, from))
      case 4 =>
        l == if inFragment then Logical(Some(scratch + ph.payload), from, next, now)
             else Reporting(now + [Drop(|ph.payload|, MissingStart)], ReadFrom(f, next, false, scratch, from))
      case 5 => l == Logical(None, from, next, now)
      case 6 =>
        l == if inFragment then Reporting(now + [Drop(|scratch|, ErrorInMiddle)], ReadFrom(f, next, false, [], from))
             else Reporting(now, ReadFrom(f, next, false, scratch, from))
      case _ => l == Reporting(now + [Drop(size, UnknownType)], ReadFrom(f, next, false, [], from))
  {
    hide PhysAt;
    var ph := PhysAt(f, p);
    forall d: seq<Drop>, l: Logical
      ensures Reporting(drops, Reporting(ph.drops + d, l)) == Reporting(drops + ph.drops + d, l)
      ensures Reporting(drops, Reporting(ph.drops, l)) == Reporting(drops + ph.drops, l)
    {
      ReportingTwice(drops, ph.drops + d, l);
      ReportingTwice(drops, ph.drops, l);
      assert drops + (ph.drops + d) == drops + ph.drops + d;
    }
    var d := [Drop(|scratch|, PartialWithoutEnd)];
    assert drops + (ph.drops + d) == drops + ph.drops + d;
    assert ph.drops + [] == ph.drops;
  }
}
