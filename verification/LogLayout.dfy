// The log format, byte by byte.

module LogLayout {
  // Where every byte of a log record is, as db/log_format.h and the log format's documentation fix it, and that
  // the writer puts it there (db/log_writer.cc).

  import opened DbFormat
  import opened Coding
  import opened LogFormat
  import Crc32c

  // A checksum as stored: rotated right by 15 bits, plus a constant.
  function Masked(crc: bv32): bv32 {
    ((crc >> 15) | (crc << 17)) + 0xa282ead8
  }

  // A 32-bit number, low byte first.
  function Word32(a: byte, b: byte, c: byte, d: byte): (r: nat)
    ensures r < TWO32
  {
    (a as nat) + 0x100 * (b as nat) + 0x10000 * (c as nat) + 0x100_0000 * (d as nat)
  }

  // A fragment at a position: four bytes of checksum over the type and the payload, low byte first; two bytes of
  // length, low byte first; the type; the payload.
  ghost predicate IsFragment(f: Bytes, at: nat, kind: byte, payload: Bytes) {
    at + 7 + |payload| <= |f|
    && Word32(f[at], f[at + 1], f[at + 2], f[at + 3]) as bv32 == Masked(Crc32c.Simple(0, Bits([kind] + payload)))
    && (f[at + 4] as nat) + 0x100 * (f[at + 5] as nat) == |payload|
    && f[at + 6] == kind
    && f[at + 7..at + 7 + |payload|] == payload
  }

  // The type of a fragment: 1 for a whole record, 2 for the first of several, 3 for one in the middle, 4 for the last.
  function TypeNumber(begin: bool, end: bool): byte {
    if begin then if end then 1 else 2 else if end then 4 else 3
  }

  // Fewer than seven bytes at the end of a 32 kB block are left zero.
  function StartAt(at: nat): (r: nat)
    ensures r >= at
  {
    if 32768 - at % 32768 < 7 then at + (32768 - at % 32768) else at
  }

  // Payload that fits the block a fragment starts in.
  function RoomAt(at: nat): nat {
    32768 - StartAt(at) % 32768 - 7
  }

  // From `at` to `end`, the file holds a record or the rest of one: fragments that fill their blocks.
  ghost predicate Laid(f: Bytes, at: nat, end: nat, r: Bytes, begin: bool)
    decreases end - at
  {
    var start, room := StartAt(at), RoomAt(at);
    var n := if |r| <= room then |r| else room;
    start + 7 + n <= end
    && IsFragment(f, start, TypeNumber(begin, n == |r|), r[..n])
    && (forall i :: at <= i < start ==> f[i] == 0)
    && if n == |r| then end == start + 7 + n else Laid(f, start + 7 + n, end, r[n..], false)
  }

  lemma FixedBytes(v: nat)
    requires v < TWO32
    ensures var b := EncodeFixed(v, 4); Word32(b[0], b[1], b[2], b[3]) == v
  {
    var v1 := v / 256;
    var v2 := v1 / 256;
    var v3 := v2 / 256;
    assert EncodeFixed(v3, 1) == [v3 % 256] + EncodeFixed(v3 / 256, 0);
    assert EncodeFixed(v2, 2) == [v2 % 256] + EncodeFixed(v3, 1);
    assert EncodeFixed(v1, 3) == [v1 % 256] + EncodeFixed(v2, 2);
    assert EncodeFixed(v, 4) == [v % 256] + EncodeFixed(v1, 3);
  }

  lemma SameMask(crc: bv32)
    ensures Crc32c.Mask(crc) == Masked(crc)
  {
  }

  lemma PhysicalLaid(f: Bytes, at: nat, kind: byte, payload: Bytes)
    requires |payload| <= 0xffff && at + 7 + |payload| <= |f|
    requires f[at..at + 7 + |payload|] == Physical(kind, payload)
    ensures IsFragment(f, at, kind, payload)
  {
    hide EncodeFixed, Crc32c.Simple, Masked, Word32;
    var p := Physical(kind, payload);
    FixedBytes(StoredCrc(kind, payload));
    AsWord(Crc32c.Mask(Crc32c.Simple(0, Bits([kind] + payload))));
    SameMask(Crc32c.Simple(0, Bits([kind] + payload)));
    forall i | 0 <= i < 7 ensures f[at + i] == p[i] {
      assert f[at..at + 7 + |payload|][i] == f[at + i];
    }
    assert f[at + 7..at + 7 + |payload|] == f[at..at + 7 + |payload|][7..];
  }

  lemma Slice(f: Bytes, at: nat, bs: Bytes, i: nat, j: nat)
    requires at + |bs| <= |f| && f[at..at + |bs|] == bs && i <= j <= |bs|
    ensures f[at + i..at + j] == bs[i..j]
  {
    forall k | i <= k < j ensures f[at + k] == bs[k] {
      assert f[at..at + |bs|][k] == f[at + k];
    }
  }

  // A fragment with its trailer, as the writer makes it.
  lemma FragmentLaid(f: Bytes, at: nat, kind: byte, payload: Bytes)
    requires |payload| <= Avail(at) && at + |Fragment(at, kind, payload)| <= |f|
    requires f[at..at + |Fragment(at, kind, payload)|] == Fragment(at, kind, payload)
    ensures IsFragment(f, at + Pad(at), kind, payload) && forall i :: at <= i < at + Pad(at) ==> f[i] == 0
  {
    hide Physical, Pad, Avail, IsFragment;
    var head, start, n := Fragment(at, kind, payload), at + Pad(at), |payload|;
    forall i | at <= i < start ensures f[i] == 0 {
      assert f[i] == f[at..at + |head|][i - at] == head[i - at];
    }
    assert head[Pad(at)..|head|] == Physical(kind, payload);
    Slice(f, at, head, Pad(at), |head|);
    PhysicalLaid(f, start, kind, payload);
  }

  lemma LaidIf(f: Bytes, at: nat, end: nat, r: Bytes, begin: bool)
    requires var n := Piece(r, at);
      IsFragment(f, at + Pad(at), KindOf(begin, n == |r|), r[..n]) && (forall i :: at <= i < at + Pad(at) ==> f[i] == 0)
      && at + Pad(at) + 7 + n <= end
      && if n == |r| then end == at + Pad(at) + 7 + n else Laid(f, at + Pad(at) + 7 + n, end, r[n..], false)
    ensures Laid(f, at, end, r, begin)
  {
    hide IsFragment;
  }

  // What the writer's encoding puts into a file is laid out so.
  lemma {:induction false} EncodeLaid(f: Bytes, at: nat, r: Bytes, begin: bool)
    requires at + |Encode(r, at, begin)| <= |f| && f[at..at + |Encode(r, at, begin)|] == Encode(r, at, begin)
    ensures Laid(f, at, at + |Encode(r, at, begin)|, r, begin)
    decreases |r|, if Avail(at) == 0 then 1 else 0
  {
    hide Physical, Encode, Fragment, IsFragment, Laid, Pad, Avail, KindOf, Piece;
    var n := Piece(r, at);
    var kind := KindOf(begin, n == |r|);
    var head := Fragment(at, kind, r[..n]);
    var all := Encode(r, at, begin);
    EncodeIs(r, at, begin);
    assert |head| <= |all| && all[..|head|] == head;
    Slice(f, at, all, 0, |head|);
    FragmentLaid(f, at, kind, r[..n]);
    if n < |r| {
      NextBlock(at);
      var rest := Encode(r[n..], at + |head|, false);
      assert all[|head|..|all|] == rest;
      Slice(f, at, all, |head|, |all|);
      EncodeLaid(f, at + |head|, r[n..], false);
    }
    LaidIf(f, at, at + |all|, r, begin);
  }

  lemma EncodeIs(r: Bytes, at: nat, begin: bool)
    ensures var n := Piece(r, at);
      var head := Fragment(at, KindOf(begin, n == |r|), r[..n]);
      Encode(r, at, begin) == if n == |r| then head else head + Encode(r[n..], at + |head|, false)
  {
  }

  // ---- What the reader accepts ----

  // From `at` on, skipping what it must, a record or the rest of one is spelled by fragments with the right
  // checksums, the last of which ends at `end`.
  ghost predicate Spelled(f: Bytes, at: nat, end: nat, r: Bytes, begin: bool)
    decreases |f| - at
  {
    exists s: nat, n: nat, last: bool ::
      at <= s && n <= |r| && s + 7 + n <= |f| && IsFragment(f, s, TypeNumber(begin, last), r[..n])
      && if last then n == |r| && end == s + 7 + n else Spelled(f, s + 7 + n, end, r[n..], false)
  }

  lemma UnmaskInverse(x: bv32)
    ensures Masked(Crc32c.Unmask(x)) == x
  {
  }

  lemma FixedWord(b: Bytes)
    requires |b| == 4
    ensures DecodeFixed(b) == Word32(b[0], b[1], b[2], b[3]) < TWO32
  {
    assert b[1..][1..] == b[2..] && b[2..][1..] == b[3..] && b[3..][1..] == [];
    assert DecodeFixed(b) == b[0] + 256 * DecodeFixed(b[1..]);
    assert DecodeFixed(b[1..]) == b[1] + 256 * DecodeFixed(b[2..]);
    assert DecodeFixed(b[2..]) == b[2] + 256 * DecodeFixed(b[3..]);
    assert DecodeFixed(b[3..]) == b[3] + 256 * DecodeFixed([]);
  }

  lemma StoredMatches(stored: Bytes, kind: byte, payload: Bytes)
    requires |stored| == 4 && CrcMatches(stored, kind, payload)
    ensures Word32(stored[0], stored[1], stored[2], stored[3]) as bv32 ==
      Masked(Crc32c.Simple(0, Bits([kind] + payload)))
  {
    hide DecodeFixed, Crc32c.Simple, Crc32c.Unmask, Masked, Word32;
    FixedWord(stored);
    UnmaskInverse(DecodeFixed(stored) as bv32);
  }

  lemma ParsedIsFragment(f: Bytes, start: nat, end: nat, eof: bool)
    requires start + HEADER <= end <= |f| && 1 <= Parse(f[start..end], eof).kind <= 4
    ensures var ph := Parse(f[start..end], eof);
      ph.used == 7 + |ph.payload| && start + ph.used <= end && IsFragment(f, start, ph.kind, ph.payload)
  {
    hide CrcMatches, Crc32c.Simple, Masked, Word32;
    var buf := f[start..end];
    var ph := Parse(buf, eof);
    assert ph.used == 7 + |ph.payload| <= |buf| == end - start && ph.payload == buf[7..7 + |ph.payload|];
    assert CrcMatches(buf[..4], ph.kind, ph.payload);
    StoredMatches(buf[..4], ph.kind, ph.payload);
    forall i | 0 <= i < |ph.payload| ensures f[start + 7 + i] == ph.payload[i] {
      assert buf[7 + i] == f[start + (7 + i)];
    }
  }

  lemma ReadIsFragment(f: Bytes, p: nat)
    requires p <= |f| && 1 <= PhysAt(f, p).kind <= 4
    ensures var ph := PhysAt(f, p);
      var s := p + ph.used - 7 - |ph.payload|;
      s >= p && s + 7 + |ph.payload| <= |f| && IsFragment(f, s, ph.kind, ph.payload)
  {
    hide Parse, IsFragment, Pad;
    var start := p + Pad(p);
    ParsedIsFragment(f, start, Least(BlockEnd(start), |f|), BlockEnd(start) > |f|);
  }

  lemma SpelledMore(f: Bytes, at: nat, s: nat, payload: Bytes, end: nat, rest: Bytes, begin: bool)
    requires at <= s && s + 7 + |payload| <= |f| && IsFragment(f, s, TypeNumber(begin, false), payload)
    requires Spelled(f, s + 7 + |payload|, end, rest, false)
    ensures Spelled(f, at, end, payload + rest, begin)
  {
    hide IsFragment;
    var n, r := |payload|, payload + rest;
    assert r[..n] == payload && r[n..] == rest;
  }

  lemma SpelledLast(f: Bytes, at: nat, s: nat, payload: Bytes, begin: bool)
    requires at <= s && s + 7 + |payload| <= |f| && IsFragment(f, s, TypeNumber(begin, true), payload)
    ensures Spelled(f, at, s + 7 + |payload|, payload, begin)
  {
    hide IsFragment;
    var n := |payload|;
    assert payload[..n] == payload;
  }

  lemma SpelledBefore(f: Bytes, at: nat, at2: nat, end: nat, r: Bytes, begin: bool)
    requires at2 <= at <= |f| && Spelled(f, at, end, r, begin)
    ensures Spelled(f, at2, end, r, begin)
  {
    hide IsFragment;
  }

  // What reassembly returns from position p: a record spelled from there on, or the end of the one begun.
  ghost predicate SoundFrom(f: Bytes, p: nat, inFragment: bool, scratch: Bytes, l: Logical) {
    l.record.None? || Spelled(f, p, l.next, l.record.value, true)
    || (inFragment && scratch <= l.record.value && Spelled(f, p, l.next, l.record.value[|scratch|..], false))
  }

  // On any bytes the reader makes no record up: what it returns is spelled by fragments of the file, in order,
  // each with its checksum.
  lemma {:induction false} ReadSound(f: Bytes, p: nat, inFragment: bool, scratch: Bytes, from: int)
    requires p <= |f|
    ensures SoundFrom(f, p, inFragment, scratch, ReadFrom(f, p, inFragment, scratch, from))
    decreases |f| - p
  {
    hide PhysAt, IsFragment, Spelled;
    var ph := PhysAt(f, p);
    var next := p + ph.used;
    var s := next - 7 - |ph.payload|;
    var l := ReadFrom(f, p, inFragment, scratch, from);
    if 1 <= ph.kind <= 4 {
      ReadIsFragment(f, p);
    }
    if ph.kind == FULL {
      SpelledLast(f, p, s, ph.payload, true);
    } else if ph.kind == LAST && inFragment {
      SpelledLast(f, p, s, ph.payload, false);
    } else if ph.kind == FIRST {
      ReadSound(f, next, true, ph.payload, next - HEADER - |ph.payload|);
      Begun(f, p, s, ph.payload, ReadFrom(f, next, true, ph.payload, next - HEADER - |ph.payload|));
    } else if ph.kind == MIDDLE && inFragment {
      ReadSound(f, next, true, scratch + ph.payload, from);
      Continued(f, p, s, ph.payload, scratch, ReadFrom(f, next, true, scratch + ph.payload, from));
    } else if ph.kind != EOF {
      var kept := if ph.kind == ZERO || ph.kind > BAD || (ph.kind == BAD && inFragment) then [] else scratch;
      ReadSound(f, next, false, kept, from);
      Skipped(f, p, next, kept, ReadFrom(f, next, false, kept, from));
    }
  }

  lemma Begun(f: Bytes, p: nat, s: nat, payload: Bytes, l: Logical)
    requires p <= s && s + 7 + |payload| <= |f| && IsFragment(f, s, 2, payload)
    requires SoundFrom(f, s + 7 + |payload|, true, payload, l)
    ensures l.record.None? || Spelled(f, p, l.next, l.record.value, true)
  {
    hide IsFragment, Spelled;
    if l.record.Some? {
      var r, q := l.record.value, s + 7 + |payload|;
      if Spelled(f, q, l.next, r, true) {
        SpelledBefore(f, q, p, l.next, r, true);
      } else {
        SpelledMore(f, p, s, payload, l.next, r[|payload|..], true);
        assert payload + r[|payload|..] == r;
      }
    }
  }

  lemma Continued(f: Bytes, p: nat, s: nat, payload: Bytes, scratch: Bytes, l: Logical)
    requires p <= s && s + 7 + |payload| <= |f| && IsFragment(f, s, 3, payload)
    requires SoundFrom(f, s + 7 + |payload|, true, scratch + payload, l)
    ensures SoundFrom(f, p, true, scratch, l)
  {
    hide IsFragment, Spelled;
    if l.record.Some? {
      var r, q := l.record.value, s + 7 + |payload|;
      if Spelled(f, q, l.next, r, true) {
        SpelledBefore(f, q, p, l.next, r, true);
      } else {
        var rest := r[|scratch + payload|..];
        SpelledMore(f, p, s, payload, l.next, rest, false);
        assert payload + rest == r[|scratch|..];
      }
    }
  }

  lemma Skipped(f: Bytes, p: nat, next: nat, kept: Bytes, l: Logical)
    requires p <= next <= |f| && SoundFrom(f, next, false, kept, l)
    ensures l.record.None? || Spelled(f, p, l.next, l.record.value, true)
  {
    hide IsFragment, Spelled;
    if l.record.Some? {
      SpelledBefore(f, next, p, l.next, l.record.value, true);
    }
  }
}
