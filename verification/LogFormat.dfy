// The write-ahead log's format.

module LogFormat {
  // What a record looks like on disk, and what any bytes mean to the reader
  // (db/log_format.h, db/log_writer.cc, db/log_reader.cc).

  import opened DbFormat
  import opened Coding
  import Crc32c

  const BLOCK: nat := 32768

  const HEADER: nat := 7

  // Record types; 5 and 6 are the reader's own end-of-file and bad-record results.
  const ZERO: byte := 0
  const FULL: byte := 1
  const FIRST: byte := 2
  const MIDDLE: byte := 3
  const LAST: byte := 4
  const EOF: byte := 5
  const BAD: byte := 6

  // ---- Checksums ----

  function Bits(bs: Bytes): seq<bv8> {
    seq(|bs|, i requires 0 <= i < |bs| => bs[i] as bv8)
  }

  // The stored form of a checksum of type byte and payload.
  function StoredCrc(kind: byte, payload: Bytes): (r: nat)
    ensures r < TWO32
  {
    Crc32c.Mask(Crc32c.Simple(0, Bits([kind] + payload))) as nat
  }

  function CrcBytes(kind: byte, payload: Bytes): (r: Bytes)
    ensures |r| == 4
  {
    EncodeFixed(StoredCrc(kind, payload), 4)
  }

  // The reader unmasks what is stored and compares.
  predicate CrcMatches(stored: Bytes, kind: byte, payload: Bytes)
    requires |stored| == 4
  {
    DecodeBound(stored);
    Four();
    Crc32c.Unmask(DecodeFixed(stored) as bv32) == Crc32c.Simple(0, Bits([kind] + payload))
  }

  lemma Four()
    ensures Span(4) == TWO32
  {
    assert Span(2) == 65536;
  }

  lemma AsWord(x: bv32)
    ensures (x as nat) as bv32 == x
  {
  }

  lemma CrcAccepted(kind: byte, payload: Bytes)
    ensures CrcMatches(CrcBytes(kind, payload), kind, payload)
  {
    hide EncodeFixed, DecodeFixed, Span, Crc32c.Mask, Crc32c.Unmask, Crc32c.Simple;
    Four();
    var crc := Crc32c.Simple(0, Bits([kind] + payload));
    FixedRoundTrip(StoredCrc(kind, payload), 4);
    AsWord(Crc32c.Mask(crc));
    Crc32c.MaskRoundTrip(crc);
  }

  // ---- What the writer puts on disk ----

  // Bytes of trailer skipped before a physical record written at a file position.
  function Pad(at: nat): (r: nat)
    ensures r < HEADER && (at + r) % BLOCK + HEADER <= BLOCK && (r > 0 ==> (at + r) % BLOCK == 0)
  {
    var left := BLOCK - at % BLOCK;
    if left < HEADER then left else 0
  }

  // Payload room in the block the record goes to.
  function Avail(at: nat): (r: nat)
    ensures r <= BLOCK - HEADER
  {
    BLOCK - (at + Pad(at)) % BLOCK - HEADER
  }

  function Physical(kind: byte, payload: Bytes): (r: Bytes)
    requires |payload| <= 0xffff
    ensures |r| == HEADER + |payload|
  {
    CrcBytes(kind, payload) + [|payload| % 256, |payload| / 256, kind] + payload
  }

  function KindOf(begin: bool, end: bool): (r: byte)
    ensures FULL <= r <= LAST
  {
    if begin && end then FULL else if begin then FIRST else if end then LAST else MIDDLE
  }

  function Trailer(n: nat): (r: Bytes)
    ensures |r| == n
  {
    seq(n, _ => 0)
  }

  // One fragment, its trailer included.
  function Fragment(at: nat, kind: byte, payload: Bytes): (r: Bytes)
    requires |payload| <= Avail(at)
    ensures |r| == Pad(at) + HEADER + |payload|
  {
    Trailer(Pad(at)) + Physical(kind, payload)
  }

  // Length of the first fragment of r written at a position.
  function Piece(r: Bytes, at: nat): (n: nat)
    ensures n <= |r| && n <= Avail(at) && (n < |r| ==> n == Avail(at))
  {
    if |r| < Avail(at) then |r| else Avail(at)
  }

  lemma NextBlock(at: nat)
    ensures (at + Pad(at) + HEADER + Avail(at)) % BLOCK == 0
    ensures Avail(at + Pad(at) + HEADER + Avail(at)) == BLOCK - HEADER
  {
  }

  // The bytes of a logical record, or of what is left of it.
  function Encode(r: Bytes, at: nat, begin: bool): (bs: Bytes)
    ensures bs != []
    decreases |r|, if Avail(at) == 0 then 1 else 0
  {
    var n := Piece(r, at);
    var head := Fragment(at, KindOf(begin, n == |r|), r[..n]);
    if n == |r| then head
    else
      NextBlock(at);
      head + Encode(r[n..], at + |head|, false)
  }

  // A run of records from a position on.
  function Records(rs: seq<Bytes>, at: nat): Bytes
    decreases |rs|
  {
    if rs == [] then []
    else
      var head := Encode(rs[0], at, true);
      head + Records(rs[1..], at + |head|)
  }

  lemma {:induction false} RecordsAppend(rs: seq<Bytes>, r: Bytes, at: nat)
    ensures Records(rs + [r], at) == Records(rs, at) + Encode(r, at + |Records(rs, at)|, true)
    decreases |rs|
  {
    hide Encode;
    if rs == [] {
      assert (rs + [r])[1..] == [];
    } else {
      var head := Encode(rs[0], at, true);
      assert (rs + [r])[1..] == rs[1..] + [r];
      RecordsAppend(rs[1..], r, at + |head|);
    }
  }

  // ---- What any bytes mean to the reader ----

  datatype Reason =
    | BadLength | ChecksumMismatch | PartialWithoutEnd | MissingStart | ErrorInMiddle | UnknownType

  // A corruption report.
  datatype Drop = Drop(bytes: nat, reason: Reason)

  // The outcome of reading one physical record; `used` counts the bytes taken from the buffer.
  datatype Phys = Phys(kind: byte, payload: Bytes, used: nat, drops: seq<Drop>)

  // A physical record at the front of a block's remaining bytes.
  function Parse(buf: Bytes, eof: bool): (r: Phys)
    requires |buf| >= HEADER
    ensures HEADER <= r.used <= |buf|
  {
    var length := (buf[4] as nat) + 256 * (buf[5] as nat);
    var kind := buf[6];
    if HEADER + length > |buf| then
      if eof then Phys(EOF, [], |buf|, []) else Phys(BAD, [], |buf|, [Drop(|buf|, BadLength)])
    else if kind == ZERO && length == 0 then
      Phys(BAD, [], |buf|, [])
    else if !CrcMatches(buf[..4], kind, buf[HEADER..HEADER + length]) then
      Phys(BAD, [], |buf|, [Drop(|buf|, ChecksumMismatch)])
    else
      Phys(kind, buf[HEADER..HEADER + length], HEADER + length, [])
  }

  // End of the block holding a position.
  function BlockEnd(at: nat): (r: nat)
    ensures at < r <= at + BLOCK && r % BLOCK == 0
  {
    at - at % BLOCK + BLOCK
  }

  function Least(a: nat, b: nat): nat {
    if a < b then a else b
  }

  // The physical record read from position p of file f; `used` counts from p.
  function PhysAt(f: Bytes, p: nat): (r: Phys)
    requires p <= |f|
    ensures p + r.used <= |f| && (r.kind != EOF ==> r.used > 0)
  {
    var start := p + Pad(p);
    if start + HEADER > |f| then Phys(EOF, [], |f| - p, [])
    else
      assert start + HEADER <= BlockEnd(start);
      var ph := Parse(f[start..Least(BlockEnd(start), |f|)], BlockEnd(start) > |f|);
      ph.(used := Pad(p) + ph.used)
  }

  // The outcome of reading a logical record: the record and its offset, the position after, and reports.
  datatype Logical = Logical(record: Option<Bytes>, offset: int, next: nat, drops: seq<Drop>)

  function Reporting(drops: seq<Drop>, l: Logical): Logical {
    l.(drops := drops + l.drops)
  }

  // Reassembly from position p; `scratch` is the record so far, begun at offset `from`.
  function ReadFrom(f: Bytes, p: nat, inFragment: bool, scratch: Bytes, from: int): (r: Logical)
    requires p <= |f|
    ensures r.next <= |f| && (r.record.Some? ==> r.next > p)
    decreases |f| - p
  {
    var ph := PhysAt(f, p);
    var next := p + ph.used;
    var offset := next - HEADER - |ph.payload|;
    var dangling := if inFragment && scratch != [] then [Drop(|scratch|, PartialWithoutEnd)] else [];
    if ph.kind == EOF then
      Logical(None, from, next, ph.drops)
    else if ph.kind == FULL then
      Logical(Some(ph.payload), offset, next, ph.drops + dangling)
    else if ph.kind == FIRST then
      Reporting(ph.drops + dangling, ReadFrom(f, next, true, ph.payload, offset))
    else if ph.kind == MIDDLE then
      if inFragment then Reporting(ph.drops, ReadFrom(f, next, true, scratch + ph.payload, from))
      else Reporting(ph.drops + [Drop(|ph.payload|, MissingStart)], ReadFrom(f, next, false, scratch, from))
    else if ph.kind == LAST then
      if inFragment then Logical(Some(scratch + ph.payload), from, next, ph.drops)
      else Reporting(ph.drops + [Drop(|ph.payload|, MissingStart)], ReadFrom(f, next, false, scratch, from))
    else if ph.kind == BAD then
      if inFragment then Reporting(ph.drops + [Drop(|scratch|, ErrorInMiddle)], ReadFrom(f, next, false, [], from))
      else Reporting(ph.drops, ReadFrom(f, next, false, scratch, from))
    else
      var size := |ph.payload| + if inFragment then |scratch| else 0;
      Reporting(ph.drops + [Drop(size, UnknownType)], ReadFrom(f, next, false, [], from))
  }

  // Everything read until the first failure.
  function ReadAll(f: Bytes, p: nat): (r: (seq<Bytes>, seq<Drop>))
    requires p <= |f|
    decreases |f| - p
  {
    var one := ReadFrom(f, p, false, [], 0);
    if one.record.None? then ([], one.drops)
    else
      var tail := ReadAll(f, one.next);
      ([one.record.value] + tail.0, one.drops + tail.1)
  }
}
