// The layout of a table file: stored blocks, block handles and the footer (table/format.cc).

module TableFormat {
  import opened DbFormat
  import opened Coding
  import opened LogFormat
  import Crc32c

  // Where a block is in the file, in 64-bit numbers.
  datatype Handle = Handle(offset: nat, size: nat)

  const TRAILER: nat := 5

  const NO_COMPRESSION: byte := 0

  // ---- Handles ----

  function HandleBytes(h: Handle): Bytes {
    Varint(h.offset % TWO64) + Varint(h.size % TWO64)
  }

  function GetHandle(bs: Bytes): Option<Parsed<Handle>> {
    var a := GetVarint64(bs);
    if a.None? then None
    else
      var b := GetVarint64(a.value.rest);
      if b.None? then None else Some(Parsed(Handle(a.value.value, b.value.value), b.value.rest))
  }

  lemma HandleRoundTrip(h: Handle, rest: Bytes)
    requires h.offset < TWO64 && h.size < TWO64
    ensures GetHandle(HandleBytes(h) + rest) == Some(Parsed(h, rest))
  {
    hide GetVarint64, Varint;
    assert HandleBytes(h) + rest == Varint(h.offset) + (Varint(h.size) + rest);
    Varint64RoundTrip(h.offset, Varint(h.size) + rest);
    Varint64RoundTrip(h.size, rest);
  }

  lemma HandleLength(h: Handle)
    ensures 0 < |HandleBytes(h)| <= 20
  {
    hide Varint, Pow128;
    Pow10();
    VarintLength(h.offset % TWO64, 10);
    VarintLength(h.size % TWO64, 10);
  }

  method EncodeHandle(h: Handle) returns (r: Bytes)
    ensures r == HandleBytes(h)
  {
    var a := EncodeVarint64(h.offset % TWO64);
    var b := EncodeVarint64(h.size % TWO64);
    r := a + b;
  }

  // ---- Stored blocks ----

  // After the contents: the type byte and the masked checksum of both.
  function StoredTrailer(contents: Bytes): (r: Bytes)
    ensures |r| == TRAILER
  {
    [NO_COMPRESSION] + EncodeFixed(Crc32c.Mask(Crc32c.Simple(0, Bits(contents + [NO_COMPRESSION]))) as nat, 4)
  }

  predicate BlockCrcMatches(stored: Bytes, contents: Bytes, kind: byte)
    requires |stored| == 4
  {
    DecodeBound(stored);
    Four();
    Crc32c.Unmask(DecodeFixed(stored) as bv32) == Crc32c.Simple(0, Bits(contents + [kind]))
  }

  lemma BlockCrcAccepted(contents: Bytes)
    ensures BlockCrcMatches(StoredTrailer(contents)[1..], contents, NO_COMPRESSION)
  {
    hide EncodeFixed, DecodeFixed, Span, Crc32c.Mask, Crc32c.Unmask, Crc32c.Simple;
    Four();
    var crc := Crc32c.Simple(0, Bits(contents + [NO_COMPRESSION]));
    FixedRoundTrip(Crc32c.Mask(crc) as nat, 4);
    AsWord(Crc32c.Mask(crc));
    Crc32c.MaskRoundTrip(crc);
    assert StoredTrailer(contents)[1..] == EncodeFixed(Crc32c.Mask(crc) as nat, 4);
  }

  // ReadBlock on any file; compressed blocks are not read here.
  function ReadBlock(file: Bytes, h: Handle, verify: bool): Option<Bytes> {
    if h.offset + h.size + TRAILER > |file| then None
    else
      var data := file[h.offset..h.offset + h.size + TRAILER];
      var contents, kind, stored := data[..h.size], data[h.size], data[h.size + 1..];
      if verify && !BlockCrcMatches(stored, contents, kind) then None
      else if kind == NO_COMPRESSION then Some(contents)
      else None
  }

  // The file has these contents at h.
  ghost predicate Holds(file: Bytes, h: Handle, contents: Bytes) {
    h.size == |contents| && h.offset + h.size + TRAILER <= |file|
    && file[h.offset..h.offset + h.size + TRAILER] == contents + StoredTrailer(contents)
  }

  lemma HeldReads(file: Bytes, h: Handle, contents: Bytes, verify: bool)
    requires Holds(file, h, contents)
    ensures ReadBlock(file, h, verify) == Some(contents)
  {
    hide StoredTrailer, BlockCrcMatches;
    BlockCrcAccepted(contents);
    var data := contents + StoredTrailer(contents);
    assert data[..h.size] == contents && data[h.size + 1..] == StoredTrailer(contents)[1..];
    TypeByte(contents);
    assert data[h.size] == StoredTrailer(contents)[0];
  }

  lemma TypeByte(contents: Bytes)
    ensures StoredTrailer(contents)[0] == NO_COMPRESSION
  {
  }

  lemma HeldLater(file: Bytes, more: Bytes, h: Handle, contents: Bytes)
    requires Holds(file, h, contents)
    ensures Holds(file + more, h, contents)
  {
    assert (file + more)[h.offset..h.offset + h.size + TRAILER] == file[h.offset..h.offset + h.size + TRAILER];
  }

  lemma HeldInside(file: Bytes, h: Handle, contents: Bytes)
    requires Holds(file, h, contents)
    ensures h.offset < |file|
  {
  }

  lemma HeldNow(file: Bytes, contents: Bytes)
    ensures Holds(file + contents + StoredTrailer(contents), Handle(|file|, |contents|), contents)
  {
    var all := file + contents + StoredTrailer(contents);
    assert all[|file|..|file| + |contents| + TRAILER] == contents + StoredTrailer(contents);
  }

  // WriteRawBlock: the checksum of the contents extended by the type byte.
  method WriteRawBlock(file: Bytes, contents: Bytes) returns (r: Bytes, handle: Handle)
    ensures r == file + contents + StoredTrailer(contents) && handle == Handle(|file|, |contents|)
    ensures Holds(r, handle, contents)
  {
    hide Crc32c.Simple, Crc32c.Mask;
    handle := Handle(|file|, |contents|);
    var crc := Crc32c.Extend(0, Bits(contents), 0);
    crc := Crc32c.Extend(crc, Bits([NO_COMPRESSION]), 0);
    Crc32c.SimpleConcat(0, Bits(contents), Bits([NO_COMPRESSION]));
    assert Bits(contents) + Bits([NO_COMPRESSION]) == Bits(contents + [NO_COMPRESSION]);
    r := file + contents;
    r := r + ([NO_COMPRESSION] + EncodeFixed(Crc32c.Mask(crc) as nat, 4));
    HeldNow(file, contents);
  }

  // ---- The footer ----

  const FOOTER: nat := 48

  const MAGIC_LOW: nat := 0x8b80fb57
  const MAGIC_HIGH: nat := 0xdb477524

  function Padded(bs: Bytes, n: nat): (r: Bytes)
    requires |bs| <= n
    ensures |r| == n
  {
    bs + seq(n - |bs|, i => 0)
  }

  function FooterBytes(meta: Handle, index: Handle): (r: Bytes)
    ensures |r| == FOOTER
  {
    HandleLength(meta);
    HandleLength(index);
    Padded(HandleBytes(meta) + HandleBytes(index), 40) + EncodeFixed(MAGIC_LOW, 4) + EncodeFixed(MAGIC_HIGH, 4)
  }

  datatype Footer = Footer(meta: Handle, index: Handle)

  function GetFooter(bs: Bytes): Option<Footer>
    requires |bs| == FOOTER
  {
    if DecodeFixed(bs[40..44]) != MAGIC_LOW || DecodeFixed(bs[44..]) != MAGIC_HIGH then None
    else
      var meta := GetHandle(bs);
      if meta.None? then None
      else
        var index := GetHandle(meta.value.rest);
        if index.None? then None else Some(Footer(meta.value.value, index.value.value))
  }

  lemma FooterRoundTrip(meta: Handle, index: Handle)
    requires meta.offset < TWO64 && meta.size < TWO64 && index.offset < TWO64 && index.size < TWO64
    ensures GetFooter(FooterBytes(meta, index)) == Some(Footer(meta, index))
  {
    hide HandleBytes, EncodeFixed, DecodeFixed, Span, GetHandle;
    HandleLength(meta);
    HandleLength(index);
    var a, b := HandleBytes(meta), HandleBytes(index);
    var bs := FooterBytes(meta, index);
    assert bs[40..44] == EncodeFixed(MAGIC_LOW, 4) && bs[44..] == EncodeFixed(MAGIC_HIGH, 4);
    Four();
    FixedRoundTrip(MAGIC_LOW, 4);
    FixedRoundTrip(MAGIC_HIGH, 4);
    var tail := bs[|a| + |b|..];
    assert bs == a + (b + tail);
    HandleRoundTrip(meta, b + tail);
    HandleRoundTrip(index, tail);
  }
}
