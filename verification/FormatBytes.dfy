// Bytes spelled out.

module FormatBytes {
  // What the formats of the store put on disk, byte by byte (util/coding.cc, db/write_batch.cc, db/dbformat.cc,
  // db/version_edit.cc, db/log_format.h, table/block_builder.cc, table/format.cc, table/filter_block.cc,
  // util/bloom.cc).

  import opened DbFormat
  import opened Coding
  import Crc32c
  import LogFormat
  import LogFile
  import LogLayout
  import W = WriteBatch
  import E = VersionEdits
  import B = BlockFormat
  import T = TableFormat
  import TableBuilding
  import K = KeyEmbedding

  // ---- Integers and strings ----

  // Byte i of a fixed-width number is its i-th digit to the base 256.
  lemma {:induction false} FixedAt(v: nat, width: nat, i: nat)
    requires i < width
    ensures EncodeFixed(v, width)[i] == v / Span(i) % 256
  {
    if i > 0 {
      FixedAt(v / 256, width - 1, i - 1);
      assert EncodeFixed(v, width)[i] == EncodeFixed(v / 256, width - 1)[i - 1];
      DivideTwice(v, Span(i - 1));
    }
  }

  lemma DivideTwice(v: nat, n: nat)
    requires n > 0
    ensures v / 256 / n == v / (256 * n)
  {
    var w, low := v / 256, v % 256;
    Scaled(n, w / n, w % n, low);
    B.Division(v, 256 * n, w / n, 256 * (w % n) + low);
  }

  lemma Scaled(n: nat, q: nat, r: nat, low: nat)
    requires r < n && low < 256
    ensures 256 * (n * q + r) + low == 256 * n * q + (256 * r + low) && 256 * r + low < 256 * n
  {
  }

  lemma FixedExample()
    ensures EncodeFixed(0x04030201, 4) == [1, 2, 3, 4]
  {
  }

  lemma VarintExample()
    ensures Varint(0) == [0] && Varint(127) == [127] && Varint(128) == [0x80, 1] && Varint(300) == [0xac, 2]
    ensures Varint(0xffff_ffff) == [0xff, 0xff, 0xff, 0xff, 0x0f]
  {
  }

  lemma PrefixedExample()
    ensures Prefixed([0x61, 0x62]) == [2, 0x61, 0x62]
  {
  }

  // ---- Write batches ----

  lemma OpExample()
    ensures W.OpBytes(W.PutOp([0x6b], [0x76, 0x77])) == [1, 1, 0x6b, 2, 0x76, 0x77]
    ensures W.OpBytes(W.DeleteOp([0x78])) == [0, 1, 0x78]
  {
  }

  // put "k" = "vw", delete "x", numbered from 7: the number, the count, the operations.
  lemma BatchExample()
    ensures W.BatchBytes(7, [W.PutOp([0x6b], [0x76, 0x77]), W.DeleteOp([0x78])]) ==
      [7, 0, 0, 0, 0, 0, 0, 0] + [2, 0, 0, 0] + ([1, 1, 0x6b, 2, 0x76, 0x77] + [0, 1, 0x78])
  {
    hide W.OpBytes;
    OpExample();
    CountExample();
    TwoOps(W.PutOp([0x6b], [0x76, 0x77]), W.DeleteOp([0x78]));
  }

  lemma CountExample()
    ensures EncodeFixed(7, 8) == [7, 0, 0, 0, 0, 0, 0, 0] && EncodeFixed(2, 4) == [2, 0, 0, 0]
  {
  }

  lemma TwoOps(a: W.Op, b: W.Op)
    ensures W.OpsBytes([a, b]) == W.OpBytes(a) + W.OpBytes(b)
  {
    hide W.OpBytes;
    assert [a, b][..1] == [a] && [a][..0] == [];
    assert W.OpsBytes([]) + W.OpBytes(a) == W.OpBytes(a);
    assert W.OpsBytes([a]) == W.OpsBytes([]) + W.OpBytes(a);
  }

  // Operations before an unknown tag are handed over.
  lemma UnknownTag(ops: seq<W.Op>, tag: byte, rest: Bytes)
    requires W.AllFit(ops) && tag > 1
    ensures W.GetOps(W.OpsBytes(ops) + ([tag] + rest)) == (ops, W.UnknownTag)
  {
    hide W.OpsBytes;
    W.OpsRoundTrip(ops, [tag] + rest);
    assert W.GetOps([tag] + rest) == ([], W.UnknownTag) && ops + [] == ops;
  }

  // A key or a value cut short is an error of its kind of operation.
  lemma BadBatches(rep: Bytes, rest: Bytes, key: Bytes)
    ensures |rep| < 12 ==> W.Parse(rep) == ([], W.TooSmall)
    ensures GetPrefixed(rest) == None ==> W.GetOps([1] + rest) == ([], W.BadPut)
    ensures GetPrefixed(rest) == None ==> W.GetOps([0] + rest) == ([], W.BadDelete)
    ensures GetPrefixed(rest) == None && |key| < TWO32 ==> W.GetOps([1] + (Prefixed(key) + rest)) == ([], W.BadPut)
  {
    hide GetPrefixed, Prefixed;
    PrefixedRoundTrip(if |key| < TWO32 then key else [], rest);
    assert ([1] + rest)[1..] == rest && ([0] + rest)[1..] == rest;
    assert ([1] + (Prefixed(key) + rest))[1..] == Prefixed(key) + rest;
  }

  // A batch with more or fewer operations than its header says is reported, its operations handed over all the same.
  lemma CountChecked(rep: Bytes)
    requires |rep| >= 12 && W.GetOps(rep[12..]).1.Done?
    ensures var ops := W.GetOps(rep[12..]).0;
      W.Parse(rep) == (ops, if DecodeFixed(rep[8..12]) == |ops| < 0x8000_0000 then W.Done else W.WrongCount)
  {
    hide DecodeFixed, W.GetOps, Span;
    Four();
    DecodeBound(rep[8..12]);
  }

  lemma Four()
    ensures Span(4) == TWO32
  {
    assert Span(2) == 65536;
  }

  // ---- Internal keys ----

  lemma LowByteFirst(low: nat, v: nat)
    requires low < 256
    ensures EncodeFixed(256 * v + low, 8) == [low] + EncodeFixed(v, 7)
  {
    assert (256 * v + low) % 256 == low && (256 * v + low) / 256 == v;
  }

  // After the user key a byte for the type, 1 for a value and 0 for a deletion, and seven for the number.
  lemma KeyLayout(key: InternalKey)
    ensures EncodeFixed(key.Tag(), 8) == [if key.kind.Put? then 1 else 0] + EncodeFixed(key.sn, 7)
  {
    hide EncodeFixed;
    LowByteFirst(if key.kind.Put? then 1 else 0, key.sn);
  }

  // A lookup key has the type of a value.
  lemma SeekLayout(user: Bytes, s: SequenceNumber)
    ensures K.SeekBytes(user, s) == user + ([1] + EncodeFixed(s, 7))
  {
    hide EncodeFixed;
    LowByteFirst(1, s);
  }

  // ---- Version edits ----

  // Every kind of item, its tag first.
  lemma ItemExample()
    ensures E.ItemBytes(E.Comparator([0x63])) == [1, 1, 0x63] && E.ItemBytes(E.LogNumber(9)) == [2, 9]
    ensures E.ItemBytes(E.NextFileNumber(10)) == [3, 10] && E.ItemBytes(E.LastSequence(300)) == [4, 0xac, 2]
    ensures E.ItemBytes(E.CompactPointer(1, [0x61])) == [5, 1, 1, 0x61]
    ensures E.ItemBytes(E.DeletedFile(2, 5)) == [6, 2, 5] && E.ItemBytes(E.PrevLogNumber(0)) == [9, 0]
    ensures E.ItemBytes(E.AddedFile(E.NewFile(3, 6, 130, [0x62], [0x63]))) == [7, 3, 6, 0x82, 1, 1, 0x62, 1, 0x63]
  {
  }

  // Levels go up to 6, and 8 is no tag.
  lemma BadItems(bs: Bytes)
    ensures E.GetLevel([6]) == Some(Parsed(6, [])) && E.GetLevel([7]) == None
    ensures E.GetBody(8, bs) == None && E.GetBody(0, bs) == None && E.GetBody(10, bs) == None
  {
  }

  // The items of an edit come in this order.
  lemma EditExample(e: E.Edit)
    requires |e.pointers| == |e.deleted| == |e.added| == 1
    requires e.comparator.Some? && e.logNumber.Some? && e.prevLogNumber.Some? && e.nextFile.Some?
    requires e.lastSequence.Some?
    ensures E.Items(e) == [
      E.Comparator(e.comparator.value), E.LogNumber(e.logNumber.value), E.PrevLogNumber(e.prevLogNumber.value),
      E.NextFileNumber(e.nextFile.value), E.LastSequence(e.lastSequence.value),
      E.CompactPointer(e.pointers[0].0, e.pointers[0].1), E.DeletedFile(e.deleted[0].0, e.deleted[0].1),
      E.AddedFile(e.added[0])]
  {
  }

  // ---- Blocks ----

  // An entry: shared and unshared key lengths, value length, the unshared part of the key, the value.
  lemma EntryExample()
    ensures B.EntryBytes(B.Pair([0x64, 0x65, 0x63, 0x6b], [1]), 0) == [0, 4, 1, 0x64, 0x65, 0x63, 0x6b, 1]
    ensures B.EntryBytes(B.Pair([0x64, 0x6f, 0x63, 0x6b], [2]), 1) == [1, 3, 1, 0x6f, 0x63, 0x6b, 2]
    ensures B.Shared([0x64, 0x65, 0x63, 0x6b], [0x64, 0x6f, 0x63, 0x6b]) == 1
  {
    var a: Bytes, b: Bytes := [0x64, 0x65, 0x63, 0x6b], [0x64, 0x6f, 0x63, 0x6b];
    assert a[1] != b[1];
  }

  // "deck" and "dock": with one restart point the second entry leaves out the byte they share.
  lemma BlockExample(a: B.Pair, b: B.Pair)
    requires a == B.Pair([0x64, 0x65, 0x63, 0x6b], [1]) && b == B.Pair([0x64, 0x6f, 0x63, 0x6b], [2])
    ensures B.BlockBytes([a, b], 16) ==
      [0, 4, 1, 0x64, 0x65, 0x63, 0x6b, 1] + [1, 3, 1, 0x6f, 0x63, 0x6b, 2] + [0, 0, 0, 0] + [1, 0, 0, 0]
  {
    hide B.EntryBytes, B.Shared, EncodeFixed;
    EntryExample();
    TwoEntries(a, b, 16);
    Words(0);
    WordExample();
    assert B.Phase(0, 16) == 0 && B.Phase(1, 16) == 1;
    assert B.Restarts([a, b], 2, 16) == [0] + [] == [0];
  }

  // With an entry a restart point nothing is shared, and the second one starts at byte 8.
  lemma RestartExample(a: B.Pair, b: B.Pair)
    requires a == B.Pair([0x64, 0x65, 0x63, 0x6b], [1]) && b == B.Pair([0x64, 0x6f, 0x63, 0x6b], [2])
    ensures B.BlockBytes([a, b], 1) ==
      [0, 4, 1, 0x64, 0x65, 0x63, 0x6b, 1] + [0, 4, 1, 0x64, 0x6f, 0x63, 0x6b, 2]
      + ([0, 0, 0, 0] + [8, 0, 0, 0]) + [2, 0, 0, 0]
  {
    hide B.EntryBytes, B.Shared, EncodeFixed;
    EntryExample();
    UnsharedExample();
    TwoRestarts(a, b);
    WordExample();
  }

  lemma TwoRestarts(a: B.Pair, b: B.Pair)
    ensures B.BlockBytes([a, b], 1) ==
      B.EntryBytes(a, 0) + B.EntryBytes(b, 0) + (EncodeFixed(0, 4) + EncodeFixed(|B.EntryBytes(a, 0)|, 4))
      + EncodeFixed(2, 4)
  {
    hide B.EntryBytes, B.Shared, EncodeFixed, B.Body, B.Fixed32s;
    var ps, n := [a, b], |B.EntryBytes(a, 0)|;
    assert B.Phase(0, 1) == 0 && B.Phase(1, 1) == 0;
    TwoEntries(a, b, 1);
    NoEntries(ps);
    Words2(0, n);
    assert B.Restarts(ps, 1, 1) == [0];
    assert B.Restarts(ps, 2, 1) == [0] + [n] == [0, n];
  }

  lemma NoEntries(ps: seq<B.Pair>)
    ensures B.Offset(ps, 0, 1) == 0
  {
  }

  lemma UnsharedExample()
    ensures B.EntryBytes(B.Pair([0x64, 0x6f, 0x63, 0x6b], [2]), 0) == [0, 4, 1, 0x64, 0x6f, 0x63, 0x6b, 2]
  {
  }

  lemma TwoEntries(a: B.Pair, b: B.Pair, interval: nat)
    requires interval > 0
    ensures B.Body([a, b], 1, interval) == B.EntryBytes(a, 0)
    ensures B.Body([a, b], 2, interval) == B.EntryBytes(a, 0) + B.EntryBytes(b, B.SharedAt([a, b], 1, interval))
  {
    hide B.EntryBytes, B.Shared;
    assert B.Body([a, b], 0, interval) == [];
    assert B.Phase(0, interval) == 0 && B.SharedAt([a, b], 0, interval) == 0;
  }

  lemma Words(x: nat)
    ensures B.Fixed32s([x]) == EncodeFixed(x, 4)
  {
    hide EncodeFixed;
    assert [x][..0] == [] && B.Fixed32s([]) == [];
    assert B.Fixed32s([x]) == B.Fixed32s([x][..0]) + EncodeFixed(x, 4);
  }

  lemma Words2(x: nat, y: nat)
    ensures B.Fixed32s([x, y]) == EncodeFixed(x, 4) + EncodeFixed(y, 4)
  {
    hide EncodeFixed;
    Words(x);
    assert [x, y][..1] == [x];
  }

  lemma WordExample()
    ensures EncodeFixed(0, 4) == [0, 0, 0, 0] && EncodeFixed(1, 4) == [1, 0, 0, 0]
    ensures EncodeFixed(2, 4) == [2, 0, 0, 0] && EncodeFixed(8, 4) == [8, 0, 0, 0]
  {
  }

  // ---- The log ----

  // The record "a" in an empty log: checksum 0xa20bcdb5, length 1, type 1, the byte.
  method OneByteLog() returns (file: Bytes)
    ensures file == [0xb5, 0xcd, 0x0b, 0xa2] + [1, 0, 1] + [0x61]
  {
    hide Crc32c.Simple, EncodeFixed, LogFormat.Bits, LogLayout.Laid;
    var writer := new LogFile.Writer([]);
    writer.AddRecord([0x61]);
    file := writer.dest;
    RecordChecksum();
    LogFormat.AsWord(0xa20b_cdb5);
    assert EncodeFixed(0xa20b_cdb5, 4) == [0xb5, 0xcd, 0x0b, 0xa2] by { MaskedExample(); }
    assert LogFormat.Encode([0x61], 0, true) == LogFormat.Fragment(0, 1, [0x61]) by { OneFragment(); }
    assert [] + LogFormat.Fragment(0, 1, [0x61]) == LogFormat.Physical(1, [0x61]);
  }

  lemma OneFragment()
    ensures LogFormat.Encode([0x61], 0, true) == LogFormat.Fragment(0, 1, [0x61])
    ensures LogFormat.Fragment(0, 1, [0x61]) == LogFormat.Physical(1, [0x61])
  {
    var r: Bytes := [0x61];
    assert r[..1] == r;
  }

  lemma MaskedExample()
    ensures EncodeFixed(0xa20b_cdb5, 4) == [0xb5, 0xcd, 0x0b, 0xa2]
    ensures EncodeFixed(0x4925_8fd2, 4) == [0xd2, 0x8f, 0x25, 0x49]
  {
  }

  // The checksum of type 1 and "a", as stored.
  lemma RecordChecksum()
    ensures Crc32c.Mask(Crc32c.Simple(0, LogFormat.Bits([1] + [0x61]))) == 0xa20b_cdb5
  {
    hide Crc32c.Shift8, Crc32c.Xor, Crc32c.Wide, Crc32c.Fold;
    var data := LogFormat.Bits([1] + [0x61]);
    assert data == [1, 0x61];
    FoldTwo(0xffff_ffff, data);
    RecordSteps();
  }

  lemma FoldOne(l: bv32, data: seq<bv8>)
    requires |data| == 1
    ensures Crc32c.Fold(l, data) == Crc32c.Shift8(Crc32c.Xor(l, Crc32c.Wide(data[0])))
  {
    hide Crc32c.Shift8, Crc32c.Xor, Crc32c.Wide;
    assert data[1..] == [];
  }

  lemma FoldTwo(l: bv32, data: seq<bv8>)
    requires |data| == 2
    ensures Crc32c.Fold(l, data) ==
      Crc32c.Shift8(Crc32c.Xor(Crc32c.Shift8(Crc32c.Xor(l, Crc32c.Wide(data[0]))), Crc32c.Wide(data[1])))
  {
    hide Crc32c.Shift8, Crc32c.Xor, Crc32c.Wide;
    FoldOne(Crc32c.Shift8(Crc32c.Xor(l, Crc32c.Wide(data[0]))), data[1..]);
  }

  lemma RecordSteps()
    ensures Crc32c.Xor(0, Crc32c.CRC_XOR) == 0xffff_ffff
    ensures Crc32c.Shift8(Crc32c.Xor(0xffff_ffff, Crc32c.Wide(1))) == 0x5fe9_2fad
    ensures Crc32c.Shift8(Crc32c.Xor(0x5fe9_2fad, Crc32c.Wide(0x61))) == 0x8e91_003b
    ensures Crc32c.Xor(0x8e91_003b, Crc32c.CRC_XOR) == 0x716e_ffc4 && Crc32c.Mask(0x716e_ffc4) == 0xa20b_cdb5
  {
  }

  // ---- Tables ----

  lemma FooterExample()
    ensures T.FooterBytes(T.Handle(300, 8), T.Handle(313, 21)) ==
      [0xac, 2, 8, 0xb9, 2, 21] + seq(34, i => 0) + [0x57, 0xfb, 0x80, 0x8b, 0x24, 0x75, 0x47, 0xdb]
  {
  }

  // The name a filter block is filed under starts with "filter.".
  lemma FilterName()
    ensures TableBuilding.FILTER_PREFIX == [0x66, 0x69, 0x6c, 0x74, 0x65, 0x72, 0x2e]
  {
  }

  // After an empty block: type 0 and the stored checksum of that byte.
  lemma TrailerExample()
    ensures T.StoredTrailer([]) == [0] + [0xd2, 0x8f, 0x25, 0x49]
  {
    hide Crc32c.Shift8, Crc32c.Xor, Crc32c.Wide, Crc32c.Fold, EncodeFixed;
    var data := LogFormat.Bits([] + [0]);
    assert data == [0] && data[1..] == [];
    assert Crc32c.Fold(0xffff_ffff, data) == Crc32c.Shift8(Crc32c.Xor(0xffff_ffff, Crc32c.Wide(0))) by {
      FoldOne(0xffff_ffff, data);
    }
    TrailerSteps();
    LogFormat.AsWord(0x4925_8fd2);
    MaskedExample();
  }

  lemma TrailerSteps()
    ensures Crc32c.Xor(0, Crc32c.CRC_XOR) == 0xffff_ffff
    ensures Crc32c.Shift8(Crc32c.Xor(0xffff_ffff, Crc32c.Wide(0))) == 0xad82_acae
    ensures Crc32c.Xor(0xad82_acae, Crc32c.CRC_XOR) == 0x527d_5351 && Crc32c.Mask(0x527d_5351) == 0x4925_8fd2
  {
  }
}
