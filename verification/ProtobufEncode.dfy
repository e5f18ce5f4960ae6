// The nanopb encoder.

module ProtobufEncode {
  // An output stream that writes or only counts, and the two passes over submessages
  // and packed arrays (pb_encode.c).

  import opened DbFormat
  import opened Coding
  import P = Protobuf

  class OutStream {
    const sizing: bool  // no callback: nothing is written, bytes are counted
    const maxSize: nat
    var written: Bytes
    var bytesWritten: nat

    ghost predicate Ok()
      reads this
    {
      if sizing then written == [] else bytesWritten == |written| <= maxSize
    }

    constructor (counting: bool, size: nat)
      ensures Ok() && sizing == counting && maxSize == size && written == [] && bytesWritten == 0
    {
      sizing, maxSize, written, bytesWritten := counting, size, [], 0;
    }

    ghost predicate Fits(from: nat, count: nat) {
      sizing || from + count <= maxSize
    }

    // bs was added to a stream that held w and had counted n bytes.
    ghost predicate Has(w: Bytes, n: nat, bs: Bytes)
      reads this
    {
      Ok() && bytesWritten == n + |bs| && written == w + if sizing then [] else bs
    }

    // pb_write.
    method Write(buf: Bytes) returns (ok: bool)
      requires Ok()
      modifies this
      ensures ok <==> Fits(old(bytesWritten), |buf|)
      ensures ok ==> Has(old(written), old(bytesWritten), buf)
    {
      if |buf| > 0 && !sizing {
        if bytesWritten + |buf| > maxSize {
          return false;
        }
        written := written + buf;
      }
      bytesWritten := bytesWritten + |buf|;
      ok := true;
    }

    // pb_write with no buffer, for a stream that only counts.
    method Count(size: nat, ghost bs: Bytes)
      requires Ok() && sizing && size == |bs|
      modifies this
      ensures Has(old(written), old(bytesWritten), bs)
    {
      bytesWritten := bytesWritten + size;
    }
  }

  // pb_encode_varint.
  method EncodeVarint(s: OutStream, v: nat) returns (ok: bool)
    requires s.Ok()
    modifies s
    ensures ok <==> s.Fits(old(s.bytesWritten), |Varint(v)|)
    ensures ok ==> s.Has(old(s.written), old(s.bytesWritten), Varint(v))
  {
    if v <= 0x7F {
      ok := s.Write([v]);
      return;
    }
    var buffer := VarintBuffer(v);
    ok := s.Write(buffer);
  }

  // Seven bits a turn, every byte marked, then the last one unmarked.
  method VarintBuffer(v: nat) returns (buffer: Bytes)
    requires v > 0x7F
    ensures buffer == Varint(v)
  {
    hide Varint;
    buffer := [];
    var value: nat := v;
    while value > 0
      invariant value > 0 ==> buffer + Varint(value) == Varint(v)
      invariant value == 0 ==> buffer != [] && buffer[|buffer| - 1] >= 128 && Cleared(buffer) == Varint(v)
    {
      VarintTurn(buffer, value, v);
      buffer := buffer + [value % 128 + 128];
      value := value / 128;
    }
    buffer := buffer[|buffer| - 1 := buffer[|buffer| - 1] - 128];
  }

  // The buffer with the top bit of its last byte unset.
  ghost function Cleared(bs: Bytes): Bytes
    requires bs != [] && bs[|bs| - 1] >= 128
  {
    bs[|bs| - 1 := bs[|bs| - 1] - 128]
  }

  lemma VarintTurn(buffer: Bytes, value: nat, v: nat)
    requires value > 0 && buffer + Varint(value) == Varint(v)
    ensures var next := buffer + [value % 128 + 128];
            if value / 128 > 0 then next + Varint(value / 128) == Varint(v) else Cleared(next) == Varint(v)
  {
    var next := buffer + [value % 128 + 128];
    if value >= 128 {
      assert next + Varint(value / 128) == buffer + ([value % 128 + 128] + Varint(value / 128));
    } else {
      assert Cleared(next) == buffer + [value];
    }
  }

  method EncodeTag(s: OutStream, wireType: nat, tag: nat) returns (ok: bool)
    requires s.Ok()
    modifies s
    ensures ok <==> s.Fits(old(s.bytesWritten), |P.TagBytes(tag, wireType)|)
    ensures ok ==> s.Has(old(s.written), old(s.bytesWritten), P.TagBytes(tag, wireType))
  {
    ok := EncodeVarint(s, 8 * tag + wireType);
  }

  // pb_encode_string.
  method EncodeString(s: OutStream, bs: Bytes) returns (ok: bool)
    requires s.Ok()
    modifies s
    ensures ok <==> s.Fits(old(s.bytesWritten), |P.Sized(bs)|)
    ensures ok ==> s.Has(old(s.written), old(s.bytesWritten), P.Sized(bs))
  {
    hide Varint;
    ok := EncodeVarint(s, |bs|);
    if ok {
      ok := s.Write(bs);
    }
  }

  // The scalar encoders.
  method EncodeScalar(s: OutStream, k: P.FieldType, v: P.Datum) returns (ok: bool)
    requires s.Ok() && !k.Sub?
    modifies s
    ensures ok <==> P.Payload(k, v).Some? && s.Fits(old(s.bytesWritten), |P.Payload(k, v).value|)
    ensures ok ==> s.Has(old(s.written), old(s.bytesWritten), P.Payload(k, v).value)
  {
    hide Varint, EncodeFixed, P.UpToNul, P.Sized;
    if k.Blob? || k.Text? || k.FixedBlob? {
      if !v.Raw? || (k.Blob? && |v.bytes| > k.limit) || (k.Text? && |v.bytes| > k.room)
        || (k.FixedBlob? && |v.bytes| != k.size) {
        return false;
      }
      var bs := v.bytes;
      if k.Text? {
        bs := StringLength(v.bytes);
      }
      ok := EncodeString(s, bs);
    } else {
      if !v.Num? {
        return false;
      }
      if k.Bool? {
        ok := EncodeVarint(s, if v.n != 0 then 1 else 0);
      } else if k.SInt? {
        ok := EncodeVarint(s, P.ZigZag(v.n) % TWO64);
      } else if k.Fixed32? {
        ok := s.Write(EncodeFixed(v.n % TWO32, 4));
      } else if k.Fixed64? {
        ok := s.Write(EncodeFixed(v.n % TWO64, 8));
      } else {
        ok := EncodeVarint(s, v.n % TWO64);
      }
    }
  }

  // The strnlen loop.
  method StringLength(bs: Bytes) returns (r: Bytes)
    ensures r == P.UpToNul(bs)
  {
    var size := 0;
    while size < |bs| && bs[size] != 0
      invariant size <= |bs| && P.UpToNul(bs) == bs[..size] + P.UpToNul(bs[size..])
    {
      assert bs[size..][1..] == bs[size + 1..];
      assert bs[..size + 1] == bs[..size] + [bs[size]];
      size := size + 1;
    }
    r := bs[..size];
  }

  // ---- Messages ----

  method EncodeValue(s: OutStream, k: P.FieldType, v: P.Datum) returns (ok: bool)
    requires s.Ok()
    modifies s
    ensures ok <==> P.Payload(k, v).Some? && s.Fits(old(s.bytesWritten), |P.Payload(k, v).value|)
    ensures ok ==> s.Has(old(s.written), old(s.bytesWritten), P.Payload(k, v).value)
    decreases k, 0
  {
    hide P.Sized, P.MsgFrom, OutStream.Has, OutStream.Fits;
    if k.Sub? {
      if !v.Msg? || |v.slots| != |k.fields| {
        return false;
      }
      ok := EncodeSubmessage(s, k.fields, v.slots);
    } else {
      ok := EncodeScalar(s, k, v);
    }
  }

  // pb_encode_submessage: a counting pass for the length, then a writing pass that is held to it.
  method EncodeSubmessage(s: OutStream, fs: seq<P.Field>, slots: seq<P.Slot>) returns (ok: bool)
    requires s.Ok() && |slots| == |fs|
    modifies s
    ensures var p := P.MsgFrom(fs, slots, 0);
            ok <==> p.Some? && s.Fits(old(s.bytesWritten), |P.Sized(p.value)|)
    ensures ok ==> s.Has(old(s.written), old(s.bytesWritten), P.Sized(P.MsgFrom(fs, slots, 0).value))
    decreases fs, |fs| + 1, 1
  {
    hide Varint, P.MsgFrom;
    var sizes := new OutStream(true, 0);
    ok := Encode(sizes, fs, slots);
    if !ok {
      return;
    }
    var size := sizes.bytesWritten;
    ok := EncodeVarint(s, size);
    if !ok {
      return;
    }
    if s.sizing {
      s.Count(size, P.MsgFrom(fs, slots, 0).value);
      return;
    }
    if s.bytesWritten + size > s.maxSize {
      return false;
    }
    var sub := new OutStream(false, size);
    ok := Encode(sub, fs, slots);
    s.bytesWritten := s.bytesWritten + sub.bytesWritten;
    s.written := s.written + sub.written;
    if sub.bytesWritten != size {
      return false;
    }
  }

  // pb_encode: every field in descriptor order.
  method Encode(s: OutStream, fs: seq<P.Field>, slots: seq<P.Slot>) returns (ok: bool)
    requires s.Ok() && |slots| == |fs|
    modifies s
    ensures var p := P.MsgFrom(fs, slots, 0);
            ok <==> p.Some? && s.Fits(old(s.bytesWritten), |p.value|)
    ensures ok ==> s.Has(old(s.written), old(s.bytesWritten), P.MsgFrom(fs, slots, 0).value)
    decreases fs, |fs| + 1, 0
  {
    hide P.FieldBytes;
    ghost var w, n := s.written, s.bytesWritten;
    ghost var sent: Bytes := [];
    NothingSent(P.MsgFrom(fs, slots, 0));
    for i := 0 to |fs|
      invariant s.Has(w, n, sent)
      invariant P.MsgFrom(fs, slots, 0) == P.Both(Some(sent), P.MsgFrom(fs, slots, i))
    {
      ghost var bytes := P.FieldBytes(fs[i], slots[i]);
      SendMore(sent, bytes, P.MsgFrom(fs, slots, i + 1));
      ok := EncodeField(s, fs[i], slots[i]);
      if !ok {
        return;
      }
      sent := sent + bytes.value;
    }
    ok := true;
  }

  lemma NothingSent(b: Option<Bytes>)
    ensures P.Both(Some([]), b) == b
  {
    if b.Some? {
      assert [] + b.value == b.value;
    }
  }

  lemma SendMore(a: Bytes, b: Option<Bytes>, c: Option<Bytes>)
    ensures P.Both(Some(a), P.Both(b, c)) == P.Both(P.Both(Some(a), b), c)
  {
    if b.Some? && c.Some? {
      assert a + (b.value + c.value) == a + b.value + c.value;
    }
  }

  // encode_basic_field.
  method EncodeField(s: OutStream, f: P.Field, slot: P.Slot) returns (ok: bool)
    requires s.Ok()
    modifies s
    ensures ok <==> P.FieldBytes(f, slot).Some? && s.Fits(old(s.bytesWritten), |P.FieldBytes(f, slot).value|)
    ensures ok ==> s.Has(old(s.written), old(s.bytesWritten), P.FieldBytes(f, slot).value)
    decreases f, 2
  {
    hide P.Payload, P.TagBytes, P.ArrayBytes, P.Sized, P.IsZero;
    match f.rule
    case Repeated(max) =>
      if !slot.Many? {
        return false;
      }
      ok := EncodeArray(s, f, max, slot.items);
    case Required =>
      if !slot.One? {
        return false;
      }
      ok := EncodeTagged(s, f, slot.v);
    case Singular =>
      if !slot.One? {
        return false;
      }
      if P.IsZero(f.kind, slot.v) {
        return true;
      }
      ok := EncodeTagged(s, f, slot.v);
    case _ =>
      if slot.Absent? {
        return true;
      }
      if !slot.One? {
        return false;
      }
      ok := EncodeTagged(s, f, slot.v);
  }

  method EncodeTagged(s: OutStream, f: P.Field, v: P.Datum) returns (ok: bool)
    requires s.Ok()
    modifies s
    ensures var p := P.Both(Some(P.TagBytes(f.tag, P.WireType(f.kind))), P.Payload(f.kind, v));
            (ok <==> p.Some? && s.Fits(old(s.bytesWritten), |p.value|))
            && (ok ==> s.Has(old(s.written), old(s.bytesWritten), p.value))
    decreases f, 0
  {
    hide P.Payload, P.TagBytes;
    ok := EncodeTag(s, P.WireType(f.kind), f.tag);
    if ok {
      ok := EncodeValue(s, f.kind, v);
    }
  }

  // encode_array: numbers are packed behind their total size, the rest get a tag each.
  method EncodeArray(s: OutStream, f: P.Field, max: nat, items: seq<P.Datum>) returns (ok: bool)
    requires s.Ok() && f.rule == P.Repeated(max)
    modifies s
    ensures var p := P.FieldBytes(f, P.Many(items));
            (ok <==> p.Some? && s.Fits(old(s.bytesWritten), |p.value|))
            && (ok ==> s.Has(old(s.written), old(s.bytesWritten), p.value))
    decreases f, 1
  {
    hide P.Payload, P.TagBytes, P.ArrayBytes, Varint;
    if |items| == 0 {
      return true;
    }
    if |items| > max {
      return false;
    }
    if !P.Packable(f.kind) {
      ok := EncodeItems(s, f, Some(P.TagBytes(f.tag, P.WireType(f.kind))), items);
      return;
    }
    ok := EncodeTag(s, P.WT_STRING, f.tag);
    if !ok {
      return;
    }
    ghost var body := P.ArrayBytes(f.kind, None, items);
    var size;
    ok, size := PackedSize(f, items);
    if !ok {
      return;
    }
    ok := EncodeVarint(s, size);
    if !ok {
      return;
    }
    if s.sizing {
      s.Count(size, body.value);
      return;
    }
    ok := EncodeItems(s, f, None, items);
  }

  // The size of a packed array: fixed-width numbers by multiplication, others by a counting pass.
  method PackedSize(f: P.Field, items: seq<P.Datum>) returns (ok: bool, size: nat)
    requires P.Packable(f.kind)
    ensures ok <==> P.ArrayBytes(f.kind, None, items).Some?
    ensures ok ==> size == |P.ArrayBytes(f.kind, None, items).value|
    decreases f, 0, |items| + 1
  {
    hide P.Payload, P.ArrayBytes;
    if f.kind.Fixed32? || f.kind.Fixed64? {
      var width := if f.kind.Fixed32? then 4 else 8;
      FixedWidth(f.kind, items, width);
      return AllNumbers(items), width * |items|;
    }
    var sizes := new OutStream(true, 0);
    ok := EncodeItems(sizes, f, None, items);
    size := sizes.bytesWritten;
  }

  // The entries are of a numeric type, as the static array makes them.
  predicate AllNumbers(items: seq<P.Datum>) {
    forall i :: 0 <= i < |items| ==> items[i].Num?
  }

  lemma {:induction false} FixedWidth(k: P.FieldType, items: seq<P.Datum>, width: nat)
    requires (k.Fixed32? && width == 4) || (k.Fixed64? && width == 8)
    ensures AllNumbers(items) <==> P.ArrayBytes(k, None, items).Some?
    ensures AllNumbers(items) ==> |P.ArrayBytes(k, None, items).value| == width * |items|
    decreases |items|
  {
    if items != [] {
      FixedWidth(k, items[1..], width);
      assert AllNumbers(items) <==> items[0].Num? && AllNumbers(items[1..]) by {
        assert forall i :: 1 <= i < |items| ==> items[i] == items[1..][i - 1];
      }
    }
  }

  method EncodeItems(s: OutStream, f: P.Field, tag: Option<Bytes>, items: seq<P.Datum>) returns (ok: bool)
    requires s.Ok() && (tag.Some? ==> tag.value == P.TagBytes(f.tag, P.WireType(f.kind)))
    modifies s
    ensures var p := P.ArrayBytes(f.kind, tag, items);
            (ok <==> p.Some? && s.Fits(old(s.bytesWritten), |p.value|))
            && (ok ==> s.Has(old(s.written), old(s.bytesWritten), p.value))
    decreases f, 0, |items|
  {
    hide P.Payload, P.TagBytes;
    ghost var w, n := s.written, s.bytesWritten;
    ghost var sent: Bytes := [];
    ghost var prefix := if tag.Some? then tag.value else [];
    NothingSent(P.ArrayBytes(f.kind, tag, items));
    assert items[0..] == items;
    for i := 0 to |items|
      invariant s.Has(w, n, sent)
      invariant P.ArrayBytes(f.kind, tag, items) == P.Both(Some(sent), P.ArrayBytes(f.kind, tag, items[i..]))
    {
      assert items[i..][0] == items[i] && items[i..][1..] == items[i + 1..];
      ghost var next := P.Both(Some(prefix), P.Payload(f.kind, items[i]));
      SendMore(sent, next, P.ArrayBytes(f.kind, tag, items[i + 1..]));
      if tag.Some? {
        ok := EncodeTag(s, P.WireType(f.kind), f.tag);
        if !ok {
          return;
        }
      }
      ok := EncodeValue(s, f.kind, items[i]);
      if !ok {
        return;
      }
      sent := sent + next.value;
    }
    ok := true;
  }
}
