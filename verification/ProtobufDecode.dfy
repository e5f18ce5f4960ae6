// The nanopb decoder.

module ProtobufDecode {
  // An input stream with bounded substreams, and the field loop that fills in the
  // struct (pb_decode.c, pb_common.c).

  import opened DbFormat
  import opened Coding
  import P = Protobuf
  import opened ProtobufRoundTrip
  import opened ProtobufEncode

  class InStream {
    const buf: Bytes
    var pos: nat
    var bytesLeft: nat

    ghost predicate Ok()
      reads this
    {
      pos + bytesLeft <= |buf|
    }

    // Where the stream stops.
    ghost function End(): nat
      reads this
    {
      pos + bytesLeft
    }

    // What is left to read.
    ghost function Rest(): Bytes
      requires Ok()
      reads this
    {
      buf[pos..pos + bytesLeft]
    }

    constructor (data: Bytes, from: nat, size: nat)
      requires from + size <= |data|
      ensures Ok() && buf == data && pos == from && bytesLeft == size
    {
      buf, pos, bytesLeft := data, from, size;
    }

    method ReadByte() returns (ok: bool, b: byte)
      requires Ok()
      modifies this
      ensures Ok() && End() == old(End()) && ok == (old(Rest()) != [])
      ensures ok ==> b == old(Rest())[0] && Rest() == old(Rest())[1..]
      ensures !ok ==> pos == old(pos) && bytesLeft == old(bytesLeft)
    {
      if bytesLeft == 0 {
        return false, 0;
      }
      ok, b := true, buf[pos];
      pos, bytesLeft := pos + 1, bytesLeft - 1;
    }

    // pb_read.
    method Read(count: nat) returns (ok: bool, bytes: Bytes)
      requires Ok()
      modifies this
      ensures Ok() && End() == old(End()) && ok == (P.Take(old(Rest()), count).Some?)
      ensures ok ==> bytes == old(Rest())[..count] && Rest() == old(Rest())[count..]
      ensures ok ==> pos == old(pos) + count && bytesLeft == old(bytesLeft) - count
    {
      if count == 0 {
        return true, [];
      }
      if bytesLeft < count {
        return false, [];
      }
      ok, bytes := true, buf[pos..pos + count];
      pos, bytesLeft := pos + count, bytesLeft - count;
    }
  }

  // pb_decode_varint32; eof tells a clean end from a broken number.
  method DecodeVarint32(s: InStream) returns (ok: bool, v: nat, eof: bool)
    requires s.Ok()
    modifies s
    ensures s.Ok() && s.End() == old(s.End()) && eof == (old(s.Rest()) == [])
    ensures var r := P.GetSize(old(s.Rest()));
            (ok <==> r.Some?) && (ok ==> v == r.value.value && s.Rest() == r.value.rest)
  {
    hide Pow128;
    ghost var all := s.Rest();
    var b;
    v, eof := 0, false;
    ok, b := s.ReadByte();
    if !ok {
      eof := true;
      return;
    }
    FirstPower();
    if b < 128 {
      v := b;
      return;
    }
    var group: nat := 1;
    v := b % 128;
    while true
      invariant s.Ok() && s.End() == old(s.End()) && group > 0 && P.Var32(all, 0, 0) == P.Var32(s.Rest(), v, group)
      decreases |s.Rest()|
    {
      ok, b := s.ReadByte();
      if !ok {
        return;
      }
      if group >= 5 {
        var signExtension := if group < 9 then 0xFF else 0x01;
        if b % 128 != 0 && (v < 0x8000_0000 || b != signExtension) {
          ok := false;
          return;
        }
      } else {
        v := (v + b % 128 * Pow128(group)) % TWO32;
      }
      group := group + 1;
      if b < 128 {
        ok := !(group == 5 && b % 128 >= 16);
        return;
      }
    }
  }

  lemma FirstPower()
    ensures Pow128(0) == 1
  {
  }

  lemma UnreadHere(bs: Bytes)
    ensures GetVarint(bs, 10) == Continued(0, 1, GetVarint(bs, 10))
  {
  }

  // pb_decode_varint: at most ten groups; bits above the 64th fall off.
  method DecodeVarint(s: InStream) returns (ok: bool, v: nat)
    requires s.Ok()
    modifies s
    ensures s.Ok() && s.End() <= old(s.End()) && (ok ==> s.End() == old(s.End()))
    ensures var r := GetVarint64(old(s.Rest()));
            (ok <==> r.Some?) && (ok ==> v == r.value.value && s.Rest() == r.value.rest)
  {
    hide GetVarint, Continued;
    ghost var all := s.Rest();
    var group, place: nat := 0, 1;
    ghost var full: nat := 0;
    v := 0;
    UnreadHere(all);
    while true
      invariant s.Ok() && s.End() == old(s.End()) && group <= 10 && v == full % TWO64
      invariant GetVarint(all, 10) == Continued(full, place, GetVarint(s.Rest(), 10 - group))
      decreases 10 - group
    {
      if group >= 10 {
        OutOfBytes(s.Rest(), 0, full, place);
        ok := false;
        return;
      }
      ghost var rest := s.Rest();
      var b;
      ok, b := s.ReadByte();
      if !ok {
        OutOfBytes(rest, 10 - group, full, place);
        return;
      }
      Group(rest, 10 - group, full, place);
      Wrapped64(full, b % 128 * place);
      v, full := (v + b % 128 * place) % TWO64, full + b % 128 * place;
      place, group := place * 128, group + 1;
      if b < 128 {
        return;
      }
    }
  }

  // pb_make_string_substream: the parent gives up the bytes at once, but moves on when the
  // substream is closed.
  method MakeSubstream(s: InStream) returns (ok: bool, sub: InStream)
    requires s.Ok()
    modifies s
    ensures s.Ok() && fresh(sub) && sub.Ok() && sub.buf == s.buf && (!ok ==> s.End() <= old(s.End()))
    ensures var r := P.GetSized(old(s.Rest()));
            (ok <==> r.Some?)
            && (ok ==>
              sub.Rest() == r.value.value && s.pos == sub.pos && sub.End() + s.bytesLeft == old(s.End()) <= |s.buf|
                       && s.buf[sub.End()..sub.End() + s.bytesLeft] == r.value.rest)
  {
    var size, eof;
    ok, size, eof := DecodeVarint32(s);
    sub := new InStream(s.buf, s.pos, 0);
    if !ok {
      return;
    }
    if s.bytesLeft < size {
      ok := false;
      return;
    }
    sub := new InStream(s.buf, s.pos, size);
    s.bytesLeft := s.bytesLeft - size;
  }

  // pb_close_string_substream: unread bytes are skipped.
  method CloseSubstream(s: InStream, sub: InStream)
    requires s != sub && sub.Ok() && s.buf == sub.buf && sub.End() + s.bytesLeft <= |s.buf|
    modifies s, sub
    ensures s.Ok() && s.bytesLeft == old(s.bytesLeft) && s.pos == old(sub.End())
  {
    if sub.bytesLeft > 0 {
      var ok, bytes := sub.Read(sub.bytesLeft);
    }
    s.pos := sub.pos;
  }

  // ---- Unknown fields ----

  method SkipVarint(s: InStream) returns (ok: bool)
    requires s.Ok()
    modifies s
    ensures s.Ok() && s.End() <= old(s.End()) && (ok ==> s.End() == old(s.End()))
    ensures var r := P.SkipVarint(old(s.Rest())); (ok <==> r.Some?) && (ok ==> s.Rest() == r.value)
  {
    ghost var all := s.Rest();
    while true
      invariant s.Ok() && s.End() == old(s.End()) && P.SkipVarint(all) == P.SkipVarint(s.Rest())
      decreases |s.Rest()|
    {
      var b;
      ok, b := s.ReadByte();
      if !ok || b < 128 {
        return;
      }
    }
  }

  method SkipString(s: InStream) returns (ok: bool)
    requires s.Ok()
    modifies s
    ensures s.Ok() && s.End() <= old(s.End()) && (ok ==> s.End() == old(s.End()))
    ensures var r := P.GetSized(old(s.Rest())); (ok <==> r.Some?) && (ok ==> s.Rest() == r.value.rest)
  {
    hide P.GetSize;
    var length, eof, bytes;
    ok, length, eof := DecodeVarint32(s);
    if ok {
      ok, bytes := s.Read(length);
    }
  }

  // pb_skip_field.
  method SkipField(s: InStream, wireType: nat) returns (ok: bool)
    requires s.Ok()
    modifies s
    ensures s.Ok() && s.End() <= old(s.End()) && (ok ==> s.End() == old(s.End()))
    ensures var r := P.Skip(wireType, old(s.Rest())); (ok <==> r.Some?) && (ok ==> s.Rest() == r.value)
  {
    hide P.SkipVarint, P.GetSized;
    var bytes;
    if wireType == P.WT_VARINT {
      ok := SkipVarint(s);
    } else if wireType == P.WT_64BIT {
      ok, bytes := s.Read(8);
    } else if wireType == P.WT_STRING {
      ok := SkipString(s);
    } else if wireType == P.WT_32BIT {
      ok, bytes := s.Read(4);
    } else {
      ok := false;
    }
  }

  // ---- Scalars ----

  // The scalar decoders.
  method DecodeScalar(s: InStream, k: P.FieldType) returns (ok: bool, v: P.Datum)
    requires s.Ok() && !k.Sub?
    modifies s
    ensures s.Ok() && s.End() <= old(s.End()) && (ok ==> s.End() == old(s.End()))
    ensures var r := P.GetScalar(k, old(s.Rest()));
            (ok <==> r.Some?) && (ok ==> v == r.value.value && s.Rest() == r.value.rest)
  {
    hide P.GetSize, GetVarint64, DecodeFixed, P.Signed, P.UnZigZag;
    v := P.Num(0);
    var n, eof, bytes;
    if k.Bool? {
      ok, n, eof := DecodeVarint32(s);
      v := P.Num(if n != 0 then 1 else 0);
    } else if k.Int? {
      ok, n := DecodeVarint(s);
      if ok {
        var value := if k.width == 8 then P.Signed(n, 0x8000_0000_0000_0000) else P.Signed(n % TWO32, 0x8000_0000);
        v := P.Num(value);
        ok := -P.Bound(k.width) <= value < P.Bound(k.width);
      }
    } else if k.UInt? {
      ok, n := DecodeVarint(s);
      v := P.Num(n);
      ok := ok && n < 2 * P.Bound(k.width);
    } else if k.SInt? {
      ok, n := DecodeVarint(s);
      if ok {
        var value := P.UnZigZag(n);
        v := P.Num(value);
        ok := -P.Bound(k.width) <= value < P.Bound(k.width);
      }
    } else if k.Fixed32? {
      ok, bytes := s.Read(4);
      v := P.Num(DecodeFixed(bytes));
    } else if k.Fixed64? {
      ok, bytes := s.Read(8);
      v := P.Num(DecodeFixed(bytes));
    } else {
      ok, v := DecodeBytes(s, k);
    }
  }

  method DecodeBytes(s: InStream, k: P.FieldType) returns (ok: bool, v: P.Datum)
    requires s.Ok() && (k.Blob? || k.Text? || k.FixedBlob?)
    modifies s
    ensures s.Ok() && s.End() <= old(s.End()) && (ok ==> s.End() == old(s.End()))
    ensures var r := P.GetScalar(k, old(s.Rest()));
            (ok <==> r.Some?) && (ok ==> v == r.value.value && s.Rest() == r.value.rest)
  {
    hide P.GetSize;
    v := P.Raw([]);
    var size, eof, bytes;
    ok, size, eof := DecodeVarint32(s);
    if !ok {
      return;
    }
    if (k.Blob? && size > k.limit) || (k.Text? && size + 1 > k.room) {
      return false, v;
    }
    if k.FixedBlob? {
      if size == 0 {
        v := P.Raw(seq(k.size, i => 0));
        return;
      }
      if size != k.size {
        return false, v;
      }
    }
    ok, bytes := s.Read(size);
    v := P.Raw(bytes);
  }

  // ---- Messages ----

  // pb_field_iter_find: from where the iterator stands, around the descriptor once.
  method FindField(fs: seq<P.Field>, start: nat, tag: nat) returns (found: bool, at: nat)
    requires FieldsOk(fs) && start < |fs|
    ensures at < |fs| && (found <==> P.FindTag(fs, tag).Some?) && (found ==> P.FindTag(fs, tag) == Some(at))
  {
    hide FieldOk;
    at := start;
    var wrapped := false;
    while true
      invariant at < |fs| && (if wrapped then at < start else start <= at)
      invariant forall i ::
        0 <= i < |fs| && (if wrapped then i < at || start <= i else start <= i < at) ==> fs[i].tag != tag
      decreases !wrapped, |fs| - at
    {
      if fs[at].tag == tag {
        FindIs(fs, at);
        found := true;
        return;
      }
      at := at + 1;
      if at == |fs| {
        at, wrapped := 0, true;
      }
      if at == start {
        NoTag(fs, tag);
        found := false;
        return;
      }
    }
  }

  lemma NoTag(fs: seq<P.Field>, tag: nat)
    requires forall i :: 0 <= i < |fs| ==> fs[i].tag != tag
    ensures P.FindTag(fs, tag).None?
  {
  }

  // The bits of fields_seen against the required fields.
  method CheckRequired(fs: seq<P.Field>, seen: set<nat>) returns (ok: bool)
    ensures ok == P.AllSeen(fs, seen)
  {
    var requiredIndex := 0;
    for i := 0 to |fs|
      invariant requiredIndex == P.RequiredBefore(fs, i)
      invariant forall j :: 0 <= j < i && fs[j].rule.Required? && P.RequiredBefore(fs, j) < P.MAX_REQUIRED ==> j in seen
    {
      if fs[i].rule.Required? {
        if requiredIndex < P.MAX_REQUIRED && i !in seen {
          return false;
        }
        requiredIndex := requiredIndex + 1;
      }
    }
    ok := true;
  }

  // The packed loop: until the substream is empty or the array is full.
  method DecodeItems(s: InStream, k: P.FieldType, items: seq<P.Datum>, max: nat) returns (ok: bool, r: seq<P.Datum>)
    requires s.Ok() && !k.Sub?
    modifies s
    ensures s.Ok() && s.End() <= old(s.End()) && (ok ==> s.End() == old(s.End()))
    ensures var more := P.GetItems(k, old(s.Rest()), Room(max, |items|));
            (ok <==> more.Some?) && (ok ==> r == items + more.value.value && s.Rest() == more.value.rest)
  {
    hide P.GetScalar;
    ghost var all := s.Rest();
    r := items;
    NoItems(P.GetItems(k, all, Room(max, |items|)));
    assert r[|items|..] == [];
    while s.bytesLeft > 0 && |r| < max
      invariant s.Ok() && s.End() == old(s.End()) && items <= r
      invariant P.GetItems(k, all, Room(max, |items|)) == Onward(r[|items|..], P.GetItems(k, s.Rest(), Room(max, |r|)))
      decreases max - |r|
    {
      ghost var before := r;
      ghost var rest := s.Rest();
      var v;
      ok, v := DecodeScalar(s, k);
      if !ok {
        return;
      }
      r := r + [v];
      OneItem(k, rest, max - |before|, before[|items|..], v, s.Rest());
      assert r[|items|..] == before[|items|..] + [v];
    }
    assert r == items + r[|items|..];
    ok := true;
  }

  function Room(max: nat, n: nat): nat {
    if n <= max then max - n else 0
  }

  function Onward(done: seq<P.Datum>, more: Option<Parsed<seq<P.Datum>>>): Option<Parsed<seq<P.Datum>>> {
    if more.None? then None else Some(Parsed(done + more.value.value, more.value.rest))
  }

  lemma NoItems(more: Option<Parsed<seq<P.Datum>>>)
    ensures Onward([], more) == more
  {
    if more.Some? {
      assert [] + more.value.value == more.value.value;
    }
  }

  lemma OneItem(k: P.FieldType, bs: Bytes, room: nat, done: seq<P.Datum>, v: P.Datum, rest: Bytes)
    requires bs != [] && room > 0 && P.GetScalar(k, bs) == Some(Parsed(v, rest))
    ensures Onward(done, P.GetItems(k, bs, room)) == Onward(done + [v], P.GetItems(k, rest, room - 1))
  {
    hide P.GetScalar;
    var more := P.GetItems(k, rest, room - 1);
    if more.Some? {
      assert done + ([v] + more.value.value) == done + [v] + more.value.value;
    }
  }

  // pb_dec_submessage on top of `start`.
  method DecodeSubmessage(s: InStream, fs: seq<P.Field>, start: seq<P.Slot>) returns (ok: bool, slots: seq<P.Slot>)
    requires s.Ok() && FieldsOk(fs) && |start| == |fs|
    modifies s
    ensures s.Ok() && s.End() <= old(s.End()) && (ok ==> s.End() == old(s.End()))
    ensures var sub := P.GetSized(old(s.Rest()));
            (ok <==> sub.Some? && P.Parse(fs, sub.value.value, start, {}).Some?)
            && (ok ==> slots == P.Parse(fs, sub.value.value, start, {}).value && s.Rest() == sub.value.rest)
    decreases fs, 2
  {
    hide P.GetSized, P.Parse, FieldsOk;
    slots := start;
    var sub;
    ok, sub := MakeSubstream(s);
    if !ok {
      return;
    }
    ok, slots := DecodeNoInit(sub, fs, start);
    CloseSubstream(s, sub);
  }

  // A field's decoder; array entries start from the defaults.
  method DecodeValue(s: InStream, k: P.FieldType, before: P.Datum) returns (ok: bool, v: P.Datum)
    requires s.Ok() && KindOk(k)
    modifies s
    ensures s.Ok() && s.End() <= old(s.End()) && (ok ==> s.End() == old(s.End()))
    ensures var r := P.GetValue(k, old(s.Rest()), before);
            (ok <==> r.Some?) && (ok ==> v == r.value.value && s.Rest() == r.value.rest)
    decreases k, 0
  {
    hide P.GetSized, P.Parse, P.GetScalar;
    if k.Sub? {
      var slots := if before.Msg? && |before.slots| == |k.fields| then before.slots else P.Defaults(k.fields, 0);
      ok, slots := DecodeSubmessage(s, k.fields, slots);
      v := P.Msg(slots);
    } else {
      ok, v := DecodeScalar(s, k);
    }
  }

  // decode_static_field.
  method DecodeField(s: InStream, f: P.Field, wireType: nat, slot: P.Slot) returns (ok: bool, r: P.Slot)
    requires s.Ok() && FieldOk(f)
    modifies s
    ensures s.Ok() && s.End() <= old(s.End()) && (ok ==> s.End() == old(s.End()))
    ensures var field := P.ReadField(f, wireType, old(s.Rest()), slot);
            (ok <==> field.Some?) && (ok ==> r == field.value.value && s.Rest() == field.value.rest)
    decreases f, 0
  {
    hide P.GetSized, P.GetValue, P.GetItems, P.Zero, KindOk;
    r := slot;
    var v;
    if !f.rule.Repeated? {
      ok, v := DecodeValue(s, f.kind, P.OldValue(f.kind, slot));
      r := P.One(v);
      return;
    }
    var items := if slot.Many? then slot.items else [];
    if wireType == P.WT_STRING && P.Packable(f.kind) {
      var sub;
      ok, sub := MakeSubstream(s);
      if !ok {
        return;
      }
      ok, items := DecodeItems(sub, f.kind, items, f.rule.max);
      r := P.Many(items);
      if sub.bytesLeft > 0 {
        return false, r;
      }
      CloseSubstream(s, sub);
    } else {
      if |items| >= f.rule.max {
        return false, r;
      }
      ok, v := DecodeValue(s, f.kind, P.Zero(f.kind));
      r := P.Many(items + [v]);
    }
  }

  // pb_decode_noinit.
  method DecodeNoInit(s: InStream, fs: seq<P.Field>, start: seq<P.Slot>) returns (ok: bool, slots: seq<P.Slot>)
    requires s.Ok() && FieldsOk(fs) && |start| == |fs|
    modifies s
    ensures s.Ok() && s.End() <= old(s.End()) && (ok ==> s.End() == old(s.End()))
    ensures var r := P.Parse(fs, old(s.Rest()), start, {}); (ok <==> r.Some?) && (ok ==> slots == r.value)
    decreases fs, 1
  {
    hide P.GetSize, P.ReadField, P.Skip, P.AllSeen, FieldsOk, FieldOk, P.SetSlot, P.FindTag;
    ghost var all := s.Rest();
    slots := start;
    var seen: set<nat> := {};
    var at: nat := 0;
    while s.bytesLeft > 0
      invariant s.Ok() && s.End() == old(s.End()) && |slots| == |fs| && (fs != [] ==> at < |fs|)
      invariant P.Parse(fs, all, start, {}) == P.Parse(fs, s.Rest(), slots, seen)
      decreases |s.Rest()|
    {
      var t, eof;
      ok, t, eof := DecodeVarint32(s);
      if !ok {
        return;
      }
      if t == 0 {
        break;
      }
      var found := false;
      if fs != [] {
        found, at := FindField(fs, at, t / 8);
      }
      if !found {
        NoFields(fs, t / 8);
        ok := SkipField(s, t % 8);
        if !ok {
          return;
        }
      } else {
        FieldsOkAt(fs, at);
        var slot;
        ok, slot := DecodeField(s, fs[at], t % 8, slots[at]);
        if !ok {
          return;
        }
        seen := seen + {at};
        slots := P.SetSlot(fs, slots, at, slot);
      }
    }
    ok := CheckRequired(fs, seen);
  }

  lemma NoFields(fs: seq<P.Field>, tag: nat)
    requires fs == [] || P.FindTag(fs, tag).None?
    ensures P.FindTag(fs, tag).None?
  {
  }

  // pb_decode.
  method DecodeMessage(s: InStream, fs: seq<P.Field>) returns (ok: bool, slots: seq<P.Slot>)
    requires s.Ok() && FieldsOk(fs)
    modifies s
    ensures var r := P.Decode(fs, old(s.Rest())); (ok <==> r.Some?) && (ok ==> slots == r.value)
  {
    ok, slots := DecodeNoInit(s, fs, P.Defaults(fs, 0));
  }

  // A message written to a buffer and read from it again.
  method EncodeAndDecode(fs: seq<P.Field>, slots: seq<P.Slot>, capacity: nat) returns (ok: bool, back: seq<P.Slot>)
    requires FieldsOk(fs) && SlotsOk(fs, slots) && capacity < TWO32
    ensures P.MsgFrom(fs, slots, 0).Some? && (ok <==> |P.MsgFrom(fs, slots, 0).value| <= capacity)
    ensures ok ==> back == slots
  {
    hide FieldsOk, SlotsOk, P.MsgFrom, P.Decode;
    SameLength(fs, slots);
    RoundTrip(fs, slots);
    var o := new OutStream(false, capacity);
    ok := Encode(o, fs, slots);
    back := [];
    if ok {
      var i := new InStream(o.written, 0, |o.written|);
      assert i.Rest() == P.MsgFrom(fs, slots, 0).value;
      ok, back := DecodeMessage(i, fs);
    }
  }

  lemma SameLength(fs: seq<P.Field>, slots: seq<P.Slot>)
    requires SlotsOk(fs, slots)
    ensures |slots| == |fs|
  {
  }
}
