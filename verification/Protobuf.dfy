// Messages and their bytes.

module Protobuf {
  // Descriptors, values, and what their bytes are (pb.h, pb_encode.c, pb_decode.c;
  // Protocol Buffers wire format, "Base 128 Varints" and "Message Structure").

  import opened DbFormat
  import opened Coding

  // ---- Descriptors and values ----

  // The field types; a width is 1, 2, 4 or 8 bytes, a limit is what the static struct has room for.
  datatype FieldType =
    | Bool
    | Int(width: nat)
    | UInt(width: nat)
    | SInt(width: nat)
    | Fixed32
    | Fixed64
    | Blob(limit: nat)
    | Text(room: nat)
    | FixedBlob(size: nat)
    | Sub(fields: seq<Field>)

  // Singular is an optional field without a has_ flag, as in proto3.
  datatype Rule = Required | Optional | Singular | Repeated(max: nat) | Oneof(group: nat)

  datatype Field = Field(tag: nat, rule: Rule, kind: FieldType)

  datatype Datum = Num(n: int) | Raw(bytes: Bytes) | Msg(slots: seq<Slot>)

  // What the struct holds for one field.
  datatype Slot = Absent | One(v: Datum) | Many(items: seq<Datum>)

  // The value of an initialized struct.
  function Zero(k: FieldType): Datum
    decreases k, 0
  {
    match k
    case Blob(_) => Raw([])
    case Text(_) => Raw([])
    case FixedBlob(size) => Raw(seq(size, i => 0))
    case Sub(fs) => Msg(Defaults(fs, 0))
    case _ => Num(0)
  }

  function DefaultSlot(f: Field): Slot
    decreases f, 0
  {
    match f.rule
    case Required => One(Zero(f.kind))
    case Singular => One(Zero(f.kind))
    case Repeated(_) => Many([])
    case _ => Absent
  }

  // pb_message_set_to_defaults, from field i on.
  function Defaults(fs: seq<Field>, i: nat): (r: seq<Slot>)
    requires i <= |fs|
    ensures |r| == |fs| - i && forall j :: 0 <= j < |r| ==> r[j] == DefaultSlot(fs[i + j])
    decreases fs, |fs| - i
  {
    if i == |fs| then [] else [DefaultSlot(fs[i])] + Defaults(fs, i + 1)
  }

  // ---- Wire format ----

  const WT_VARINT: nat := 0
  const WT_64BIT: nat := 1
  const WT_STRING: nat := 2
  const WT_32BIT: nat := 5

  function WireType(k: FieldType): (r: nat)
    ensures r < 8
  {
    match k
    case Fixed32 => WT_32BIT
    case Fixed64 => WT_64BIT
    case Blob(_) => WT_STRING
    case Text(_) => WT_STRING
    case FixedBlob(_) => WT_STRING
    case Sub(_) => WT_STRING
    case _ => WT_VARINT
  }

  predicate Packable(k: FieldType) {
    !k.Blob? && !k.Text? && !k.FixedBlob? && !k.Sub?
  }

  function Bound(width: nat): int {
    if width == 1 then 0x80 else if width == 2 then 0x8000 else if width == 4 then 0x8000_0000
      else 0x8000_0000_0000_0000
  }

  function ZigZag(n: int): nat {
    if n < 0 then -2 * n - 1 else 2 * n
  }

  function UnZigZag(v: nat): int {
    if v % 2 == 1 then -(v / 2) - 1 else v / 2
  }

  // A C string stops at its terminator.
  function UpToNul(bs: Bytes): (r: Bytes)
    ensures |r| <= |bs|
  {
    if bs == [] || bs[0] == 0 then [] else [bs[0]] + UpToNul(bs[1..])
  }

  function TagBytes(tag: nat, wireType: nat): Bytes {
    Varint(8 * tag + wireType)
  }

  function Sized(bs: Bytes): Bytes {
    Varint(|bs|) + bs
  }

  // A value without its tag; None is an encoding error (or a value that is not of the type).
  function Payload(k: FieldType, v: Datum): Option<Bytes>
    decreases k, 0
  {
    match k
    case Bool => if v.Num? then Some(Varint(if v.n != 0 then 1 else 0)) else None
    case Int(_) => if v.Num? then Some(Varint(v.n % TWO64)) else None
    case UInt(_) => if v.Num? then Some(Varint(v.n % TWO64)) else None
    case SInt(_) => if v.Num? then Some(Varint(ZigZag(v.n) % TWO64)) else None
    case Fixed32 => if v.Num? then Some(EncodeFixed(v.n % TWO32, 4)) else None
    case Fixed64 => if v.Num? then Some(EncodeFixed(v.n % TWO64, 8)) else None
    case Blob(limit) => if v.Raw? && |v.bytes| <= limit then Some(Sized(v.bytes)) else None
    case Text(room) => if v.Raw? && |v.bytes| <= room then Some(Sized(UpToNul(v.bytes))) else None
    case FixedBlob(size) => if v.Raw? && |v.bytes| == size then Some(Sized(v.bytes)) else None
    case Sub(fs) =>
      if v.Msg? && |v.slots| == |fs| then
        var p := MsgFrom(fs, v.slots, 0);
        if p.None? then None else Some(Sized(p.value))
      else None
  }

  // The proto3 check for a field that need not be sent.
  predicate IsZero(k: FieldType, v: Datum)
    decreases k, 0
  {
    match k
    case Blob(_) => v.Raw? && v.bytes == []
    case Text(_) => v.Raw? && UpToNul(v.bytes) == []
    case FixedBlob(size) => size == 0
    case Sub(fs) => v.Msg? && |v.slots| == |fs| && forall i :: 0 <= i < |fs| ==> SlotIsZero(fs[i], v.slots[i])
    case _ => v.Num? && v.n == 0
  }

  predicate SlotIsZero(f: Field, s: Slot)
    decreases f, 0
  {
    match f.rule
    case Required => false
    case Optional => s.Absent?
    case Singular => s.One? && IsZero(f.kind, s.v)
    case Repeated(_) => s.Many? && s.items == []
    case Oneof(_) => s.Absent?
  }

  function Both(a: Option<Bytes>, b: Option<Bytes>): Option<Bytes> {
    if a.None? || b.None? then None else Some(a.value + b.value)
  }

  // Array entries one after the other, each after its own tag unless packed.
  function ArrayBytes(k: FieldType, tag: Option<Bytes>, items: seq<Datum>): Option<Bytes>
    decreases k, 1 + |items|
  {
    if items == [] then Some([])
    else
      var prefix := if tag.Some? then tag.value else [];
      Both(Both(Some(prefix), Payload(k, items[0])), ArrayBytes(k, tag, items[1..]))
  }

  function FieldBytes(f: Field, s: Slot): Option<Bytes>
    decreases f, 0
  {
    var tag := TagBytes(f.tag, WireType(f.kind));
    match f.rule
    case Required => if s.One? then Both(Some(tag), Payload(f.kind, s.v)) else None
    case Optional => if s.Absent? then Some([]) else if s.One? then Both(Some(tag), Payload(f.kind, s.v)) else None
    case Singular =>
      if !s.One? then None
      else if IsZero(f.kind, s.v) then Some([])
      else Both(Some(tag), Payload(f.kind, s.v))
    case Oneof(_) => if s.Absent? then Some([]) else if s.One? then Both(Some(tag), Payload(f.kind, s.v)) else None
    case Repeated(max) =>
      if !s.Many? || |s.items| > max then None
      else if s.items == [] then Some([])
      else if Packable(f.kind) then
        var body := ArrayBytes(f.kind, None, s.items);
        if body.None? then None else Some(TagBytes(f.tag, WT_STRING) + Sized(body.value))
      else ArrayBytes(f.kind, Some(tag), s.items)
  }

  // The message from field i on.
  function MsgFrom(fs: seq<Field>, slots: seq<Slot>, i: nat): Option<Bytes>
    requires i <= |fs| == |slots|
    decreases fs, |fs| - i
  {
    if i == |fs| then Some([]) else Both(FieldBytes(fs[i], slots[i]), MsgFrom(fs, slots, i + 1))
  }

  // ---- Reading ----

  // pb_decode_varint32: groups beyond 32 bits may only be zero or sign extension.
  function Var32(bs: Bytes, result: nat, group: nat): (r: Option<Parsed<nat>>)
    ensures r.Some? ==> |r.value.rest| < |bs|
    decreases bs
  {
    if bs == [] then None
    else
      var b, low := bs[0], bs[0] % 128;
      if group >= 5 && low != 0 && (result < 0x8000_0000 || b != (if group < 9 then 255 else 1)) then None
      else
        var next := if group < 5 then (result + low * Pow128(group)) % TWO32 else result;
        if b >= 128 then Var32(bs[1..], next, group + 1)
        else if group == 4 && low >= 16 then None
        else Some(Parsed(next, bs[1..]))
  }

  function GetSize(bs: Bytes): (r: Option<Parsed<nat>>)
    ensures r.Some? ==> |r.value.rest| < |bs|
  {
    Var32(bs, 0, 0)
  }

  function Take(bs: Bytes, n: nat): (r: Option<Parsed<Bytes>>)
    ensures r.Some? ==> |r.value.rest| <= |bs|
  {
    if |bs| < n then None else Some(Parsed(bs[..n], bs[n..]))
  }

  // pb_make_string_substream.
  function GetSized(bs: Bytes): (r: Option<Parsed<Bytes>>)
    ensures r.Some? ==> |r.value.rest| < |bs|
  {
    var size := GetSize(bs);
    if size.None? then None else Take(size.value.rest, size.value.value)
  }

  function Signed(v: nat, half: nat): int {
    if v < half then v else v - 2 * half
  }

  // A value of a scalar type.
  function GetScalar(k: FieldType, bs: Bytes): (r: Option<Parsed<Datum>>)
    ensures r.Some? ==> |r.value.rest| <= |bs|
  {
    match k
    case Bool =>
      var v := GetSize(bs);
      if v.None? then None else Some(Parsed(Num(if v.value.value != 0 then 1 else 0), v.value.rest))
    case Int(width) =>
      var v := GetVarint64(bs);
      if v.None? then None
      else
        var n := if width == 8 then Signed(v.value.value, 0x8000_0000_0000_0000)
          else Signed(v.value.value % TWO32, 0x8000_0000);
        if -Bound(width) <= n < Bound(width) then Some(Parsed(Num(n), v.value.rest)) else None
    case UInt(width) =>
      var v := GetVarint64(bs);
      if v.None? || v.value.value >= 2 * Bound(width) then None else Some(Parsed(Num(v.value.value), v.value.rest))
    case SInt(width) =>
      var v := GetVarint64(bs);
      if v.None? then None
      else
        var n := UnZigZag(v.value.value);
        if -Bound(width) <= n < Bound(width) then Some(Parsed(Num(n), v.value.rest)) else None
    case Fixed32 =>
      var b := Take(bs, 4);
      if b.None? then None else Some(Parsed(Num(DecodeFixed(b.value.value)), b.value.rest))
    case Fixed64 =>
      var b := Take(bs, 8);
      if b.None? then None else Some(Parsed(Num(DecodeFixed(b.value.value)), b.value.rest))
    case Blob(limit) =>
      var size := GetSize(bs);
      if size.None? || size.value.value > limit then None else AsRaw(Take(size.value.rest, size.value.value))
    case Text(room) =>
      var size := GetSize(bs);
      if size.None? || size.value.value + 1 > room then None else AsRaw(Take(size.value.rest, size.value.value))
    case FixedBlob(width) =>
      var size := GetSize(bs);
      if size.None? then None
      else if size.value.value == 0 then Some(Parsed(Raw(seq(width, i => 0)), size.value.rest))
      else if size.value.value != width then None
      else AsRaw(Take(size.value.rest, width))
    case Sub(_) => None
  }

  function AsRaw(p: Option<Parsed<Bytes>>): Option<Parsed<Datum>> {
    if p.None? then None else Some(Parsed(Raw(p.value.value), p.value.rest))
  }

  function OldValue(k: FieldType, s: Slot): Datum {
    if s.One? then s.v else Zero(k)
  }

  // A field's decoder.  A submessage is read on top of what the struct holds, except that a new
  // array entry or a newly chosen oneof member starts from the defaults.
  function GetValue(k: FieldType, bs: Bytes, before: Datum): (r: Option<Parsed<Datum>>)
    ensures r.Some? ==> |r.value.rest| <= |bs|
    decreases k, 0, 0
  {
    match k
    case Sub(fs) =>
      var sub := GetSized(bs);
      if sub.None? then None
      else
        var start := if before.Msg? && |before.slots| == |fs| then before.slots else Defaults(fs, 0);
        var slots := Parse(fs, sub.value.value, start, {});
        if slots.None? then None else Some(Parsed(Msg(slots.value), sub.value.rest))
    case _ => GetScalar(k, bs)
  }

  // Packed entries until the bytes or the room run out.
  function GetItems(k: FieldType, bs: Bytes, room: nat): Option<Parsed<seq<Datum>>>
    decreases room
  {
    if bs == [] || room == 0 then Some(Parsed([], bs))
    else
      var first := GetScalar(k, bs);
      if first.None? then None
      else
        var rest := GetItems(k, first.value.rest, room - 1);
        if rest.None? then None else Some(Parsed([first.value.value] + rest.value.value, rest.value.rest))
  }

  // decode_static_field.
  function ReadField(f: Field, wireType: nat, bs: Bytes, s: Slot): (r: Option<Parsed<Slot>>)
    ensures r.Some? ==> |r.value.rest| <= |bs|
    decreases f, 0, 0
  {
    match f.rule
    case Repeated(max) =>
      var items := if s.Many? then s.items else [];
      if wireType == WT_STRING && Packable(f.kind) then
        var sub := GetSized(bs);
        if sub.None? then None
        else
          var more := GetItems(f.kind, sub.value.value, if |items| <= max then max - |items| else 0);
          if more.None? || more.value.rest != [] then None
          else Some(Parsed(Many(items + more.value.value), sub.value.rest))
      else if |items| >= max then None
      else
        var v := GetValue(f.kind, bs, Zero(f.kind));
        if v.None? then None else Some(Parsed(Many(items + [v.value.value]), v.value.rest))
    case _ =>
      var v := GetValue(f.kind, bs, OldValue(f.kind, s));
      if v.None? then None else Some(Parsed(One(v.value.value), v.value.rest))
  }

  // Setting one member of a union unsets the others.
  function SetSlot(fs: seq<Field>, slots: seq<Slot>, i: nat, s: Slot): (r: seq<Slot>)
    requires i < |fs| == |slots|
    ensures |r| == |slots|
  {
    seq(|slots|, j requires 0 <= j < |slots| =>
      if j == i then s
      else if fs[i].rule.Oneof? && fs[j].rule == fs[i].rule then Absent
      else slots[j])
  }

  // pb_skip_field: the bytes after an unknown field.
  function SkipVarint(bs: Bytes): (r: Option<Bytes>)
    ensures r.Some? ==> |r.value| < |bs|
  {
    if bs == [] then None else if bs[0] < 128 then Some(bs[1..]) else SkipVarint(bs[1..])
  }

  function Skip(wireType: nat, bs: Bytes): (r: Option<Bytes>)
    ensures r.Some? ==> |r.value| <= |bs|
  {
    if wireType == WT_VARINT then SkipVarint(bs)
    else if wireType == WT_64BIT then Rest(Take(bs, 8))
    else if wireType == WT_STRING then Rest(GetSized(bs))
    else if wireType == WT_32BIT then Rest(Take(bs, 4))
    else None
  }

  function Rest(p: Option<Parsed<Bytes>>): Option<Bytes> {
    if p.None? then None else Some(p.value.rest)
  }

  function FindTag(fs: seq<Field>, tag: nat): (r: Option<nat>)
    ensures r.Some? ==> r.value < |fs| && fs[r.value].tag == tag
    ensures r.None? ==> forall i :: 0 <= i < |fs| ==> fs[i].tag != tag
  {
    if fs == [] then None
    else if fs[0].tag == tag then Some(0)
    else
      var r := FindTag(fs[1..], tag);
      if r.None? then None else Some(r.value + 1)
  }

  const MAX_REQUIRED: nat := 64

  // How many required fields come before field i.
  function RequiredBefore(fs: seq<Field>, i: nat): nat
    requires i <= |fs|
  {
    if i == 0 then 0 else RequiredBefore(fs, i - 1) + if fs[i - 1].rule.Required? then 1 else 0
  }

  // The first 64 required fields must have been seen.
  predicate AllSeen(fs: seq<Field>, seen: set<nat>) {
    forall i :: 0 <= i < |fs| && fs[i].rule.Required? && RequiredBefore(fs, i) < 64 ==> i in seen
  }

  // pb_decode_noinit on any bytes: what the struct holds afterwards.
  function Parse(fs: seq<Field>, bs: Bytes, slots: seq<Slot>, seen: set<nat>): (r: Option<seq<Slot>>)
    requires |slots| == |fs|
    ensures r.Some? ==> |r.value| == |fs|
    decreases fs, |bs|, 0
  {
    if bs == [] then if AllSeen(fs, seen) then Some(slots) else None
    else
      var t := GetSize(bs);
      if t.None? then None
      else if t.value.value == 0 then if AllSeen(fs, seen) then Some(slots) else None
      else
        var i := FindTag(fs, t.value.value / 8);
        if i.None? then
          var rest := Skip(t.value.value % 8, t.value.rest);
          if rest.None? then None else Parse(fs, rest.value, slots, seen)
        else
          var field := ReadField(fs[i.value], t.value.value % 8, t.value.rest, slots[i.value]);
          if field.None? then None
          else Parse(fs, field.value.rest, SetSlot(fs, slots, i.value, field.value.value), seen + {i.value})
  }

  // pb_decode.
  function Decode(fs: seq<Field>, bs: Bytes): Option<seq<Slot>> {
    Parse(fs, bs, Defaults(fs, 0), {})
  }
}
