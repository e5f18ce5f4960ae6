// Decoding what was encoded gives the message back (pb_encode.c, pb_decode.c).

module ProtobufRoundTrip {
  import opened DbFormat
  import opened Coding
  import opened Protobuf

  // ---- Well-formed descriptors, messages in range ----

  predicate WidthOk(w: nat) {
    w == 1 || w == 2 || w == 4 || w == 8
  }

  ghost predicate KindOk(k: FieldType)
    decreases k, 0
  {
    match k
    case Int(w) => WidthOk(w)
    case UInt(w) => WidthOk(w)
    case SInt(w) => WidthOk(w)
    case Sub(fs) => FieldsOk(fs)
    case _ => true
  }

  ghost predicate FieldOk(f: Field)
    decreases f, 0
  {
    0 < f.tag < 0x2000_0000 && KindOk(f.kind)
  }

  ghost predicate FieldsOk(fs: seq<Field>)
    decreases fs, 0
  {
    && (forall i :: 0 <= i < |fs| ==> FieldOk(fs[i]))
    && (forall i, j :: 0 <= i < j < |fs| ==> fs[i].tag != fs[j].tag)
  }

  ghost predicate ValueOk(k: FieldType, v: Datum)
    decreases k, 0
  {
    match k
    case Bool => v == Num(0) || v == Num(1)
    case Int(w) => v.Num? && -Bound(w) <= v.n < Bound(w)
    case UInt(w) => v.Num? && 0 <= v.n < 2 * Bound(w)
    case SInt(w) => v.Num? && -Bound(w) <= v.n < Bound(w)
    case Fixed32 => v.Num? && 0 <= v.n < TWO32
    case Fixed64 => v.Num? && 0 <= v.n < TWO64
    case Blob(limit) => v.Raw? && |v.bytes| <= limit
    case Text(room) => v.Raw? && |v.bytes| + 1 <= room && 0 !in v.bytes
    case FixedBlob(size) => v.Raw? && |v.bytes| == size
    case Sub(fs) => v.Msg? && SlotsOk(fs, v.slots)
  }

  ghost predicate SlotOk(f: Field, s: Slot)
    decreases f, 0
  {
    match f.rule
    case Required => s.One? && ValueOk(f.kind, s.v)
    case Singular => s.One? && ValueOk(f.kind, s.v)
    case Repeated(max) => s.Many? && |s.items| <= max && forall i :: 0 <= i < |s.items| ==> ValueOk(f.kind, s.items[i])
    case _ => s.Absent? || (s.One? && ValueOk(f.kind, s.v))
  }

  ghost predicate OneOfEach(fs: seq<Field>, slots: seq<Slot>)
    requires |slots| == |fs|
  {
    forall i, j ::
      0 <= i < j < |fs| && fs[i].rule.Oneof? && fs[j].rule == fs[i].rule ==> slots[i].Absent? || slots[j].Absent?
  }

  ghost predicate SlotsOk(fs: seq<Field>, slots: seq<Slot>)
    decreases fs, 0
  {
    |slots| == |fs| && (forall i :: 0 <= i < |fs| ==> SlotOk(fs[i], slots[i])) && OneOfEach(fs, slots)
  }

  // ---- Integers ----

  lemma Var32Last(b: byte, rest: Bytes, result: nat, group: nat)
    requires b < 128 && group < 5 && result + b * Pow128(group) < TWO32 && (group == 4 ==> b < 16)
    ensures Var32([b] + rest, result, group) == Some(Parsed(result + b * Pow128(group), rest))
  {
    hide Pow128;
    assert ([b] + rest)[1..] == rest;
  }

  lemma Var32More(b: byte, rest: Bytes, result: nat, group: nat)
    requires b >= 128 && group < 5 && result + b % 128 * Pow128(group) < TWO32
    ensures Var32([b] + rest, result, group) == Var32(rest, result + b % 128 * Pow128(group), group + 1)
  {
    hide Pow128;
    assert ([b] + rest)[1..] == rest;
  }

  lemma {:induction false} Var32RoundTrip(v: nat, rest: Bytes, result: nat, group: nat)
    requires group < 5 && result + Pow128(group) * v < TWO32
    ensures Var32(Varint(v) + rest, result, group) == Some(Parsed(result + Pow128(group) * v, rest))
    decreases v
  {
    hide Var32, Pow128;
    Powers();
    if v < 128 {
      Var32Last(v, rest, result, group);
    } else {
      var b, q: nat := v % 128 + 128, v / 128;
      assert b % 128 == v % 128 && v == 128 * q + v % 128;
      Split(Pow128(group), q, v % 128);
      NextPower(group);
      assert group < 4;
      assert Varint(v) + rest == [b] + (Varint(q) + rest);
      Var32More(b, Varint(q) + rest, result, group);
      Var32RoundTrip(q, rest, result + v % 128 * Pow128(group), group + 1);
    }
  }

  lemma NextPower(group: nat)
    ensures Pow128(group + 1) == 128 * Pow128(group)
  {
  }

  lemma Powers()
    ensures Pow128(0) == 1 && Pow128(1) == 0x80 && Pow128(2) == 0x4000 && Pow128(3) == 0x20_0000
      && Pow128(4) == 0x1000_0000
  {
    assert Pow128(1) == 128 * Pow128(0);
    assert Pow128(2) == 128 * Pow128(1);
    assert Pow128(3) == 128 * Pow128(2);
    assert Pow128(4) == 128 * Pow128(3);
  }

  lemma Split(p: nat, q: nat, r: nat)
    ensures p * (128 * q + r) == r * p + (128 * p) * q
  {
  }

  lemma SizeReads(n: nat, rest: Bytes)
    requires n < TWO32
    ensures GetSize(Varint(n) + rest) == Some(Parsed(n, rest))
  {
    assert Pow128(0) == 1;
    Var32RoundTrip(n, rest, 0, 0);
  }

  lemma SizedReads(bs: Bytes, rest: Bytes)
    requires |bs| < TWO32
    ensures GetSized(Sized(bs) + rest) == Some(Parsed(bs, rest))
  {
    hide Varint, GetSize;
    assert Sized(bs) + rest == Varint(|bs|) + (bs + rest);
    SizeReads(|bs|, bs + rest);
  }

  lemma ZigZagBack(n: int)
    ensures UnZigZag(ZigZag(n)) == n
  {
  }

  // ---- Scalars ----

  lemma FixedReads(n: nat, width: nat, rest: Bytes)
    requires n < Span(width)
    ensures Take(EncodeFixed(n, width) + rest, width) == Some(Parsed(EncodeFixed(n, width), rest))
    ensures DecodeFixed(EncodeFixed(n, width)) == n
  {
    FixedRoundTrip(n, width);
  }

  lemma Spans()
    ensures Span(4) == TWO32 && Span(8) == TWO64
  {
    assert Span(2) == 65536;
    assert Span(4) == 256 * (256 * Span(2));
    assert Span(8) == 256 * (256 * (256 * (256 * Span(4))));
  }

  lemma {:induction false} NoNul(bs: Bytes)
    requires 0 !in bs
    ensures UpToNul(bs) == bs
  {
    if bs != [] {
      NoNul(bs[1..]);
    }
  }

  lemma SignedBack(n: int)
    ensures -0x8000_0000_0000_0000 <= n < 0x8000_0000_0000_0000 ==> Signed(n % TWO64, 0x8000_0000_0000_0000) == n
    ensures -0x8000_0000 <= n < 0x8000_0000 ==> Signed(n % TWO64 % TWO32, 0x8000_0000) == n
  {
    assert n % TWO64 % TWO32 == n % TWO32;
  }

  lemma IntReads(k: FieldType, v: Datum, rest: Bytes)
    requires KindOk(k) && ValueOk(k, v) && k.Int?
    ensures Payload(k, v).Some? && GetScalar(k, Payload(k, v).value + rest) == Some(Parsed(v, rest))
  {
    hide Varint, GetVarint64, Signed;
    Varint64RoundTrip(v.n % TWO64, rest);
    SignedBack(v.n);
  }

  lemma NumbersRead(k: FieldType, v: Datum, rest: Bytes)
    requires KindOk(k) && ValueOk(k, v) && (k.Bool? || k.UInt? || k.SInt?)
    ensures Payload(k, v).Some? && GetScalar(k, Payload(k, v).value + rest) == Some(Parsed(v, rest))
  {
    hide Varint, GetVarint64, GetSize, UnZigZag;
    match k
    case Bool => SizeReads(if v.n != 0 then 1 else 0, rest);
    case UInt(_) => Varint64RoundTrip(v.n, rest);
    case SInt(_) =>
      Varint64RoundTrip(ZigZag(v.n), rest);
      ZigZagBack(v.n);
  }

  lemma TakeFront(a: Bytes, rest: Bytes)
    ensures Take(a + rest, |a|) == Some(Parsed(a, rest))
  {
  }

  lemma BytesRead(k: FieldType, v: Datum, rest: Bytes)
    requires ValueOk(k, v) && (k.Fixed32? || k.Fixed64? || k.Blob? || k.Text? || k.FixedBlob?)
    requires Payload(k, v).Some? && |Payload(k, v).value| < TWO32
    ensures GetScalar(k, Payload(k, v).value + rest) == Some(Parsed(v, rest))
  {
    hide Varint, GetSize, EncodeFixed, DecodeFixed, Span, UpToNul, Take;
    if k.Fixed32? || k.Fixed64? {
      Spans();
      FixedReads(v.n, if k.Fixed32? then 4 else 8, rest);
    } else {
      if k.Text? { NoNul(v.bytes); }
      assert Sized(v.bytes) + rest == Varint(|v.bytes|) + (v.bytes + rest);
      SizeReads(|v.bytes|, v.bytes + rest);
      TakeFront(v.bytes, rest);
      assert |v.bytes| == 0 ==> [] + rest == rest;
    }
  }

  lemma ScalarReads(k: FieldType, v: Datum, rest: Bytes)
    requires KindOk(k) && ValueOk(k, v) && !k.Sub? && Payload(k, v).Some? && |Payload(k, v).value| < TWO32
    ensures GetScalar(k, Payload(k, v).value + rest) == Some(Parsed(v, rest))
  {
    if k.Int? {
      IntReads(k, v, rest);
    } else if k.Bool? || k.UInt? || k.SInt? {
      NumbersRead(k, v, rest);
    } else {
      BytesRead(k, v, rest);
    }
  }

  lemma PackedNonEmpty(k: FieldType, v: Datum)
    requires Packable(k) && Payload(k, v).Some?
    ensures Payload(k, v).value != []
  {
  }

  lemma {:induction false} PackedReads(k: FieldType, items: seq<Datum>, room: nat)
    requires KindOk(k) && Packable(k) && (forall i :: 0 <= i < |items| ==> ValueOk(k, items[i])) && |items| <= room
    requires ArrayBytes(k, None, items).Some? && |ArrayBytes(k, None, items).value| < TWO32
    ensures GetItems(k, ArrayBytes(k, None, items).value, room) == Some(Parsed(items, []))
    decreases |items|
  {
    hide GetScalar, Payload, ValueOk;
    if items != [] {
      var p, tail := Payload(k, items[0]).value, ArrayBytes(k, None, items[1..]).value;
      assert ArrayBytes(k, None, items).value == p + tail;
      PackedNonEmpty(k, items[0]);
      ScalarReads(k, items[0], tail);
      PackedReads(k, items[1..], room - 1);
      assert [items[0]] + items[1..] == items;
    }
  }

  // ---- Zero values ----

  lemma {:induction false} ZeroIs(k: FieldType, v: Datum)
    requires ValueOk(k, v) && IsZero(k, v)
    ensures v == Zero(k)
    decreases k
  {
    match k
    case Sub(fs) =>
      forall i | 0 <= i < |fs|
        ensures v.slots[i] == Defaults(fs, 0)[i]
      {
        assert SlotIsZero(fs[i], v.slots[i]) && SlotOk(fs[i], v.slots[i]);
        if fs[i].rule.Singular? {
          ZeroIs(fs[i].kind, v.slots[i].v);
        }
      }
      assert v.slots == Defaults(fs, 0);
    case Text(_) => NoNul(v.bytes);
    case _ =>
  }

  // ---- Messages ----

  // The struct when the fields before i have been read.
  function Mixed(fs: seq<Field>, slots: seq<Slot>, i: nat): (r: seq<Slot>)
    requires i <= |fs| == |slots|
    ensures |r| == |fs|
  {
    slots[..i] + Defaults(fs, i)
  }

  lemma MixedEnds(fs: seq<Field>, slots: seq<Slot>)
    requires |fs| == |slots|
    ensures Mixed(fs, slots, 0) == Defaults(fs, 0) && Mixed(fs, slots, |fs|) == slots
  {
  }

  // A field left at its default was not sent.
  lemma MixedSame(fs: seq<Field>, slots: seq<Slot>, i: nat)
    requires i < |fs| == |slots| && slots[i] == DefaultSlot(fs[i])
    ensures Mixed(fs, slots, i + 1) == Mixed(fs, slots, i)
  {
    forall j | 0 <= j < |fs|
      ensures Mixed(fs, slots, i + 1)[j] == Mixed(fs, slots, i)[j]
    {
    }
  }

  lemma OthersUnset(fs: seq<Field>, slots: seq<Slot>, i: nat, j: nat)
    requires SlotsOk(fs, slots) && j < i < |fs| && fs[i].rule.Oneof? && fs[j].rule == fs[i].rule && slots[i].One?
    ensures slots[j] == Absent
  {
    hide ValueOk;
    assert SlotOk(fs[j], slots[j]);
  }

  lemma MixedAt(fs: seq<Field>, slots: seq<Slot>, i: nat, j: nat)
    requires i <= |fs| == |slots| && j < |fs|
    ensures Mixed(fs, slots, i)[j] == if j < i then slots[j] else DefaultSlot(fs[j])
  {
  }

  // Filling in field i; the other members of its union are unset anyway.
  lemma MixedPut(fs: seq<Field>, slots: seq<Slot>, i: nat)
    requires i < |fs| && SlotsOk(fs, slots) && (fs[i].rule.Oneof? ==> slots[i].One?)
    ensures SetSlot(fs, Mixed(fs, slots, i), i, slots[i]) == Mixed(fs, slots, i + 1)
  {
    var a, b := SetSlot(fs, Mixed(fs, slots, i), i, slots[i]), Mixed(fs, slots, i + 1);
    assert |slots| == |fs|;
    hide SlotsOk, Mixed, Zero;
    forall j | 0 <= j < |fs|
      ensures a[j] == b[j]
    {
      MixedAt(fs, slots, i, j);
      MixedAt(fs, slots, i + 1, j);
      if fs[i].rule.Oneof? && fs[j].rule == fs[i].rule && j < i {
        OthersUnset(fs, slots, i, j);
      }
    }
  }

  lemma {:induction false} FindIs(fs: seq<Field>, i: nat)
    requires i < |fs| && forall a, b :: 0 <= a < b < |fs| ==> fs[a].tag != fs[b].tag
    ensures FindTag(fs, fs[i].tag) == Some(i)
  {
    if i > 0 {
      FindIs(fs[1..], i - 1);
    }
  }

  // One tagged field at the front of the input.
  lemma ParseOne(fs: seq<Field>, i: nat, wireType: nat, body: Bytes, slots: seq<Slot>, seen: set<nat>)
    requires FieldsOk(fs) && i < |fs| == |slots| && wireType < 8
    ensures var field := ReadField(fs[i], wireType, body, slots[i]);
            Parse(fs, TagBytes(fs[i].tag, wireType) + body, slots, seen)
            == if field.None? then None
               else Parse(fs, field.value.rest, SetSlot(fs, slots, i, field.value.value), seen + {i})
  {
    hide ReadField, KindOk, GetSize, Varint, AllSeen;
    assert FieldOk(fs[i]);
    var t := 8 * fs[i].tag + wireType;
    SizeReads(t, body);
    FindIs(fs, i);
    VarintSome(t);
    assert TagBytes(fs[i].tag, wireType) + body != [];
    assert t / 8 == fs[i].tag && t % 8 == wireType;
  }

  lemma VarintSome(v: nat)
    ensures Varint(v) != []
  {
  }

  // A value of any type is read back, whatever was in the struct for scalars, and over the
  // defaults for submessages.
  lemma {:induction false} ValueReads(k: FieldType, v: Datum, rest: Bytes)
    requires KindOk(k) && ValueOk(k, v) && Payload(k, v).Some? && |Payload(k, v).value| < TWO32
    ensures GetValue(k, Payload(k, v).value + rest, Zero(k)) == Some(Parsed(v, rest))
    decreases k, 0, 0
  {
    match k
    case Sub(fs) =>
      var p := MsgFrom(fs, v.slots, 0).value;
      SizedReads(p, rest);
      MixedEnds(fs, v.slots);
      ParseFrom(fs, v.slots, 0, {});
    case _ => ScalarReads(k, v, rest);
  }

  lemma FieldValueReads(f: Field, v: Datum, rest: Bytes)
    requires KindOk(f.kind) && ValueOk(f.kind, v) && Payload(f.kind, v).Some? && |Payload(f.kind, v).value| < TWO32
    ensures GetValue(f.kind, Payload(f.kind, v).value + rest, Zero(f.kind)) == Some(Parsed(v, rest))
    decreases f, 0, 0
  {
    ValueReads(f.kind, v, rest);
  }

  // An unpacked array: one tagged entry after the other, appended to what is there.
  lemma {:induction false} ItemsRead(fs: seq<Field>, i: nat, done: seq<Datum>, items: seq<Datum>, current: seq<Slot>,
                                     rest: Bytes, seen: set<nat>)
    requires FieldsOk(fs) && i < |fs| == |current| && fs[i].rule.Repeated? && !Packable(fs[i].kind)
    requires current[i] == Many(done) && |done| + |items| <= fs[i].rule.max && items != []
    requires forall j :: 0 <= j < |items| ==> ValueOk(fs[i].kind, items[j])
    requires var bs := ArrayBytes(fs[i].kind, Some(TagBytes(fs[i].tag, WireType(fs[i].kind))), items);
             bs.Some? && |bs.value| < TWO32
    ensures var bs := ArrayBytes(fs[i].kind, Some(TagBytes(fs[i].tag, WireType(fs[i].kind))), items);
            Parse(fs, bs.value + rest, current, seen) == Parse(fs, rest, current[i := Many(done + items)], seen + {i})
    decreases fs, 0, 0, |items|
  {
    hide Payload, GetValue, KindOk, ValueOk, Parse, TagBytes, FieldsOk, Zero;
    var f := fs[i];
    FieldsOkAt(fs, i);
    var tag, p := TagBytes(f.tag, WireType(f.kind)), Payload(f.kind, items[0]).value;
    var more := ArrayBytes(f.kind, Some(tag), items[1..]).value;
    var bs := ArrayBytes(f.kind, Some(tag), items).value;
    assert bs == tag + p + more;
    assert bs + rest == tag + (p + (more + rest));
    FieldValueReads(f, items[0], more + rest);
    ParseOne(fs, i, WireType(f.kind), p + (more + rest), current, seen);
    var next := current[i := Many(done + [items[0]])];
    assert SetSlot(fs, current, i, Many(done + [items[0]])) == next;
    if |items| == 1 {
      assert items == [items[0]] && more + rest == rest;
    } else {
      ItemsRead(fs, i, done + [items[0]], items[1..], next, rest, seen + {i});
      assert done + [items[0]] + items[1..] == done + items;
      assert next[i := Many(done + items)] == current[i := Many(done + items)];
      assert seen + {i} + {i} == seen + {i};
    }
  }

  lemma FieldsOkAt(fs: seq<Field>, i: nat)
    requires FieldsOk(fs) && i < |fs|
    ensures FieldOk(fs[i]) && KindOk(fs[i].kind)
  {
  }

  // A field that was sent is read into its slot.
  lemma {:induction false} FieldReads(fs: seq<Field>, i: nat, s: Slot, start: seq<Slot>, rest: Bytes, seen: set<nat>)
    requires FieldsOk(fs) && i < |fs| == |start| && start[i] == DefaultSlot(fs[i]) && SlotOk(fs[i], s)
    requires FieldBytes(fs[i], s).Some? && 0 < |FieldBytes(fs[i], s).value| < TWO32
    ensures Parse(fs, FieldBytes(fs[i], s).value + rest, start, seen) ==
      Parse(fs, rest, SetSlot(fs, start, i, s), seen + {i})
    decreases fs, 0, 1
  {
    hide Payload, GetValue, KindOk, ValueOk, Parse, TagBytes, FieldsOk, Sized, GetSized, Zero;
    var f, bs := fs[i], FieldBytes(fs[i], s).value;
    FieldsOkAt(fs, i);
    var tag := TagBytes(f.tag, WireType(f.kind));
    if !f.rule.Repeated? {
      var p := Payload(f.kind, s.v).value;
      assert bs + rest == tag + (p + rest);
      FieldValueReads(f, s.v, rest);
      ParseOne(fs, i, WireType(f.kind), p + rest, start, seen);
    } else if Packable(f.kind) {
      var body := ArrayBytes(f.kind, None, s.items).value;
      assert bs + rest == TagBytes(f.tag, WT_STRING) + (Sized(body) + rest);
      SizedLength(body);
      SizedReads(body, rest);
      PackedReads(f.kind, s.items, f.rule.max);
      assert [] + s.items == s.items;
      ParseOne(fs, i, WT_STRING, Sized(body) + rest, start, seen);
    } else {
      ItemsRead(fs, i, [], s.items, start, rest, seen);
      assert [] + s.items == s.items;
      assert SetSlot(fs, start, i, s) == start[i := s];
    }
  }

  lemma SizedLength(bs: Bytes)
    ensures |Sized(bs)| > |bs|
  {
  }

  // A field that was not sent is at its default.
  lemma NotSent(f: Field, s: Slot)
    requires SlotOk(f, s) && FieldBytes(f, s) == Some([])
    ensures s == DefaultSlot(f) && !f.rule.Required?
  {
    hide Payload, ValueOk, TagBytes, Zero;
    VarintSome(8 * f.tag + WireType(f.kind));
    TagSome(f.tag, WireType(f.kind));
    TagSome(f.tag, WT_STRING);
    if f.rule.Singular? {
      if IsZero(f.kind, s.v) {
        ZeroIs(f.kind, s.v);
      }
    }
  }

  lemma TagSome(tag: nat, wireType: nat)
    ensures TagBytes(tag, wireType) != []
  {
  }

  lemma MsgStep(fs: seq<Field>, slots: seq<Slot>, i: nat)
    requires i < |fs| == |slots| && MsgFrom(fs, slots, i).Some?
    ensures FieldBytes(fs[i], slots[i]).Some? && MsgFrom(fs, slots, i + 1).Some?
    ensures MsgFrom(fs, slots, i).value == FieldBytes(fs[i], slots[i]).value + MsgFrom(fs, slots, i + 1).value
  {
    hide FieldBytes;
  }

  // From field i on: the rest of the encoded message fills in the rest of the struct.
  lemma {:induction false} ParseFrom(fs: seq<Field>, slots: seq<Slot>, i: nat, seen: set<nat>)
    requires FieldsOk(fs) && SlotsOk(fs, slots) && i <= |fs|
    requires MsgFrom(fs, slots, i).Some? && |MsgFrom(fs, slots, i).value| < TWO32
    requires forall j :: 0 <= j < i && fs[j].rule.Required? ==> j in seen
    ensures Parse(fs, MsgFrom(fs, slots, i).value, Mixed(fs, slots, i), seen) == Some(slots)
    decreases fs, |fs| - i, 2
  {
    MixedEnds(fs, slots);
    if i == |fs| {
      assert MsgFrom(fs, slots, i).value == [];
    } else {
      hide FieldBytes, MsgFrom, SlotOk, FieldsOk, Parse, SetSlot, DefaultSlot;
      SlotsOkAt(fs, slots, i);
      MsgStep(fs, slots, i);
      var bs, rest := FieldBytes(fs[i], slots[i]).value, MsgFrom(fs, slots, i + 1).value;
      if bs == [] {
        NotSent(fs[i], slots[i]);
        MixedSame(fs, slots, i);
        assert bs + rest == rest;
        ParseFrom(fs, slots, i + 1, seen);
      } else {
        FieldReads(fs, i, slots[i], Mixed(fs, slots, i), rest, seen);
        Chosen(fs[i], slots[i]);
        MixedPut(fs, slots, i);
        ParseFrom(fs, slots, i + 1, seen + {i});
      }
    }
  }

  lemma SlotsOkAt(fs: seq<Field>, slots: seq<Slot>, i: nat)
    requires SlotsOk(fs, slots) && i < |fs|
    ensures SlotOk(fs[i], slots[i])
  {
  }

  lemma Chosen(f: Field, s: Slot)
    requires SlotOk(f, s) && FieldBytes(f, s).Some? && FieldBytes(f, s).value != []
    ensures f.rule.Oneof? ==> s.One?
  {
  }

  // The encoder never fails on a message in range.
  lemma {:induction false} ValueEncodes(k: FieldType, v: Datum)
    requires ValueOk(k, v)
    ensures Payload(k, v).Some?
    decreases k, 0, 0
  {
    match k
    case Sub(fs) => MessageEncodes(fs, v.slots, 0);
    case _ =>
  }

  lemma {:induction false} ArrayEncodes(k: FieldType, tag: Option<Bytes>, items: seq<Datum>)
    requires forall i :: 0 <= i < |items| ==> ValueOk(k, items[i])
    ensures ArrayBytes(k, tag, items).Some?
    decreases k, 1, |items|
  {
    hide ValueOk, Payload;
    if items != [] {
      ValueEncodes(k, items[0]);
      ArrayEncodes(k, tag, items[1..]);
    }
  }

  lemma {:induction false} MessageEncodes(fs: seq<Field>, slots: seq<Slot>, i: nat)
    requires SlotsOk(fs, slots) && i <= |fs|
    ensures MsgFrom(fs, slots, i).Some?
    decreases fs, |fs| - i, 0
  {
    if i < |fs| {
      hide ValueOk, Payload;
      var f, s := fs[i], slots[i];
      assert SlotOk(f, s);
      FieldEncodes(f, s);
      MessageEncodes(fs, slots, i + 1);
    }
  }

  lemma FieldEncodes(f: Field, s: Slot)
    requires SlotOk(f, s)
    ensures FieldBytes(f, s).Some?
    decreases f, 0, 0
  {
    hide ValueOk, Payload;
    if s.One? { ValueEncodes(f.kind, s.v); }
    if s.Many? {
      ArrayEncodes(f.kind, None, s.items);
      ArrayEncodes(f.kind, Some(TagBytes(f.tag, WireType(f.kind))), s.items);
    }
  }

  // The round trip, for every descriptor tree and every message in range.
  lemma RoundTrip(fs: seq<Field>, slots: seq<Slot>)
    requires FieldsOk(fs) && SlotsOk(fs, slots)
    ensures MsgFrom(fs, slots, 0).Some?
    ensures |MsgFrom(fs, slots, 0).value| < TWO32 ==> Decode(fs, MsgFrom(fs, slots, 0).value) == Some(slots)
  {
    MessageEncodes(fs, slots, 0);
    if |MsgFrom(fs, slots, 0).value| < TWO32 {
      MixedEnds(fs, slots);
      ParseFrom(fs, slots, 0, {});
    }
  }

  // Exactly when a char array comes back: its text and a terminator must fit.  The encoder also
  // sends a full array without a terminator, which the decoder refuses.
  lemma TextReads(room: nat, bs: Bytes, rest: Bytes)
    requires |bs| <= room < TWO32
    ensures GetScalar(Text(room), Payload(Text(room), Raw(bs)).value + rest)
            == if |UpToNul(bs)| < room then Some(Parsed(Raw(UpToNul(bs)), rest)) else None
  {
    hide Varint, GetSize, UpToNul, Take;
    var text := UpToNul(bs);
    assert Sized(text) + rest == Varint(|text|) + (text + rest);
    SizeReads(|text|, text + rest);
    TakeFront(text, rest);
  }

  lemma {:induction false} SkipsVarint(v: nat, rest: Bytes)
    ensures SkipVarint(Varint(v) + rest) == Some(rest)
    decreases v
  {
    var bs := Varint(v) + rest;
    if v < 128 {
      assert bs[1..] == rest;
    } else {
      assert bs[1..] == Varint(v / 128) + rest;
      SkipsVarint(v / 128, rest);
    }
  }

  lemma SkipsValue(k: FieldType, v: Datum, rest: Bytes)
    requires Payload(k, v).Some? && |Payload(k, v).value| < TWO32
    ensures Skip(WireType(k), Payload(k, v).value + rest) == Some(rest)
  {
    hide Varint, GetSized, EncodeFixed, SkipVarint, Take, MsgFrom, Sized;
    var p := Payload(k, v).value;
    if k.Fixed32? || k.Fixed64? {
      TakeFront(p, rest);
    } else if Packable(k) {
      SkipsNumber(k, v, rest);
    } else {
      var bs := SizedPart(k, v);
      SizedLength(bs);
      SizedReads(bs, rest);
    }
  }

  lemma SkipsNumber(k: FieldType, v: Datum, rest: Bytes)
    requires Payload(k, v).Some? && Packable(k) && !k.Fixed32? && !k.Fixed64?
    ensures SkipVarint(Payload(k, v).value + rest) == Some(rest)
  {
    hide Varint, SkipVarint;
    match k
    case Bool => SkipsVarint(if v.n != 0 then 1 else 0, rest);
    case Int(_) => SkipsVarint(v.n % TWO64, rest);
    case UInt(_) => SkipsVarint(v.n % TWO64, rest);
    case SInt(_) => SkipsVarint(ZigZag(v.n) % TWO64, rest);
  }

  lemma SizedPart(k: FieldType, v: Datum) returns (bs: Bytes)
    requires Payload(k, v).Some? && !Packable(k)
    ensures Payload(k, v).value == Sized(bs)
  {
    hide Sized;
    if k.Text? {
      bs := UpToNul(v.bytes);
    } else if k.Sub? {
      bs := MsgFrom(k.fields, v.slots, 0).value;
    } else {
      bs := v.bytes;
    }
  }

  // A field the reader does not know, of any type, changes nothing.
  lemma UnknownField(fs: seq<Field>, tag: nat, k: FieldType, v: Datum, rest: Bytes, slots: seq<Slot>, seen: set<nat>)
    requires FindTag(fs, tag).None? && 0 < tag < 0x2000_0000 && |slots| == |fs|
    requires Payload(k, v).Some? && |Payload(k, v).value| < TWO32
    ensures Parse(fs, TagBytes(tag, WireType(k)) + Payload(k, v).value + rest, slots, seen) ==
      Parse(fs, rest, slots, seen)
  {
    hide Varint, GetSize, AllSeen, Payload, Skip, ReadField, WireType;
    var t, body := 8 * tag + WireType(k), Payload(k, v).value + rest;
    var bs := TagBytes(tag, WireType(k)) + Payload(k, v).value + rest;
    assert bs == Varint(t) + body;
    SizeReads(t, body);
    SkipsValue(k, v, rest);
    VarintSome(t);
    assert t / 8 == tag && t % 8 == WireType(k);
  }
}
