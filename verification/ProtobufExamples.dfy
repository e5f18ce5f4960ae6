// Messages spelled out.

module ProtobufExamples {
  // Bytes of single fields, with the examples of the Protocol Buffers documentation ("Encoding"), and bytes that
  // are refused.

  import opened DbFormat
  import opened Coding
  import opened Protobuf

  // ---- Values ----

  lemma Numbers()
    ensures Payload(Int(4), Num(150)) == Some([0x96, 1]) && Payload(Bool, Num(5)) == Some([1])
    ensures Payload(SInt(4), Num(-1)) == Some([1]) && Payload(SInt(4), Num(1)) == Some([2])
    ensures Payload(SInt(4), Num(-2)) == Some([3])
    ensures Payload(Fixed32, Num(1)) == Some([1, 0, 0, 0])
  {
    assert Varint(150) == [0x96, 1] && EncodeFixed(1, 4) == [1, 0, 0, 0];
    assert ZigZag(-1) == 1 && ZigZag(1) == 2 && ZigZag(-2) == 3;
  }

  // A negative plain integer takes ten bytes.
  lemma NegativeNumber()
    ensures Payload(Int(4), Num(-1)) ==
      Some([0xff] + ([0xff] + ([0xff] + ([0xff] + ([0xff] + [0xff, 0xff, 0xff, 0xff, 1])))))
  {
    assert (-1) % TWO64 == 0xffff_ffff_ffff_ffff;
    hide Varint;
    Group(0xffff_ffff_ffff_ffff);
    Group(0x1ff_ffff_ffff_ffff);
    Group(0x3_ffff_ffff_ffff);
    Group(0x7ff_ffff_ffff);
    Group(0xf_ffff_ffff);
    LastGroups();
  }

  lemma Group(v: nat)
    requires v >= 128
    ensures Varint(v) == [v % 128 + 128] + Varint(v / 128)
  {
  }

  lemma LastGroups()
    ensures Varint(0x1fff_ffff) == [0xff, 0xff, 0xff, 0xff, 1]
  {
  }

  // ---- Fields ----

  // The key of a field: its number and the wire type, which is 0 for varints, 1 for eight bytes, 2 for anything with
  // a length, 5 for four bytes.
  lemma Keys(tag: nat, width: nat, n: nat, fs: seq<Field>)
    ensures TagBytes(tag, WireType(Bool)) == TagBytes(tag, WireType(Int(width))) == Varint(8 * tag)
    ensures TagBytes(tag, WireType(UInt(width))) == TagBytes(tag, WireType(SInt(width))) == Varint(8 * tag)
    ensures TagBytes(tag, WireType(Fixed64)) == Varint(8 * tag + 1)
    ensures TagBytes(tag, WireType(Blob(n))) == TagBytes(tag, WireType(Text(n))) == Varint(8 * tag + 2)
    ensures TagBytes(tag, WireType(FixedBlob(n))) == TagBytes(tag, WireType(Sub(fs))) == Varint(8 * tag + 2)
    ensures TagBytes(tag, WireType(Fixed32)) == Varint(8 * tag + 5)
  {
  }

  // Field 1 is the number 150.
  lemma NumberField()
    ensures FieldBytes(Field(1, Optional, Int(4)), One(Num(150))) == Some([0x08] + [0x96, 1])
  {
    Numbers();
  }

  // Field 2 is a string of seven characters.
  lemma TextField(bs: Bytes)
    requires |bs| == 7 && 0 !in bs
    ensures FieldBytes(Field(2, Required, Text(16)), One(Raw(bs))) == Some([0x12] + ([7] + bs))
  {
    NoNul(bs);
    hide UpToNul;
  }

  lemma {:induction false} NoNul(bs: Bytes)
    requires 0 !in bs
    ensures UpToNul(bs) == bs
  {
    if bs != [] {
      NoNul(bs[1..]);
      assert bs == [bs[0]] + bs[1..];
    }
  }

  // Field 3 is a message whose field 1 is the number 150.
  lemma SubField()
    ensures FieldBytes(Field(3, Required, Sub([Field(1, Optional, Int(4))])), One(Msg([One(Num(150))]))) ==
      Some([0x1a] + ([3] + ([0x08] + [0x96, 1])))
  {
    NumberField();
    var fs, slots := [Field(1, Optional, Int(4))], [One(Num(150))];
    var body: Bytes := [0x08] + [0x96, 1];
    assert MsgFrom(fs, slots, 1) == Some([]);
    assert body + [] == body;
    assert MsgFrom(fs, slots, 0) == Some(body);
  }

  // Field 4 is the packed numbers 3, 270 and 86942.
  lemma PackedField()
    ensures FieldBytes(Field(4, Repeated(8), Int(4)), Many([Num(3), Num(270), Num(86942)])) ==
      Some([0x22] + ([6] + ([3] + ([0x8e, 2] + [0x9e, 0xa7, 5]))))
  {
    hide Varint, FieldBytes, Payload;
    var a, b, c := Num(3), Num(270), Num(86942);
    ThreeNumbers();
    assert [a, b, c][1..] == [b, c] && [b, c][1..] == [c] && [c][1..] == [];
    var two: Bytes := [0x9e, 0xa7, 5];
    assert ArrayBytes(Int(4), None, []) == Some([]) && two + [] == two;
    Item(c, [c], [], [0x9e, 0xa7, 5], []);
    Item(b, [b, c], [c], [0x8e, 2], two);
    Item(a, [a, b, c], [b, c], [3], [0x8e, 2] + two);
    PackedIs([a, b, c], [3] + ([0x8e, 2] + two));
  }

  lemma ThreeNumbers()
    ensures Payload(Int(4), Num(3)) == Some([3]) && Payload(Int(4), Num(270)) == Some([0x8e, 2])
    ensures Payload(Int(4), Num(86942)) == Some([0x9e, 0xa7, 5])
    ensures Varint(0x22) == [0x22] && Varint(6) == [6]
  {
    assert Varint(270) == [0x8e, 2] && Varint(86942) == [0x9e, 0xa7, 5];
  }

  lemma PackedIs(items: seq<Datum>, body: Bytes)
    requires 0 < |items| <= 8 && ArrayBytes(Int(4), None, items) == Some(body)
    ensures FieldBytes(Field(4, Repeated(8), Int(4)), Many(items)) == Some(Varint(0x22) + (Varint(|body|) + body))
  {
    hide Varint;
  }

  lemma Item(a: Datum, all: seq<Datum>, rest: seq<Datum>, bs: Bytes, more: Bytes)
    requires all != [] && all[0] == a && all[1..] == rest && Payload(Int(4), a) == Some(bs)
    requires ArrayBytes(Int(4), None, rest) == Some(more)
    ensures ArrayBytes(Int(4), None, all) == Some(bs + more)
  {
    hide Payload;
    assert [] + bs == bs;
  }

  // ---- Bytes that are refused ----

  lemma Refused()
    ensures Decode([Field(1, Optional, UInt(4))], [0x08]) == None
    ensures Decode([Field(1, Required, UInt(4))], []) == None
  {
  }

  // One byte holds 255 and not 256; signed, -128 and not -129.
  lemma Ranges()
    ensures GetScalar(UInt(1), [0xff, 1]) == Some(Parsed(Num(255), [])) && GetScalar(UInt(1), [0x80, 2]) == None
    ensures GetScalar(SInt(1), [0xff, 1]) == Some(Parsed(Num(-128), [])) && GetScalar(SInt(1), [0x81, 2]) == None
  {
  }
}
