// Fields in any order, any number of times.

module ProtobufMerging {
  // What a decoder makes of fields sent more than once, in another order or in pieces (pb_decode.c; Protocol
  // Buffers documentation, "Encoding", sections "Last One Wins" and "Field Order").

  import opened DbFormat
  import opened Coding
  import opened Protobuf
  import opened ProtobufRoundTrip

  // A value of a field that is no submessage, short enough to be sent.
  ghost predicate Sendable(f: Field, v: Datum) {
    !f.kind.Sub? && ValueOk(f.kind, v) && Payload(f.kind, v).Some? && |Payload(f.kind, v).value| < TWO32
  }

  // The value behind its tag.
  ghost function Tagged(f: Field, v: Datum): Bytes
    requires Sendable(f, v)
  {
    TagBytes(f.tag, WireType(f.kind)) + Payload(f.kind, v).value
  }

  // A value sent for a field that is not repeated is what the field holds then, whatever it held.
  lemma ValueSets(fs: seq<Field>, i: nat, v: Datum, rest: Bytes, slots: seq<Slot>, seen: set<nat>)
    requires FieldsOk(fs) && i < |fs| == |slots| && !fs[i].rule.Repeated? && Sendable(fs[i], v)
    ensures Parse(fs, Tagged(fs[i], v) + rest, slots, seen) ==
      Parse(fs, rest, SetSlot(fs, slots, i, One(v)), seen + {i})
  {
    hide Payload, GetScalar, KindOk, ValueOk, Parse, TagBytes, FieldsOk, SetSlot;
    var p, tag := Payload(fs[i].kind, v).value, TagBytes(fs[i].tag, WireType(fs[i].kind));
    FieldsOkAt(fs, i);
    ScalarReads(fs[i].kind, v, rest);
    ParseOne(fs, i, WireType(fs[i].kind), p + rest, slots, seen);
    assert Tagged(fs[i], v) + rest == tag + (p + rest);
  }

  lemma SetTwice(fs: seq<Field>, slots: seq<Slot>, i: nat, s: Slot, t: Slot)
    requires i < |fs| == |slots|
    ensures SetSlot(fs, SetSlot(fs, slots, i, s), i, t) == SetSlot(fs, slots, i, t)
  {
  }

  // Of a field sent twice in a row the first value makes no difference.
  lemma LastWins(fs: seq<Field>, i: nat, a: Datum, b: Datum, rest: Bytes, slots: seq<Slot>, seen: set<nat>)
    requires FieldsOk(fs) && i < |fs| == |slots| && !fs[i].rule.Repeated?
    requires Sendable(fs[i], a) && Sendable(fs[i], b)
    ensures Parse(fs, Tagged(fs[i], a) + (Tagged(fs[i], b) + rest), slots, seen) ==
      Parse(fs, Tagged(fs[i], b) + rest, slots, seen)
  {
    hide Parse, FieldsOk, Sendable, SetSlot;
    ValueSets(fs, i, a, Tagged(fs[i], b) + rest, slots, seen);
    ValueSets(fs, i, b, rest, SetSlot(fs, slots, i, One(a)), seen + {i});
    ValueSets(fs, i, b, rest, slots, seen);
    SetTwice(fs, slots, i, One(a), One(b));
    assert seen + {i} + {i} == seen + {i};
  }

  lemma SetOther(fs: seq<Field>, slots: seq<Slot>, i: nat, j: nat, s: Slot, t: Slot)
    requires i < |fs| == |slots| && j < |fs| && i != j && !(fs[i].rule.Oneof? && fs[i].rule == fs[j].rule)
    ensures SetSlot(fs, SetSlot(fs, slots, i, s), j, t) == SetSlot(fs, SetSlot(fs, slots, j, t), i, s)
  {
  }

  // Two fields that are not of one union may come in either order.
  lemma OrderIsFree(fs: seq<Field>, i: nat, a: Datum, j: nat, b: Datum, rest: Bytes, slots: seq<Slot>, seen: set<nat>)
    requires FieldsOk(fs) && i < |fs| == |slots| && j < |fs| && i != j
    requires !fs[i].rule.Repeated? && !fs[j].rule.Repeated? && !(fs[i].rule.Oneof? && fs[i].rule == fs[j].rule)
    requires Sendable(fs[i], a) && Sendable(fs[j], b)
    ensures Parse(fs, Tagged(fs[i], a) + (Tagged(fs[j], b) + rest), slots, seen) ==
      Parse(fs, Tagged(fs[j], b) + (Tagged(fs[i], a) + rest), slots, seen)
  {
    hide Parse, FieldsOk, Sendable, SetSlot;
    ValueSets(fs, i, a, Tagged(fs[j], b) + rest, slots, seen);
    ValueSets(fs, j, b, rest, SetSlot(fs, slots, i, One(a)), seen + {i});
    ValueSets(fs, j, b, Tagged(fs[i], a) + rest, slots, seen);
    ValueSets(fs, i, a, rest, SetSlot(fs, slots, j, One(b)), seen + {j});
    SetOther(fs, slots, i, j, One(a), One(b));
    assert seen + {i} + {j} == seen + {j} + {i};
  }

  // Of the members of a union only the one sent last is set.
  lemma UnionLast(fs: seq<Field>, i: nat, a: Datum, j: nat, b: Datum, slots: seq<Slot>, seen: set<nat>)
    requires FieldsOk(fs) && i < |fs| == |slots| && j < |fs| && i != j && fs[i].rule.Oneof? && fs[j].rule == fs[i].rule
    requires Sendable(fs[i], a) && Sendable(fs[j], b) && AllSeen(fs, seen + {i} + {j})
    ensures var r := Parse(fs, Tagged(fs[i], a) + (Tagged(fs[j], b) + []), slots, seen);
      r.Some? && r.value[i] == Absent && r.value[j] == One(b)
      && forall k :: 0 <= k < |fs| && fs[k].rule != fs[i].rule ==> r.value[k] == slots[k]
  {
    hide FieldsOk, Sendable, AllSeen;
    ValueSets(fs, i, a, Tagged(fs[j], b) + [], slots, seen);
    ValueSets(fs, j, b, [], SetSlot(fs, slots, i, One(a)), seen + {i});
  }

  // A value sent by itself joins a repeated field, packed or not, while there is room; without room the message is
  // refused.
  lemma ValueJoins(fs: seq<Field>, i: nat, v: Datum, rest: Bytes, slots: seq<Slot>, seen: set<nat>)
    requires FieldsOk(fs) && i < |fs| == |slots| && fs[i].rule.Repeated? && slots[i].Many? && Sendable(fs[i], v)
    ensures Parse(fs, Tagged(fs[i], v) + rest, slots, seen) ==
      if |slots[i].items| < fs[i].rule.max then
        Parse(fs, rest, SetSlot(fs, slots, i, Many(slots[i].items + [v])), seen + {i})
      else None
  {
    hide Payload, GetScalar, KindOk, ValueOk, Parse, TagBytes, FieldsOk, SetSlot;
    var p, tag := Payload(fs[i].kind, v).value, TagBytes(fs[i].tag, WireType(fs[i].kind));
    FieldsOkAt(fs, i);
    ScalarReads(fs[i].kind, v, rest);
    ParseOne(fs, i, WireType(fs[i].kind), p + rest, slots, seen);
    assert Tagged(fs[i], v) + rest == tag + (p + rest);
  }

  // The bytes of a submessage are read on top of what the field holds, or of the defaults.
  lemma PieceRead(fs: seq<Field>, i: nat, sub: seq<Field>, x: Bytes, rest: Bytes, slots: seq<Slot>, seen: set<nat>)
    requires FieldsOk(fs) && i < |fs| == |slots| && !fs[i].rule.Repeated? && fs[i].kind == Sub(sub) && |x| < TWO32
    requires slots[i].One? && slots[i].v.Msg? && |slots[i].v.slots| == |sub|
    ensures var r := Parse(sub, x, slots[i].v.slots, {});
      Parse(fs, TagBytes(fs[i].tag, WT_STRING) + (Sized(x) + rest), slots, seen) ==
      if r.None? then None else Parse(fs, rest, SetSlot(fs, slots, i, One(Msg(r.value))), seen + {i})
  {
    hide Parse, TagBytes, FieldsOk, SetSlot, Sized, GetSized;
    SizedReads(x, rest);
    ParseOne(fs, i, WT_STRING, Sized(x) + rest, slots, seen);
  }

  // A submessage sent in two pieces is merged: the second piece is read on top of the first.
  lemma PiecesMerge(fs: seq<Field>, i: nat, sub: seq<Field>, x: Bytes, y: Bytes, rest: Bytes, slots: seq<Slot>,
                    seen: set<nat>)
    requires FieldsOk(fs) && i < |fs| == |slots| && !fs[i].rule.Repeated? && fs[i].kind == Sub(sub)
    requires |x| < TWO32 && |y| < TWO32 && slots[i].One? && slots[i].v.Msg? && |slots[i].v.slots| == |sub|
    ensures var tag := TagBytes(fs[i].tag, WT_STRING);
      var first := Parse(sub, x, slots[i].v.slots, {});
      var both := if first.None? then None else Parse(sub, y, first.value, {});
      Parse(fs, tag + (Sized(x) + (tag + (Sized(y) + rest))), slots, seen) ==
      if both.None? then None else Parse(fs, rest, SetSlot(fs, slots, i, One(Msg(both.value))), seen + {i})
  {
    hide Parse, TagBytes, FieldsOk, Sized;
    var tag := TagBytes(fs[i].tag, WT_STRING);
    PieceRead(fs, i, sub, x, tag + (Sized(y) + rest), slots, seen);
    var first := Parse(sub, x, slots[i].v.slots, {});
    if first.Some? {
      var after := SetSlot(fs, slots, i, One(Msg(first.value)));
      PieceRead(fs, i, sub, y, rest, after, seen + {i});
      var both := Parse(sub, y, first.value, {});
      if both.Some? {
        SetTwice(fs, slots, i, One(Msg(first.value)), One(Msg(both.value)));
        assert seen + {i} + {i} == seen + {i};
      }
    }
  }
}
