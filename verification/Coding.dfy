// Fixed-width and variable-length integers, length-prefixed strings (util/coding.cc).

module Coding {
  import opened DbFormat

  type Bytes = seq<byte>

  // ---- Fixed width, little endian ----

  function EncodeFixed(v: nat, width: nat): (r: Bytes)
    ensures |r| == width
  {
    if width == 0 then [] else [v % 256] + EncodeFixed(v / 256, width - 1)
  }

  function DecodeFixed(bs: Bytes): nat {
    if bs == [] then 0 else bs[0] + 256 * DecodeFixed(bs[1..])
  }

  // 256^width
  function Span(width: nat): (r: nat)
    ensures r > 0
  {
    if width == 0 then 1 else 256 * Span(width - 1)
  }

  lemma {:induction false} FixedRoundTrip(v: nat, width: nat)
    requires v < Span(width)
    ensures DecodeFixed(EncodeFixed(v, width)) == v
  {
    if width > 0 {
      FixedRoundTrip(v / 256, width - 1);
      assert EncodeFixed(v, width)[1..] == EncodeFixed(v / 256, width - 1);
    }
  }

  lemma {:induction false} DecodeBound(bs: Bytes)
    ensures DecodeFixed(bs) < Span(|bs|)
  {
    if bs != [] {
      DecodeBound(bs[1..]);
    }
  }

  lemma {:induction false} FixedOnto(bs: Bytes)
    ensures EncodeFixed(DecodeFixed(bs), |bs|) == bs
  {
    if bs != [] {
      FixedOnto(bs[1..]);
    }
  }

  // ---- Variable length ----

  const TWO32: nat := 0x1_0000_0000

  // EncodeVarint32 and EncodeVarint64: seven bits a byte, low bits first.
  function Varint(v: nat): (r: Bytes)
    ensures r != []
  {
    if v < 128 then [v] else [v % 128 + 128] + Varint(v / 128)
  }

  // The unrolled encoder of 32-bit values.
  method EncodeVarint32(v: nat) returns (r: Bytes)
    requires v < TWO32
    ensures r == Varint(v)
  {
    Shifts(v);
    var v7, v14, v21, v28 := v / 0x80, v / 0x4000, v / 0x20_0000, v / 0x1000_0000;
    if v < 0x80 {
      r := [v];
    } else if v < 0x4000 {
      r := [v % 128 + 128, v7];
      VarintSteps(v, v7, 0, 0, 0, 1);
    } else if v < 0x20_0000 {
      r := [v % 128 + 128, v7 % 128 + 128, v14];
      VarintSteps(v, v7, v14, 0, 0, 2);
    } else if v < 0x1000_0000 {
      r := [v % 128 + 128, v7 % 128 + 128, v14 % 128 + 128, v21];
      VarintSteps(v, v7, v14, v21, 0, 3);
    } else {
      r := [v % 128 + 128, v7 % 128 + 128, v14 % 128 + 128, v21 % 128 + 128, v28];
      VarintSteps(v, v7, v14, v21, v28, 4);
    }
  }

  lemma Shifts(v: nat)
    ensures v / 0x80 / 128 == v / 0x4000 && v / 0x4000 / 128 == v / 0x20_0000 && v / 0x20_0000 / 128 == v / 0x1000_0000
  {
  }

  lemma VarintSteps(v: nat, a: nat, b: nat, c: nat, d: nat, n: nat)
    requires 1 <= n <= 4 && v >= 128 && a == v / 128
    requires if n == 1 then a < 128 else a >= 128 && b == a / 128
    requires n >= 2 ==> if n == 2 then b < 128 else b >= 128 && c == b / 128
    requires n >= 3 ==> if n == 3 then c < 128 else c >= 128 && d == c / 128
    requires n >= 4 ==> d < 128
    ensures Varint(v) == [v % 128 + 128] + (if n == 1 then [a] else [a % 128 + 128] + (if n == 2 then [b] else
      [b % 128 + 128] + (if n == 3 then [c] else [c % 128 + 128, d])))
  {
    if n >= 2 {
      assert Varint(a) == [a % 128 + 128] + Varint(b);
      if n >= 3 {
        assert Varint(b) == [b % 128 + 128] + Varint(c);
        if n >= 4 {
          assert Varint(c) == [c % 128 + 128] + Varint(d);
        }
      }
    }
  }

  // A parsed value and the unread rest.
  datatype Parsed<+T> = Parsed(value: T, rest: Bytes)

  // At most `room` bytes of a variable-length integer.
  function GetVarint(bs: Bytes, room: nat): (r: Option<Parsed<nat>>)
    ensures r.Some? ==> |r.value.rest| < |bs|
  {
    if room == 0 || bs == [] then None
    else if bs[0] < 128 then Some(Parsed(bs[0], bs[1..]))
    else
      var tail := GetVarint(bs[1..], room - 1);
      if tail.None? then None else Some(Parsed(bs[0] - 128 + 128 * tail.value.value, tail.value.rest))
  }

  // The value kept in a 32-bit variable.
  function GetVarint32(bs: Bytes): (r: Option<Parsed<nat>>)
    ensures r.Some? ==> |r.value.rest| < |bs| && r.value.value < TWO32
  {
    var p := GetVarint(bs, 5);
    if p.None? then None else Some(Parsed(p.value.value % TWO32, p.value.rest))
  }

  function Pow128(n: nat): (r: nat)
    ensures r > 0
  {
    if n == 0 then 1 else 128 * Pow128(n - 1)
  }

  lemma {:induction false} VarintRoundTrip(v: nat, room: nat, rest: Bytes)
    requires room > 0 && v < Pow128(room)
    ensures GetVarint(Varint(v) + rest, room) == Some(Parsed(v, rest))
    decreases room
  {
    var bs := Varint(v) + rest;
    if v < 128 {
      assert bs[1..] == rest;
    } else {
      assert bs[1..] == Varint(v / 128) + rest;
      VarintRoundTrip(v / 128, room - 1, rest);
    }
  }

  lemma Pow5()
    ensures Pow128(5) == 0x8_0000_0000
  {
    assert Pow128(3) == 128 * (128 * 128) && Pow128(1) == 128;
  }

  lemma Varint32RoundTrip(v: nat, rest: Bytes)
    requires v < TWO32
    ensures GetVarint32(Varint(v) + rest) == Some(Parsed(v, rest))
  {
    hide GetVarint, Varint, Pow128;
    Pow5();
    VarintRoundTrip(v, 5, rest);
  }

  // EncodeVarint64's loop.
  method EncodeVarint64(v: nat) returns (r: Bytes)
    ensures r == Varint(v)
  {
    r := [];
    var rest := v;
    while rest >= 128
      invariant r + Varint(rest) == Varint(v)
    {
      ghost var done := r;
      r := r + [rest % 128 + 128];
      assert done + Varint(rest) == r + Varint(rest / 128);
      rest := rest / 128;
    }
    r := r + [rest];
  }

  const TWO64: nat := 0x1_0000_0000_0000_0000

  // The value kept in a 64-bit variable.
  function GetVarint64(bs: Bytes): (r: Option<Parsed<nat>>)
    ensures r.Some? ==> |r.value.rest| < |bs| && r.value.value < TWO64
  {
    var p := GetVarint(bs, 10);
    if p.None? then None else Some(Parsed(p.value.value % TWO64, p.value.rest))
  }

  lemma Pow10()
    ensures Pow128(10) == 0x40_0000_0000_0000_0000
  {
    Pow5();
    assert Pow128(10) == 128 * (128 * (128 * (128 * (128 * Pow128(5)))));
  }

  lemma Varint64RoundTrip(v: nat, rest: Bytes)
    requires v < TWO64
    ensures GetVarint64(Varint(v) + rest) == Some(Parsed(v, rest))
  {
    hide GetVarint, Varint, Pow128;
    Pow10();
    VarintRoundTrip(v, 10, rest);
  }

  lemma {:induction false} VarintLength(v: nat, room: nat)
    requires room > 0 && v < Pow128(room)
    ensures |Varint(v)| <= room
    decreases room
  {
    if v >= 128 {
      VarintLength(v / 128, room - 1);
    }
  }

  // GetVarint32Ptr and its fallback: or each group of seven bits into a 32-bit result.
  method ParseVarint32(input: Bytes) returns (r: Option<Parsed<nat>>)
    ensures r == GetVarint32(input)
  {
    hide GetVarint, Continued;
    var result: nat, place: nat := 0, 1;
    ghost var full: nat := 0;
    Unread(input);
    var p := 0;
    while p < 5 && p < |input|
      invariant 0 <= p <= |input| && p <= 5
      invariant result == full % TWO32
      invariant GetVarint(input, 5) == Continued(full, place, GetVarint(input[p..], 5 - p))
    {
      var b := input[p];
      Group(input[p..], 5 - p, full, place);
      assert input[p..][1..] == input[p + 1..];
      Wrapped(full, b % 128 * place);
      result, full := (result + b % 128 * place) % TWO32, full + b % 128 * place;
      if b < 128 {
        return Some(Parsed(result, input[p + 1..]));
      }
      place, p := place * 128, p + 1;
    }
    OutOfBytes(input[p..], 5 - p, full, place);
    r := None;
  }

  // The whole value, when full is the part already read and the rest counts in units of place.
  function Continued(full: nat, place: nat, tail: Option<Parsed<nat>>): Option<Parsed<nat>> {
    if tail.None? then None else Some(Parsed(full + place * tail.value.value, tail.value.rest))
  }

  lemma Unread(bs: Bytes)
    ensures GetVarint(bs, 5) == Continued(0, 1, GetVarint(bs[0..], 5))
  {
    assert bs[0..] == bs;
  }

  lemma OutOfBytes(bs: Bytes, room: nat, full: nat, place: nat)
    requires bs == [] || room == 0
    ensures Continued(full, place, GetVarint(bs, room)) == None
  {
  }

  // One more group read.
  lemma Group(bs: Bytes, room: nat, full: nat, place: nat)
    requires bs != [] && room > 0
    ensures bs[0] < 128 ==>
      Continued(full, place, GetVarint(bs, room)) == Some(Parsed(full + bs[0] % 128 * place, bs[1..]))
    ensures bs[0] >= 128 ==>
      Continued(full, place, GetVarint(bs, room)) ==
      Continued(full + bs[0] % 128 * place, place * 128, GetVarint(bs[1..], room - 1))
  {
    var tail := GetVarint(bs[1..], room - 1);
    if bs[0] >= 128 && tail.Some? {
      Distribute(full, place, bs[0] - 128, tail.value.value);
    }
  }

  lemma Distribute(full: nat, place: nat, b: nat, v: nat)
    ensures full + place * (b + 128 * v) == full + b * place + place * 128 * v
  {
  }

  lemma Wrapped(full: nat, x: nat)
    ensures (full % TWO32 + x) % TWO32 == (full + x) % TWO32
  {
  }

  // GetVarint64Ptr: at most ten groups, or-ed into a 64-bit result.
  method ParseVarint64(input: Bytes) returns (r: Option<Parsed<nat>>)
    ensures r == GetVarint64(input)
  {
    hide GetVarint, Continued;
    var result: nat, place: nat := 0, 1;
    ghost var full: nat := 0;
    Unread64(input);
    var p := 0;
    while p < 10 && p < |input|
      invariant 0 <= p <= |input| && p <= 10
      invariant result == full % TWO64
      invariant GetVarint(input, 10) == Continued(full, place, GetVarint(input[p..], 10 - p))
    {
      var b := input[p];
      Group(input[p..], 10 - p, full, place);
      assert input[p..][1..] == input[p + 1..];
      Wrapped64(full, b % 128 * place);
      result, full := (result + b % 128 * place) % TWO64, full + b % 128 * place;
      if b < 128 {
        return Some(Parsed(result, input[p + 1..]));
      }
      place, p := place * 128, p + 1;
    }
    OutOfBytes(input[p..], 10 - p, full, place);
    r := None;
  }

  lemma Unread64(bs: Bytes)
    ensures GetVarint(bs, 10) == Continued(0, 1, GetVarint(bs[0..], 10))
  {
    assert bs[0..] == bs;
  }

  lemma Wrapped64(full: nat, x: nat)
    ensures (full % TWO64 + x) % TWO64 == (full + x) % TWO64
  {
  }

  // ---- Length-prefixed strings ----

  function Prefixed(s: Bytes): Bytes {
    Varint(|s|) + s
  }

  function GetPrefixed(bs: Bytes): (r: Option<Parsed<Bytes>>)
    ensures r.Some? ==> |r.value.rest| < |bs|
  {
    var len := GetVarint32(bs);
    if len.None? || |len.value.rest| < len.value.value then None
    else Some(Parsed(len.value.rest[..len.value.value], len.value.rest[len.value.value..]))
  }

  lemma PrefixedRoundTrip(s: Bytes, rest: Bytes)
    requires |s| < TWO32
    ensures GetPrefixed(Prefixed(s) + rest) == Some(Parsed(s, rest))
  {
    assert Prefixed(s) + rest == Varint(|s|) + (s + rest);
    Varint32RoundTrip(|s|, s + rest);
  }

  method PutLengthPrefixedSlice(dst: Bytes, value: Bytes) returns (r: Bytes)
    requires |value| < TWO32
    ensures r == dst + Prefixed(value)
  {
    var len := EncodeVarint32(|value|);
    r := dst + len + value;
  }

  method GetLengthPrefixedSlice(input: Bytes) returns (r: Option<Parsed<Bytes>>)
    ensures r == GetPrefixed(input)
  {
    var len := ParseVarint32(input);
    if len.Some? && |len.value.rest| >= len.value.value {
      r := Some(Parsed(len.value.rest[..len.value.value], len.value.rest[len.value.value..]));
    } else {
      r := None;
    }
  }
}
