// CRC32C, four lanes at a time.

module Crc32c {
  // The four-lane loop over words (util/crc32c.cc, util/crc32c.h) computes the byte-at-a-time
  // checksum of section 12.1 of RFC 3720.

  type Word = bv32

  const CRC_XOR: Word := 0xffffffff

  const MASK_DELTA: Word := 0xa282ead8

  function Xor(a: Word, b: Word): Word {
    a ^ b
  }

  // ---- The simple form ----

  function Half(x: Word): Word {
    x >> 1
  }

  // The reflected Castagnoli polynomial, when the bit shifted out is set.
  function Feedback(x: Word): Word {
    if x & 1 == 1 then 0x82f63b78 else 0
  }

  function Bit(x: Word): Word {
    Xor(Half(x), Feedback(x))
  }

  // One byte's worth of bits.
  function Shift8(x: Word): Word {
    Bit(Bit(Bit(Bit(Bit(Bit(Bit(Bit(x))))))))
  }

  function Wide(b: bv8): Word {
    b as Word
  }

  function Fold(l: Word, data: seq<bv8>): Word
    decreases |data|
  {
    if data == [] then l else Fold(Shift8(Xor(l, Wide(data[0]))), data[1..])
  }

  // The checksum of data appended to a string whose checksum is crc.
  function Simple(crc: Word, data: seq<bv8>): Word {
    Xor(Fold(Xor(crc, CRC_XOR), data), CRC_XOR)
  }

  lemma {:induction false} FoldConcat(l: Word, a: seq<bv8>, b: seq<bv8>)
    ensures Fold(l, a + b) == Fold(Fold(l, a), b)
    decreases |a|
  {
    hide Shift8, Xor, Wide;
    if a == [] {
      assert a + b == b;
    } else {
      assert (a + b)[1..] == a[1..] + b;
      FoldConcat(Shift8(Xor(l, Wide(a[0]))), a[1..], b);
    }
  }

  // Checksumming in pieces, as the log does with the type byte and the payload.
  lemma SimpleConcat(crc: Word, a: seq<bv8>, b: seq<bv8>)
    ensures Simple(crc, a + b) == Simple(Simple(crc, a), b)
  {
    hide Fold, Xor;
    FoldConcat(Xor(crc, CRC_XOR), a, b);
    XorCancel(Fold(Xor(crc, CRC_XOR), a), CRC_XOR);
  }

  // ---- Linearity over exclusive or ----

  lemma XorCancel(x: Word, y: Word)
    ensures Xor(Xor(x, y), y) == x
  {
  }

  lemma XorAssoc(a: Word, b: Word, c: Word)
    ensures Xor(Xor(a, b), c) == Xor(a, Xor(b, c)) && Xor(a, b) == Xor(b, a)
  {
  }

  lemma XorSwap(a: Word, b: Word, c: Word, d: Word)
    ensures Xor(Xor(a, b), Xor(c, d)) == Xor(Xor(a, c), Xor(b, d))
  {
    hide Xor;
    XorAssoc(a, b, Xor(c, d));
    XorAssoc(b, c, d);
    XorAssoc(c, b, d);
    XorAssoc(a, c, Xor(b, d));
  }

  lemma HalfLinear(x: Word, y: Word)
    ensures Half(Xor(x, y)) == Xor(Half(x), Half(y))
  {
  }

  lemma FeedbackLinear(x: Word, y: Word)
    ensures Feedback(Xor(x, y)) == Xor(Feedback(x), Feedback(y))
  {
  }

  lemma BitLinear(x: Word, y: Word)
    ensures Bit(Xor(x, y)) == Xor(Bit(x), Bit(y))
  {
    hide Half, Feedback, Xor;
    HalfLinear(x, y);
    FeedbackLinear(x, y);
    XorSwap(Half(x), Half(y), Feedback(x), Feedback(y));
  }

  lemma ShiftLinear(x: Word, y: Word)
    ensures Shift8(Xor(x, y)) == Xor(Shift8(x), Shift8(y))
  {
    hide Bit, Xor;
    var a, b := x, y;
    BitLinear(a, b);
    a, b := Bit(a), Bit(b);
    BitLinear(a, b);
    a, b := Bit(a), Bit(b);
    BitLinear(a, b);
    a, b := Bit(a), Bit(b);
    BitLinear(a, b);
    a, b := Bit(a), Bit(b);
    BitLinear(a, b);
    a, b := Bit(a), Bit(b);
    BitLinear(a, b);
    a, b := Bit(a), Bit(b);
    BitLinear(a, b);
    a, b := Bit(a), Bit(b);
    BitLinear(a, b);
  }

  // n zero bytes.
  function Zeros(n: nat, x: Word): Word {
    if n == 0 then x else Zeros(n - 1, Shift8(x))
  }

  lemma {:induction false} ZerosLinear(n: nat, x: Word, y: Word)
    ensures Zeros(n, Xor(x, y)) == Xor(Zeros(n, x), Zeros(n, y))
  {
    hide Shift8, Xor;
    if n > 0 {
      ShiftLinear(x, y);
      ZerosLinear(n - 1, Shift8(x), Shift8(y));
    }
  }

  lemma {:induction false} ZerosAdd(m: nat, n: nat, x: Word)
    ensures Zeros(m, Zeros(n, x)) == Zeros(m + n, x)
    decreases n
  {
    hide Shift8;
    if n > 0 {
      ZerosAdd(m, n - 1, Shift8(x));
    }
  }

  // ---- The tables ----

  // A byte advanced through one zero byte.
  function ByteTable(c: bv8): Word {
    Shift8(Wide(c))
  }

  // A byte of a lane advanced through sixteen zero bytes; lane byte 0 is the least significant.
  function Placed(c: bv8, lane: nat): Word
    requires lane < 4
  {
    if lane == 0 then Wide(c)
    else if lane == 1 then Wide(c) << 8
    else if lane == 2 then Wide(c) << 16
    else Wide(c) << 24
  }

  function StrideTable(c: bv8, lane: nat): Word
    requires lane < 4
  {
    Zeros(16, Placed(c, lane))
  }

  function Low(x: Word): bv8 {
    (x & 0xff) as bv8
  }

  function Down8(x: Word): Word {
    x >> 8
  }

  function Up8(x: Word): Word {
    x << 8
  }

  lemma LowPart(x: Word)
    ensures Xor(Wide(Low(x)), Up8(Down8(x))) == x && Fits(Down8(x))
  {
  }

  // At most three bytes.
  predicate Fits(x: Word) {
    x < 0x1000000
  }

  function Twice(x: Word): Word {
    x << 1
  }

  predicate Room(x: Word) {
    x < 0x80000000
  }

  lemma TwiceThenBit(x: Word)
    requires Room(x)
    ensures Bit(Twice(x)) == x
  {
  }

  lemma EightTimes(x: Word)
    requires Fits(x)
    ensures Room(x) && Room(Twice(x)) && Room(Twice(Twice(x))) && Room(Twice(Twice(Twice(x))))
    ensures var y := Twice(Twice(Twice(Twice(x))));
      Room(y) && Room(Twice(y)) && Room(Twice(Twice(y))) && Room(Twice(Twice(Twice(y))))
      && Up8(x) == Twice(Twice(Twice(Twice(y))))
  {
  }

  // A byte of zeros shifted in below comes out again.
  lemma UpThenShift(x: Word)
    requires Fits(x)
    ensures Shift8(Up8(x)) == x
  {
    hide Bit, Twice, Room, Fits, Up8;
    EightTimes(x);
    var y := x;
    TwiceThenBit(y);
    y := Twice(y);
    TwiceThenBit(y);
    y := Twice(y);
    TwiceThenBit(y);
    y := Twice(y);
    TwiceThenBit(y);
    y := Twice(y);
    TwiceThenBit(y);
    y := Twice(y);
    TwiceThenBit(y);
    y := Twice(y);
    TwiceThenBit(y);
    y := Twice(y);
    TwiceThenBit(y);
  }

  // The table step is the bitwise step.
  lemma ByteStep(l: Word)
    ensures Xor(ByteTable(Low(l)), Down8(l)) == Shift8(l)
  {
    hide Shift8, Xor, Wide, Low, Down8, Up8, Fits;
    LowPart(l);
    ShiftLinear(Wide(Low(l)), Up8(Down8(l)));
    UpThenShift(Down8(l));
  }

  lemma FourBytes(x: Word)
    ensures x == Xor(Xor(Xor(Placed(Low(x), 0), Placed(Low(Down8(x)), 1)), Placed(Low(Down8(Down8(x))), 2)),
                     Placed(Low(Down8(Down8(Down8(x)))), 3))
  {
  }

  // The four stride tables together advance a word through sixteen zero bytes.
  function Stride(x: Word): Word {
    Xor(Xor(Xor(StrideTable(Low(x), 0), StrideTable(Low(Down8(x)), 1)), StrideTable(Low(Down8(Down8(x))), 2)),
        StrideTable(Low(Down8(Down8(Down8(x)))), 3))
  }

  lemma StrideIs(x: Word)
    ensures Stride(x) == Zeros(16, x)
  {
    hide Xor, Zeros, Low, Down8, Placed;
    var a, b := Placed(Low(x), 0), Placed(Low(Down8(x)), 1);
    var c, d := Placed(Low(Down8(Down8(x))), 2), Placed(Low(Down8(Down8(Down8(x)))), 3);
    FourBytes(x);
    ZerosLinear(16, a, b);
    ZerosLinear(16, Xor(a, b), c);
    ZerosLinear(16, Xor(Xor(a, b), c), d);
  }

  // ---- Words ----

  // The little-endian word of up to four bytes.
  function Le(bs: seq<bv8>): Word {
    if bs == [] then 0 else Xor(Wide(bs[0]), Up8(Le(bs[1..])))
  }

  lemma UpFits(b: bv8, x: Word)
    ensures x < 0x100 ==> Xor(Wide(b), Up8(x)) < 0x10000
    ensures x < 0x10000 ==> Xor(Wide(b), Up8(x)) < 0x1000000
    ensures x == 0 ==> Xor(Wide(b), Up8(x)) < 0x100
  {
  }

  lemma LeFits(bs: seq<bv8>)
    requires |bs| <= 3
    ensures Fits(Le(bs)) && (|bs| <= 2 ==> Le(bs) < 0x10000) && (|bs| <= 1 ==> Le(bs) < 0x100)
  {
    hide Xor, Up8, Wide;
    if bs != [] {
      LeFits(bs[1..]);
      UpFits(bs[0], Le(bs[1..]));
    }
  }

  // Folding in up to four bytes is xor with the word, then as many zero bytes.
  lemma {:induction false} WordFold(l: Word, bs: seq<bv8>)
    requires |bs| <= 4
    ensures Fold(l, bs) == Zeros(|bs|, Xor(l, Le(bs)))
    decreases |bs|
  {
    hide Shift8, Xor, Up8, Wide, Fits;
    if bs == [] {
      XorZero(l);
    } else {
      var b, rest := Wide(bs[0]), Le(bs[1..]);
      LeFits(bs[1..]);
      XorAssoc(l, b, Up8(rest));
      ShiftLinear(Xor(l, b), Up8(rest));
      UpThenShift(rest);
      WordFold(Shift8(Xor(l, b)), bs[1..]);
    }
  }

  lemma XorZero(l: Word)
    ensures Xor(l, 0) == l && Xor(0, l) == l
  {
  }

  // DecodeFixed32 at position p.
  function ReadWord(data: seq<bv8>, p: nat): Word
    requires p + 4 <= |data|
  {
    (data[p] as Word) | ((data[p + 1] as Word) << 8) | ((data[p + 2] as Word) << 16) | ((data[p + 3] as Word) << 24)
  }

  lemma JoinIs(a: bv8, b: bv8, c: bv8, d: bv8)
    ensures (a as Word) | ((b as Word) << 8) | ((c as Word) << 16) | ((d as Word) << 24)
         == Xor(Wide(a), Up8(Xor(Wide(b), Up8(Xor(Wide(c), Up8(Xor(Wide(d), Up8(0))))))))
  {
  }

  lemma ReadWordIs(data: seq<bv8>, p: nat)
    requires p + 4 <= |data|
    ensures ReadWord(data, p) == Le(data[p..p + 4])
  {
    hide Xor, Up8, Wide;
    var bs := data[p..p + 4];
    JoinIs(bs[0], bs[1], bs[2], bs[3]);
    assert Le(bs[4..]) == 0;
    assert bs[3..][1..] == bs[4..] && bs[2..][1..] == bs[3..] && bs[1..][1..] == bs[2..];
    assert Le(bs[3..]) == Xor(Wide(bs[3]), Up8(Le(bs[4..])));
    assert Le(bs[2..]) == Xor(Wide(bs[2]), Up8(Le(bs[3..])));
    assert Le(bs[1..]) == Xor(Wide(bs[1]), Up8(Le(bs[2..])));
  }

  // ---- The fast form ----

  // Recombining the four lanes, oldest first.
  function Lanes(c0: Word, c1: Word, c2: Word, c3: Word): Word {
    Zeros(4, Xor(Zeros(4, Xor(Zeros(4, Xor(Zeros(4, c0), c1)), c2)), c3))
  }

  // Each lane counts with the zero bytes still to come after it.
  lemma LanesSum(c0: Word, c1: Word, c2: Word, c3: Word)
    ensures Lanes(c0, c1, c2, c3) == Xor(Xor(Xor(Zeros(16, c0), Zeros(12, c1)), Zeros(8, c2)), Zeros(4, c3))
  {
    hide Xor, Zeros;
    ZerosLinear(4, Zeros(4, c0), c1);
    ZerosAdd(4, 4, c0);
    ZerosLinear(4, Xor(Zeros(8, c0), Zeros(4, c1)), c2);
    ZerosLinear(4, Zeros(8, c0), Zeros(4, c1));
    ZerosAdd(4, 8, c0);
    ZerosAdd(4, 4, c1);
    ZerosLinear(4, Xor(Xor(Zeros(12, c0), Zeros(8, c1)), Zeros(4, c2)), c3);
    ZerosLinear(4, Xor(Zeros(12, c0), Zeros(8, c1)), Zeros(4, c2));
    ZerosLinear(4, Zeros(12, c0), Zeros(8, c1));
    ZerosAdd(4, 12, c0);
    ZerosAdd(4, 8, c1);
    ZerosAdd(4, 4, c2);
  }

  // A word into the oldest lane, which then becomes the youngest.
  lemma LanesRotate(c0: Word, c1: Word, c2: Word, c3: Word, w: Word)
    ensures Lanes(c1, c2, c3, Xor(w, Zeros(16, c0))) == Zeros(4, Xor(Lanes(c0, c1, c2, c3), w))
  {
    hide Xor, Zeros, Lanes;
    var fed := Zeros(16, c0);
    LanesSum(c0, c1, c2, c3);
    LanesSum(c1, c2, c3, Xor(w, fed));
    ZerosLinear(4, w, fed);
    ZerosLinear(4, Xor(Xor(Xor(fed, Zeros(12, c1)), Zeros(8, c2)), Zeros(4, c3)), w);
    ZerosLinear(4, Xor(Xor(fed, Zeros(12, c1)), Zeros(8, c2)), Zeros(4, c3));
    ZerosLinear(4, Xor(fed, Zeros(12, c1)), Zeros(8, c2));
    ZerosLinear(4, fed, Zeros(12, c1));
    ZerosAdd(4, 12, c1);
    ZerosAdd(4, 8, c2);
    ZerosAdd(4, 4, c3);
    Reorder(Zeros(4, fed), Zeros(16, c1), Zeros(12, c2), Zeros(8, c3), Zeros(4, w));
  }

  lemma Reorder(f: Word, a: Word, b: Word, c: Word, w: Word)
    ensures Xor(Xor(Xor(a, b), c), Xor(w, f)) == Xor(Xor(Xor(Xor(f, a), b), c), w)
  {
    hide Xor;
    var abc := Xor(Xor(a, b), c);
    XorAssoc(f, a, b);
    XorAssoc(f, Xor(a, b), c);
    XorAssoc(w, f, 0);
    XorAssoc(abc, f, w);
  }

  // STEP4: the lane that was s is refilled with the word w.
  lemma FoldWord(l: Word, data: seq<bv8>, p: nat)
    requires p + 4 <= |data|
    ensures Fold(l, data[p..p + 4]) == Zeros(4, Xor(l, ReadWord(data, p)))
  {
    hide Fold, Zeros, Xor, Le, ReadWord;
    ReadWordIs(data, p);
    WordFold(l, data[p..p + 4]);
  }

  // What is folded in up to p, and then the word there.
  lemma FoldNext(l: Word, data: seq<bv8>, p: nat)
    requires p + 4 <= |data|
    ensures Fold(l, data[..p + 4]) == Zeros(4, Xor(Fold(l, data[..p]), ReadWord(data, p)))
  {
    hide Fold, Zeros, Xor, ReadWord;
    assert data[..p + 4] == data[..p] + data[p..p + 4];
    FoldConcat(l, data[..p], data[p..p + 4]);
    FoldWord(Fold(l, data[..p]), data, p);
  }

  lemma FoldByte(l: Word, data: seq<bv8>, p: nat)
    requires p < |data|
    ensures Fold(l, data[..p + 1]) == Shift8(Xor(Fold(l, data[..p]), Wide(data[p])))
  {
    hide Shift8, Xor, Wide;
    assert data[..p + 1] == data[..p] + [data[p]];
    FoldConcat(l, data[..p], [data[p]]);
    assert [data[p]][1..] == [];
  }

  // STEP1
  method Step1(l: Word, b: bv8) returns (r: Word)
    ensures r == Shift8(Xor(l, Wide(b)))
  {
    hide Shift8, Xor, Wide, Down8, Low, ByteTable;
    ByteStep(Xor(l, Wide(b)));
    StepIndex(l, b);
    r := Xor(ByteTable(((l & 0xff) ^ Wide(b)) as bv8), Down8(l));
  }

  // The source xors the byte into the index only; the shifted part is unaffected.
  lemma StepIndex(l: Word, b: bv8)
    ensures (l & 0xff) ^ Wide(b) < 0x100 && ((l & 0xff) ^ Wide(b)) as bv8 == Low(Xor(l, Wide(b)))
    ensures Down8(Xor(l, Wide(b))) == Down8(l)
  {
  }

  // STEP4W
  method Step4W(l: Word, w: Word) returns (r: Word)
    ensures r == Zeros(4, Xor(l, w))
  {
    hide Shift8, Xor, Low, Down8, ByteTable;
    r := Xor(w, l);
    XorAssoc(w, l, 0);
    for i := 0 to 4
      invariant Zeros(4 - i, r) == Zeros(4, Xor(l, w))
    {
      ByteStep(r);
      XorAssoc(ByteTable(Low(r)), Down8(r), 0);
      r := Xor(Down8(r), ByteTable(Low(r)));
    }
  }

  // Sixteen bytes at once: each lane is refilled in place.
  method Step16(ghost crc: Word, data: seq<bv8>, p: nat, c0: Word, c1: Word, c2: Word, c3: Word)
    returns (d0: Word, d1: Word, d2: Word, d3: Word)
    requires p + 16 <= |data| && Fold(crc, data[..p]) == Lanes(c0, c1, c2, c3)
    ensures Fold(crc, data[..p + 16]) == Lanes(d0, d1, d2, d3)
  {
    hide Fold, Lanes, Xor, Zeros, Stride, ReadWord;
    d0 := Step4(crc, data, p, c0, c1, c2, c3);
    d1 := Step4(crc, data, p + 4, c1, c2, c3, d0);
    d2 := Step4(crc, data, p + 8, c2, c3, d0, d1);
    d3 := Step4(crc, data, p + 12, c3, d0, d1, d2);
  }

  // STEP4 on the oldest lane c0.
  method Step4(ghost crc: Word, data: seq<bv8>, p: nat, c0: Word, ghost c1: Word, ghost c2: Word, ghost c3: Word)
    returns (d: Word)
    requires p + 4 <= |data| && Fold(crc, data[..p]) == Lanes(c0, c1, c2, c3)
    ensures Fold(crc, data[..p + 4]) == Lanes(c1, c2, c3, d)
  {
    hide Fold, Lanes, Xor, Zeros, Stride, ReadWord;
    d := Xor(ReadWord(data, p), Stride(c0));
    StrideIs(c0);
    LanesRotate(c0, c1, c2, c3, ReadWord(data, p));
    FoldNext(crc, data, p);
  }

  // Extend, for a buffer whose address is misalign modulo 4.
  method Extend(crc: Word, data: seq<bv8>, misalign: nat) returns (r: Word)
    requires misalign < 4
    ensures r == Simple(crc, data)
  {
    hide Fold, Lanes, Xor, Shift8, Zeros, ReadWord, Wide;
    var l := Xor(crc, CRC_XOR);
    ghost var start := l;
    var p, e := 0, |data|;
    FoldNone(start, data);
    var x := (4 - misalign) % 4;
    if x <= e {
      while p != x
        invariant 0 <= p <= x && l == Fold(start, data[..p])
      {
        FoldByte(start, data, p);
        l := Step1(l, data[p]);
        p := p + 1;
      }
    }
    if e - p >= 16 {
      l, p := Strides(start, l, data, p);
    }
    while p != e
      invariant 0 <= p <= e && l == Fold(start, data[..p])
    {
      FoldByte(start, data, p);
      l := Step1(l, data[p]);
      p := p + 1;
    }
    assert data[..e] == data;
    r := Xor(l, CRC_XOR);
  }

  lemma FoldNone(l: Word, data: seq<bv8>)
    ensures Fold(l, data[..0]) == l
  {
  }

  // The part of Extend that runs over whole words.
  method Strides(ghost start: Word, l0: Word, data: seq<bv8>, p0: nat) returns (l: Word, p: nat)
    requires p0 + 16 <= |data| && l0 == Fold(start, data[..p0])
    ensures p0 <= p <= |data| && l == Fold(start, data[..p])
  {
    hide Fold, Xor, Zeros, ReadWord, Stride;
    p := p0;
    var c0, c1 := Xor(ReadWord(data, p), l0), ReadWord(data, p + 4);
    var c2, c3 := ReadWord(data, p + 8), ReadWord(data, p + 12);
    XorAssoc(c1, l0, 0);
    XorAssoc(ReadWord(data, p), l0, 0);
    FoldNext(start, data, p);
    FoldNext(start, data, p + 4);
    FoldNext(start, data, p + 8);
    FoldNext(start, data, p + 12);
    p := p + 16;
    while |data| - p >= 16
      invariant p <= |data| && Fold(start, data[..p]) == Lanes(c0, c1, c2, c3) && p0 <= p
    {
      c0, c1, c2, c3 := Step16(start, data, p, c0, c1, c2, c3);
      p := p + 16;
    }
    while |data| - p >= 4
      invariant p <= |data| && Fold(start, data[..p]) == Lanes(c0, c1, c2, c3) && p0 <= p
    {
      c0 := Step4(start, data, p, c0, c1, c2, c3);
      c0, c1, c2, c3 := c1, c2, c3, c0;
      p := p + 4;
    }
    XorZero(c0);
    l := Step4W(0, c0);
    l := Step4W(l, c1);
    l := Step4W(l, c2);
    l := Step4W(l, c3);
  }

  // ---- Masking a stored checksum ----

  function RotateRight15(x: Word): Word {
    (x >> 15) | (x << 17)
  }

  function RotateLeft15(x: Word): Word {
    (x >> 17) | (x << 15)
  }

  function Mask(crc: Word): Word {
    RotateRight15(crc) + MASK_DELTA
  }

  function Unmask(masked: Word): Word {
    RotateLeft15(masked - MASK_DELTA)
  }

  lemma Rotated(x: Word)
    ensures RotateLeft15(RotateRight15(x)) == x
  {
  }

  lemma AddThenSubtract(x: Word, d: Word)
    ensures x + d - d == x
  {
  }

  lemma MaskRoundTrip(crc: Word)
    ensures Unmask(Mask(crc)) == crc
  {
    hide RotateRight15, RotateLeft15;
    Rotated(crc);
    AddThenSubtract(RotateRight15(crc), MASK_DELTA);
  }
}
