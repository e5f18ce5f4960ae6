// IPv4 and IPv6 addresses as text (src/inet.c; section 2.2 of RFC 4291).

module InetText {
  import opened DbFormat
  import opened Coding

  // ---- Digits ----

  function HexDigit(d: nat): char
    requires d < 16
  {
    "0123456789abcdef"[d]
  }

  // Lower case first, then upper case.
  function DigitValue(c: char): (r: Option<nat>)
    ensures r.Some? ==> r.value < 16
  {
    if '0' <= c <= '9' then Some(c as nat - '0' as nat)
    else if 'a' <= c <= 'f' then Some(c as nat - 'a' as nat + 10)
    else if 'A' <= c <= 'F' then Some(c as nat - 'A' as nat + 10)
    else None
  }

  // "%x" and "%u".
  function Hex(w: nat): (r: string)
    ensures r != []
  {
    if w < 16 then [HexDigit(w)] else Hex(w / 16) + [HexDigit(w % 16)]
  }

  function Dec(n: nat): (r: string)
    ensures r != []
  {
    if n < 10 then [HexDigit(n)] else Dec(n / 10) + [HexDigit(n % 10)]
  }

  lemma DigitBack(d: nat)
    requires d < 16
    ensures DigitValue(HexDigit(d)) == Some(d)
    ensures d < 10 ==> '0' <= HexDigit(d) <= '9' && HexDigit(d) as nat - '0' as nat == d
  {
    assert d == 0 || d == 1 || d == 2 || d == 3 || d == 4 || d == 5 || d == 6 || d == 7
           || d == 8 || d == 9 || d == 10 || d == 11 || d == 12 || d == 13 || d == 14 || d == 15;
  }

  lemma HexLength(w: nat)
    requires w < 0x1_0000
    ensures |Hex(w)| <= 4 && (w < 0x1000 ==> |Hex(w)| <= 3)
  {
    assert w >= 16 ==> Hex(w) == Hex(w / 16) + [HexDigit(w % 16)];
    assert w >= 256 ==> Hex(w / 16) == Hex(w / 16 / 16) + [HexDigit(w / 16 % 16)];
    assert w >= 4096 ==> Hex(w / 16 / 16) == Hex(w / 16 / 16 / 16) + [HexDigit(w / 16 / 16 % 16)];
  }

  lemma DecLength(n: nat)
    requires n < 1000
    ensures |Dec(n)| <= 3
  {
    assert n >= 10 ==> Dec(n) == Dec(n / 10) + [HexDigit(n % 10)];
    assert n >= 100 ==> Dec(n / 10) == Dec(n / 10 / 10) + [HexDigit(n / 10 % 10)];
  }

  // ---- IPv4 ----

  function Quad(a: byte, b: byte, c: byte, d: byte): string {
    Dec(a) + "." + Dec(b) + "." + Dec(c) + "." + Dec(d)
  }

  // inet_pton4 from a position on: the octets before the current one, the current one, whether
  // it has a digit, and how many octets have begun.
  function Run4(s: string, done: Bytes, octet: byte, saw: bool, octets: nat): Option<Bytes> {
    if s == [] then if octets < 4 then None else Some(done + [octet])
    else if '0' <= s[0] <= '9' then
      var nw := octet * 10 + (s[0] as nat - '0' as nat);
      if (saw && octet == 0) || nw > 255 then None
      else if saw then Run4(s[1..], done, nw, true, octets)
      else if octets + 1 > 4 then None
      else Run4(s[1..], done, nw, true, octets + 1)
    else if s[0] == '.' && saw then
      if octets == 4 then None else Run4(s[1..], done + [octet], 0, false, octets)
    else None
  }

  lemma {:induction false} DecRuns(n: nat, rest: string, done: Bytes, octets: nat)
    requires n < 256 && octets < 4
    ensures Run4(Dec(n) + rest, done, 0, false, octets) == Run4(rest, done, n, true, octets + 1)
    decreases n
  {
    var s := Dec(n) + rest;
    if n < 10 {
      DigitBack(n);
      assert s[0] == HexDigit(n) && s[1..] == rest;
    } else {
      var tail := [HexDigit(n % 10)] + rest;
      assert s == Dec(n / 10) + tail;
      DecRuns(n / 10, tail, done, octets);
      DigitBack(n % 10);
      assert tail[1..] == rest;
    }
  }

  lemma DotRuns(rest: string, done: Bytes, octet: byte, octets: nat)
    requires octets < 4
    ensures Run4("." + rest, done, octet, true, octets) == Run4(rest, done + [octet], 0, false, octets)
  {
    assert ("." + rest)[1..] == rest;
  }

  lemma QuadReads(a: byte, b: byte, c: byte, d: byte)
    ensures Run4(Quad(a, b, c, d), [], 0, false, 0) == Some([a, b, c, d])
  {
    hide Run4, Dec;
    var s3 := Dec(d);
    var s2 := Dec(c) + ("." + s3);
    var s1 := Dec(b) + ("." + s2);
    assert Quad(a, b, c, d) == Dec(a) + ("." + s1);
    DecRuns(a, "." + s1, [], 0);
    DotRuns(s1, [], a, 1);
    DecRuns(b, "." + s2, [a], 1);
    DotRuns(s2, [a], b, 2);
    DecRuns(c, "." + s3, [a, b], 2);
    DotRuns(s3, [a, b], c, 3);
    assert Dec(d) + [] == s3;
    assert [] + [a] == [a] && [a] + [b] == [a, b] && [a, b] + [c] == [a, b, c] && [a, b, c] + [d] == [a, b, c, d];
    DecRuns(d, [], [a, b, c], 3);
    EndRuns([a, b, c], d);
  }

  lemma EndRuns(done: Bytes, octet: byte)
    ensures Run4([], done, octet, true, 4) == Some(done + [octet])
  {
  }

  // ---- IPv6 to text ----

  type Words = ws: seq<nat> | |ws| == 8 && forall i :: 0 <= i < 8 ==> ws[i] < 0x1_0000 witness [0, 0, 0, 0, 0, 0, 0, 0]

  function Pair(w: nat): (r: Bytes)
    requires w < 0x1_0000
    ensures |r| == 2
  {
    [w / 256, w % 256]
  }

  // A run of zero words to write as "::", or base -1.
  datatype Zeros = Zeros(base: int, len: nat)

  predicate Inside(z: Zeros, i: nat) {
    z.base != -1 && z.base <= i < z.base + z.len
  }

  // Is this an encapsulated IPv4 address?
  predicate Embedded(ws: Words, z: Zeros) {
    z.base == 0 && (z.len == 6 || (z.len == 7 && ws[7] != 1) || (z.len == 5 && ws[5] == 0xffff))
  }

  // What the output loop writes from word i on.
  function Format(ws: Words, z: Zeros, i: nat): string
    requires i <= 8
    decreases 8 - i
  {
    if i == 8 then if z.base != -1 && z.base + z.len == 8 then ":" else ""
    else if Inside(z, i) then (if i == z.base then ":" else "") + Format(ws, z, i + 1)
    else
      (if i != 0 then ":" else "")
      + if i == 6 && Embedded(ws, z) then Quad(ws[6] / 256, ws[6] % 256, ws[7] / 256, ws[7] % 256)
        else Hex(ws[i]) + Format(ws, z, i + 1)
  }

  ghost predicate IsRun(ws: Words, b: int, len: nat) {
    0 <= b && b + len <= 8 && forall i :: b <= i < b + len ==> ws[i] == 0
  }

  // The longest run of at least two zero words, the first of them if there are several.
  ghost predicate IsBest(ws: Words, z: Zeros) {
    if z.base == -1 then forall b: int, len: nat :: IsRun(ws, b, len) ==> len < 2
    else
      z.len >= 2 && IsRun(ws, z.base, z.len)
      && forall b: int, len: nat :: IsRun(ws, b, len) ==> len < z.len || (len == z.len && z.base <= b)
  }

  // ---- IPv6 from text ----

  // inet_pton6 from a position on: the text since the last colon, the bytes stored, where a "::"
  // was, and the word being read.
  function Run6(s: string, cur: string, out: Bytes, colon: Option<nat>, val: nat, seen: nat): Option<Bytes>
    requires colon.Some? ==> colon.value <= |out|
    decreases |s|
  {
    if s == [] then
      if seen > 0 then if |out| + 2 > 16 then None else Finish(out + [val / 256 % 256, val % 256], colon)
      else Finish(out, colon)
    else
      var d := DigitValue(s[0]);
      if d.Some? then
        if seen + 1 > 4 then None else Run6(s[1..], cur, out, colon, val * 16 + d.value, seen + 1)
      else if s[0] == ':' then
        if seen == 0 then
          if colon.Some? then None else Run6(s[1..], s[1..], out, Some(|out|), val, 0)
        else if s[1..] == [] || |out| + 2 > 16 then None
        else Run6(s[1..], s[1..], out + [val / 256 % 256, val % 256], colon, 0, 0)
      else if s[0] == '.' && |out| + 4 <= 16 then
        var quad := Run4(cur, [], 0, false, 0);
        if quad.None? then None else Finish(out + quad.value, colon)
      else None
  }

  // The bytes after a "::" move to the end.
  function Finish(out: Bytes, colon: Option<nat>): Option<Bytes>
    requires colon.Some? ==> colon.value <= |out|
  {
    if |out| > 16 then None
    else if colon.Some? then
      if |out| == 16 then None else Some(out[..colon.value] + seq(16 - |out|, i => 0) + out[colon.value..])
    else if |out| == 16 then Some(out)
    else None
  }

  function Parse6(s: string): Option<Bytes> {
    if s != [] && s[0] == ':' then
      if |s| < 2 || s[1] != ':' then None else Run6(s[1..], s[1..], [], None, 0, 0)
    else Run6(s, s, [], None, 0, 0)
  }

  // ---- Round trip ----

  lemma DigitStep(d: nat, rest: string, cur: string, out: Bytes, colon: Option<nat>, val: nat, seen: nat)
    requires d < 16 && seen < 4 && (colon.Some? ==> colon.value <= |out|)
    ensures Run6([HexDigit(d)] + rest, cur, out, colon, val, seen) ==
      Run6(rest, cur, out, colon, val * 16 + d, seen + 1)
  {
    DigitBack(d);
    assert ([HexDigit(d)] + rest)[1..] == rest;
  }

  // A word's digits are read into val.
  lemma {:induction false} HexRuns(w: nat, rest: string, cur: string, out: Bytes, colon: Option<nat>)
    requires w < 0x1_0000 && (colon.Some? ==> colon.value <= |out|)
    ensures |Hex(w)| <= 4 && Run6(Hex(w) + rest, cur, out, colon, 0, 0) == Run6(rest, cur, out, colon, w, |Hex(w)|)
    decreases w
  {
    hide Run6;
    HexLength(w);
    if w < 16 {
      DigitStep(w, rest, cur, out, colon, 0, 0);
    } else {
      var tail := [HexDigit(w % 16)] + rest;
      assert Hex(w) + rest == Hex(w / 16) + tail;
      HexRuns(w / 16, tail, cur, out, colon);
      DigitStep(w % 16, rest, cur, out, colon, w / 16, |Hex(w / 16)|);
    }
  }

  // Words with a colon before each, and between each two.
  function Tail(ws: seq<nat>): string {
    if ws == [] then "" else ":" + Hex(ws[0]) + Tail(ws[1..])
  }

  function Joined(ws: seq<nat>): string {
    if ws == [] then "" else Hex(ws[0]) + Tail(ws[1..])
  }

  predicate Short(ws: seq<nat>) {
    forall i :: 0 <= i < |ws| ==> ws[i] < 0x1_0000
  }

  function Pairs(ws: seq<nat>): (r: Bytes)
    requires Short(ws)
    ensures |r| == 2 * |ws|
  {
    if ws == [] then [] else Pair(ws[0]) + Pairs(ws[1..])
  }

  lemma {:induction false} PairsSplit(a: seq<nat>, b: seq<nat>)
    requires Short(a) && Short(b)
    ensures Short(a + b) && Pairs(a + b) == Pairs(a) + Pairs(b)
  {
    if a == [] {
      assert a + b == b;
    } else {
      assert (a + b)[1..] == a[1..] + b;
      PairsSplit(a[1..], b);
    }
  }

  lemma {:induction false} PairsZero(ws: seq<nat>)
    requires forall i :: 0 <= i < |ws| ==> ws[i] == 0
    ensures Pairs(ws) == seq(2 * |ws|, i => 0)
  {
    if ws != [] {
      PairsZero(ws[1..]);
    }
  }

  lemma ColonAfterWord(rest: string, cur: string, out: Bytes, colon: Option<nat>, w: nat, seen: nat)
    requires w < 0x1_0000 && seen > 0 && rest != [] && |out| + 2 <= 16 && (colon.Some? ==> colon.value <= |out|)
    ensures Run6(":" + rest, cur, out, colon, w, seen) == Run6(rest, rest, out + Pair(w), colon, 0, 0)
  {
    assert (":" + rest)[1..] == rest;
  }

  lemma SecondColon(rest: string, cur: string, out: Bytes)
    ensures Run6(":" + rest, cur, out, None, 0, 0) == Run6(rest, rest, out, Some(|out|), 0, 0)
  {
    assert (":" + rest)[1..] == rest;
  }

  lemma EndOfText(cur: string, out: Bytes, colon: Option<nat>, w: nat, seen: nat)
    requires w < 0x1_0000 && seen > 0 && |out| + 2 <= 16 && (colon.Some? ==> colon.value <= |out|)
    ensures Run6("", cur, out, colon, w, seen) == Finish(out + Pair(w), colon)
  {
  }

  lemma Assoc<T>(a: seq<T>, b: seq<T>, c: seq<T>)
    ensures a + b + c == a + (b + c)
  {
  }

  lemma JoinedIs(ws: seq<nat>, rest: string)
    requires ws != []
    ensures Joined(ws) == Hex(ws[0]) + Tail(ws[1..]) && Joined(ws) + rest == Hex(ws[0]) + (Tail(ws[1..]) + rest)
    ensures Tail(ws) == ":" + Joined(ws) && Tail(ws) + rest == ":" + (Joined(ws) + rest)
  {
    hide Hex;
    Assoc(Hex(ws[0]), Tail(ws[1..]), rest);
    Assoc(":", Hex(ws[0]), Tail(ws[1..]));
    Assoc(":", Joined(ws), rest);
  }

  // Pairs over the first and over the last word.
  lemma PairsFirst(ws: seq<nat>)
    requires Short(ws) && |ws| > 1
    ensures var n := |ws| - 1;
      Short(ws[..n]) && Short(ws[1..][..n - 1]) && Pairs(ws[..n]) == Pair(ws[0]) + Pairs(ws[1..][..n - 1])
  {
    hide Pair;
    assert ws[..|ws| - 1][1..] == ws[1..][..|ws| - 2];
  }

  // Words with colons between them: all but the last are stored.
  lemma {:induction false} WordsRun(ws: seq<nat>, rest: string, cur: string, out: Bytes, colon: Option<nat>)
    returns (c: string, seen: nat)
    requires ws != [] && Short(ws) && |out| + 2 * |ws| <= 16 && (colon.Some? ==> colon.value <= |out|)
    ensures 0 < seen <= 4 && Short(ws[..|ws| - 1])
    ensures Run6(Joined(ws) + rest, cur, out, colon, 0, 0)
            == Run6(rest, c, out + Pairs(ws[..|ws| - 1]), colon, ws[|ws| - 1], seen)
    decreases |ws|
  {
    hide Run6, Hex, Joined, Tail, Pairs, Pair;
    var more := ws[1..];
    JoinedIs(ws, rest);
    HexRuns(ws[0], Tail(more) + rest, cur, out, colon);
    if more == [] {
      NoTail(rest);
      NoPairs();
      assert ws[..0] == [] && out + [] == out;
      c, seen := cur, |Hex(ws[0])|;
    } else {
      var next := Joined(more) + rest;
      JoinedIs(more, rest);
      JoinedSome(more);
      ColonAfterWord(next, cur, out, colon, ws[0], |Hex(ws[0])|);
      c, seen := WordsRun(more, rest, next, out + Pair(ws[0]), colon);
      PairsFirst(ws);
      Assoc(out, Pair(ws[0]), Pairs(more[..|more| - 1]));
    }
  }

  lemma NoTail(rest: string)
    ensures Tail([]) + rest == rest
  {
  }

  lemma JoinedSome(ws: seq<nat>)
    requires ws != []
    ensures Joined(ws) != []
  {
  }

  lemma NoPairs()
    ensures Pairs([]) == []
  {
  }

  // Up to the end of the text every word is stored.
  lemma WordsEnd(ws: seq<nat>, cur: string, out: Bytes, colon: Option<nat>)
    requires Short(ws) && |out| + 2 * |ws| <= 16 && (colon.Some? ==> colon.value <= |out|)
    ensures Run6(Joined(ws), cur, out, colon, 0, 0) == Finish(out + Pairs(ws), colon)
  {
    if ws == [] {
      assert out + Pairs(ws) == out;
    } else {
      hide Run6, Joined, Pair, Pairs;
      var n := |ws| - 1;
      var c, seen := WordsRun(ws, "", cur, out, colon);
      assert Joined(ws) + "" == Joined(ws);
      EndOfText(c, out + Pairs(ws[..n]), colon, ws[n], seen);
      LastPair(ws);
      assert out + Pairs(ws[..n]) + Pair(ws[n]) == out + Pairs(ws);
    }
  }

  // ---- What the output looks like ----

  ghost predicate ZerosOk(ws: Words, z: Zeros) {
    z.base == -1 || (z.len >= 2 && IsRun(ws, z.base, z.len))
  }

  lemma {:induction false} FormatTail(ws: Words, z: Zeros, i: nat)
    requires 0 < i <= 8 && ZerosOk(ws, z) && (z.base == -1 || z.base + z.len <= i) && (!Embedded(ws, z) || i > 6)
    ensures Format(ws, z, i) == Tail(ws[i..]) + if z.base != -1 && z.base + z.len == 8 then ":" else ""
    decreases 8 - i
  {
    hide Hex;
    if i < 8 {
      FormatTail(ws, z, i + 1);
      assert ws[i..][1..] == ws[i + 1..];
    }
  }

  lemma {:induction false} FormatInside(ws: Words, z: Zeros, i: nat)
    requires ZerosOk(ws, z) && z.base != -1 && z.base < i <= z.base + z.len
    ensures Format(ws, z, i) == Format(ws, z, z.base + z.len)
    decreases 8 - i
  {
    hide Hex;
    if i < z.base + z.len {
      FormatInside(ws, z, i + 1);
    }
  }

  lemma {:induction false} FormatFront(ws: Words, z: Zeros, i: nat)
    requires ZerosOk(ws, z) && 0 < i <= z.base
    ensures Format(ws, z, i) == Tail(ws[i..z.base]) + Format(ws, z, z.base)
    decreases 8 - i
  {
    hide Hex;
    if i < z.base {
      FormatFront(ws, z, i + 1);
      assert ws[i..z.base][1..] == ws[i + 1..z.base];
    }
  }

  lemma FormatFirst(ws: Words, z: Zeros)
    requires !Inside(z, 0)
    ensures Format(ws, z, 0) == Hex(ws[0]) + Format(ws, z, 1)
  {
    hide Hex;
    assert "" + (Hex(ws[0]) + Format(ws, z, 1)) == Hex(ws[0]) + Format(ws, z, 1);
  }

  lemma FormatGap(ws: Words, z: Zeros)
    requires ZerosOk(ws, z) && z.base != -1
    ensures Format(ws, z, z.base) == ":" + Format(ws, z, z.base + z.len)
  {
    FormatInside(ws, z, z.base + 1);
  }

  lemma FormatBack(ws: Words, z: Zeros)
    requires ZerosOk(ws, z) && z.base != -1 && (Embedded(ws, z) ==> z.len == 7)
    ensures Format(ws, z, z.base + z.len) == ":" + Joined(ws[z.base + z.len..])
  {
    hide Format, Hex;
    FormatTail(ws, z, z.base + z.len);
  }

  // The words around the run, with "::" in its place.
  lemma FormatRun(ws: Words, z: Zeros)
    requires ZerosOk(ws, z) && z.base != -1 && (Embedded(ws, z) ==> z.len == 7)
    ensures Format(ws, z, 0) == Joined(ws[..z.base]) + ("::" + Joined(ws[z.base + z.len..]))
  {
    var b, e := z.base, z.base + z.len;
    hide Format, Embedded, Hex, Joined, Tail;
    FormatGap(ws, z);
    FormatBack(ws, z);
    Assoc(":", ":", Joined(ws[e..]));
    assert ":" + ":" == "::";
    if b > 0 {
      FormatFirst(ws, z);
      FormatFront(ws, z, 1);
      assert ws[..b][0] == ws[0] && ws[..b][1..] == ws[1..b];
      JoinedIs(ws[..b], Format(ws, z, b));
    } else {
      assert ws[..0] == [];
      NoJoined(Format(ws, z, 0));
    }
  }

  lemma NoJoined(rest: string)
    ensures Joined([]) + rest == rest
  {
  }

  lemma FormatPlain(ws: Words, z: Zeros)
    requires z.base == -1
    ensures Format(ws, z, 0) == Joined(ws)
  {
    hide Format, Hex;
    FormatFirst(ws, z);
    FormatTail(ws, z, 1);
    assert Tail(ws[1..]) + "" == Tail(ws[1..]);
  }

  function Quad6(ws: Words): string {
    Quad(ws[6] / 256, ws[6] % 256, ws[7] / 256, ws[7] % 256)
  }

  // An encapsulated IPv4 address: after six zero words, or after five and 0xffff.
  lemma FormatEmbedded(ws: Words, z: Zeros)
    requires ZerosOk(ws, z) && Embedded(ws, z) && z.len < 7
    ensures Format(ws, z, 0) == "::" + if z.len == 6 then Quad6(ws) else Joined([0xffff]) + (":" + Quad6(ws))
  {
    hide Hex, Quad;
    FormatGap(ws, z);
    FormatSixth(ws, z);
    if z.len == 6 {
      assert ":" + (":" + Quad6(ws)) == "::" + Quad6(ws);
    } else {
      assert Format(ws, z, 5) == ":" + (Hex(ws[5]) + Format(ws, z, 6));
      assert Joined([0xffff]) == Hex(0xffff) + Tail([0xffff][1..]);
      assert Hex(0xffff) + "" == Hex(0xffff);
      assert ":" + (":" + (Hex(ws[5]) + (":" + Quad6(ws)))) == "::" + (Hex(ws[5]) + (":" + Quad6(ws)));
    }
  }

  lemma FormatSixth(ws: Words, z: Zeros)
    requires ZerosOk(ws, z) && Embedded(ws, z) && z.len < 7
    ensures Format(ws, z, 6) == ":" + Quad6(ws)
  {
    hide Hex, Quad;
  }

  // ---- Parsing it ----

  // The decimal digits of the first octet are read as hex digits first.
  lemma {:induction false} DecSkips(n: nat, rest: string, cur: string, out: Bytes, colon: Option<nat>)
    returns (val: nat)
    requires n < 1000 && (colon.Some? ==> colon.value <= |out|)
    ensures |Dec(n)| <= 3 && Run6(Dec(n) + rest, cur, out, colon, 0, 0) == Run6(rest, cur, out, colon, val, |Dec(n)|)
    decreases n
  {
    hide Run6;
    DecLength(n);
    if n < 10 {
      DigitStep(n, rest, cur, out, colon, 0, 0);
      val := n;
    } else {
      var tail := [HexDigit(n % 10)] + rest;
      assert Dec(n) + rest == Dec(n / 10) + tail;
      var v := DecSkips(n / 10, tail, cur, out, colon);
      DigitStep(n % 10, rest, cur, out, colon, v, |Dec(n / 10)|);
      val := v * 16 + n % 10;
    }
  }

  lemma DotReads(rest: string, cur: string, out: Bytes, colon: Option<nat>, val: nat, seen: nat, quad: Bytes)
    requires |out| + 4 <= 16 && (colon.Some? ==> colon.value <= |out|) && Run4(cur, [], 0, false, 0) == Some(quad)
    ensures Run6("." + rest, cur, out, colon, val, seen) == Finish(out + quad, colon)
  {
    hide Run4;
  }

  lemma QuadRuns(a: byte, b: byte, c: byte, d: byte, out: Bytes, colon: Option<nat>)
    requires |out| + 4 <= 16 && (colon.Some? ==> colon.value <= |out|)
    ensures var q := Quad(a, b, c, d); Run6(q, q, out, colon, 0, 0) == Finish(out + [a, b, c, d], colon)
  {
    hide Run6, Run4, Dec;
    var q := Quad(a, b, c, d);
    var rest := Dec(b) + "." + Dec(c) + "." + Dec(d);
    assert q == Dec(a) + ("." + rest);
    QuadReads(a, b, c, d);
    var val := DecSkips(a, "." + rest, q, out, colon);
    DotReads(rest, q, out, colon, val, |Dec(a)|, [a, b, c, d]);
  }

  lemma HexNotColon(w: nat, rest: string)
    ensures (Hex(w) + rest)[0] != ':'
  {
    FirstHex(w);
  }

  lemma {:induction false} FirstHex(w: nat)
    ensures Hex(w)[0] != ':'
  {
    if w < 16 {
      DigitBack(w);
    } else {
      FirstHex(w / 16);
    }
  }

  // Words, "::", and then a part that ends up at the back.
  lemma GapReads(front: seq<nat>, back: string, stored: Bytes)
    requires Short(front) && |front| <= 6 && 2 * |front| + |stored| <= 14
    requires var out := Pairs(front); Run6(back, back, out, Some(|out|), 0, 0) == Finish(out + stored, Some(|out|))
    ensures Parse6(Joined(front) + ("::" + back)) ==
      Some(Pairs(front) + seq(16 - 2 * |front| - |stored|, i => 0) + stored)
  {
    hide Run6, Hex, Pairs, Joined, Tail, Pair;
    var out := Pairs(front);
    var s := Joined(front) + ("::" + back);
    GapStarts(front, back);
    if front == [] {
      NoPairs();
    }
    SecondColon(back, ":" + back, out);
    FinishMoves(out, stored);
  }

  // Up to the second colon.
  lemma GapStarts(front: seq<nat>, back: string)
    requires Short(front) && |front| <= 6
    ensures Parse6(Joined(front) + ("::" + back)) == Run6(":" + back, ":" + back, Pairs(front), None, 0, 0)
  {
    hide Run6, Hex, Pairs, Joined, Tail, Pair;
    var gap := "::" + back;
    assert gap == ":" + (":" + back) && gap[1..] == ":" + back;
    if front == [] {
      NoJoined(gap);
      NoPairs();
    } else {
      var s := Joined(front) + gap;
      JoinedIs(front, gap);
      HexNotColon(front[0], Tail(front[1..]) + gap);
      var n := |front| - 1;
      var c, seen := WordsRun(front, gap, s, [], None);
      assert [] + Pairs(front[..n]) == Pairs(front[..n]);
      ColonAfterWord(":" + back, c, Pairs(front[..n]), None, front[n], seen);
      LastPair(front);
    }
  }

  lemma FinishMoves(out: Bytes, stored: Bytes)
    requires |out| + |stored| < 16
    ensures Finish(out + stored, Some(|out|)) == Some(out + seq(16 - |out| - |stored|, i => 0) + stored)
  {
    assert (out + stored)[..|out|] == out && (out + stored)[|out|..] == stored;
  }

  lemma LastPair(ws: seq<nat>)
    requires ws != [] && Short(ws)
    ensures Short(ws[..|ws| - 1]) && Pairs(ws) == Pairs(ws[..|ws| - 1]) + Pair(ws[|ws| - 1])
  {
    hide Pair;
    var n := |ws| - 1;
    PairsSplit(ws[..n], [ws[n]]);
    assert ws == ws[..n] + [ws[n]];
    assert Pairs([ws[n]]) == Pair(ws[n]) + Pairs([ws[n]][1..]);
  }

  // The words of the run are zero bytes.
  lemma RunBytes(ws: Words, b: nat, len: nat)
    requires IsRun(ws, b, len)
    ensures Short(ws) && Short(ws[..b]) && Short(ws[b + len..])
    ensures Pairs(ws) == Pairs(ws[..b]) + seq(2 * len, i => 0) + Pairs(ws[b + len..])
  {
    hide Pairs;
    var e := b + len;
    PairsZero(ws[b..e]);
    PairsSplit(ws[..b], ws[b..e]);
    PairsSplit(ws[..e], ws[e..]);
    assert ws[..b] + ws[b..e] == ws[..e] && ws[..e] + ws[e..] == ws;
  }

  lemma PlainReads(ws: Words)
    ensures Short(ws) && Parse6(Joined(ws)) == Some(Pairs(ws))
  {
    hide Run6, Hex, Pairs, Joined, Tail;
    JoinedIs(ws, "");
    HexNotColon(ws[0], Tail(ws[1..]));
    WordsEnd(ws, Joined(ws), [], None);
    assert [] + Pairs(ws) == Pairs(ws);
  }

  lemma RunReads(ws: Words, b: nat, len: nat)
    requires IsRun(ws, b, len) && len >= 2
    ensures Short(ws) && Parse6(Joined(ws[..b]) + ("::" + Joined(ws[b + len..]))) == Some(Pairs(ws))
  {
    hide Run6, Pairs, Joined, Parse6, Finish;
    RunBytes(ws, b, len);
    var front, back := ws[..b], ws[b + len..];
    WordsEnd(back, Joined(back), Pairs(front), Some(|Pairs(front)|));
    GapReads(front, Joined(back), Pairs(back));
  }

  lemma QuadBytes(ws: Words)
    ensures Short(ws[6..]) && Pairs(ws[6..]) == [ws[6] / 256, ws[6] % 256, ws[7] / 256, ws[7] % 256]
    ensures Short(ws[5..]) && Pairs(ws[5..]) == Pair(ws[5]) + Pairs(ws[6..])
  {
    assert ws[6..] == [ws[6], ws[7]] && ws[6..][1..] == [ws[7]] && ws[6..][1..][1..] == [];
    assert Pairs(ws[6..]) == Pair(ws[6]) + (Pair(ws[7]) + []);
    assert ws[5..][1..] == ws[6..];
  }

  lemma EmbeddedReads(ws: Words, z: Zeros)
    requires ZerosOk(ws, z) && Embedded(ws, z) && z.len < 7
    ensures Short(ws)
    ensures Parse6("::" + if z.len == 6 then Quad6(ws) else Joined([0xffff]) + (":" + Quad6(ws))) == Some(Pairs(ws))
  {
    hide Run6, Pairs, Joined, Parse6, Finish, Hex, Quad;
    RunBytes(ws, 0, z.len);
    QuadBytes(ws);
    NoPairs();
    assert ws[..0] == [];
    var bytes := Pairs(ws[6..]);
    var q := Quad6(ws);
    QuadSome(ws);
    if z.len == 6 {
      QuadRuns(ws[6] / 256, ws[6] % 256, ws[7] / 256, ws[7] % 256, [], Some(0));
      NoJoined("::" + q);
      GapReads([], q, bytes);
    } else {
      var back := Joined([0xffff]) + (":" + q);
      var c, seen := WordsRun([0xffff], ":" + q, back, [], Some(0));
      var none: Bytes := [];
      assert [0xffff][..0] == [] && none + none == none;
      ColonAfterWord(q, c, [], Some(0), 0xffff, seen);
      assert [] + Pair(0xffff) == Pair(0xffff);
      QuadRuns(ws[6] / 256, ws[6] % 256, ws[7] / 256, ws[7] % 256, Pair(0xffff), Some(0));
      assert [] + (Pair(0xffff) + bytes) == Pair(0xffff) + bytes;
      NoJoined("::" + back);
      GapReads([], back, Pair(0xffff) + bytes);
    }
  }

  lemma QuadSome(ws: Words)
    ensures Quad6(ws) != []
  {
  }

  // Every address comes back from its text, whichever run of zeros the text shortens.
  lemma TextRoundTrip(ws: Words, z: Zeros)
    requires ZerosOk(ws, z)
    ensures Short(ws) && Parse6(Format(ws, z, 0)) == Some(Pairs(ws))
  {
    hide Format, Parse6, Pairs, Joined, Quad6;
    if z.base == -1 {
      FormatPlain(ws, z);
      PlainReads(ws);
    } else if Embedded(ws, z) && z.len < 7 {
      FormatEmbedded(ws, z);
      EmbeddedReads(ws, z);
    } else {
      FormatRun(ws, z);
      RunReads(ws, z.base, z.len);
    }
  }
}
