// uv_inet_ntop and uv_inet_pton, step by step (src/inet.c).

module Inet {
  import opened DbFormat
  import opened Coding
  import opened InetText

  // ---- To text ----

  const BUFFER: nat := 46

  // The best run among those that end at or before n, of any length.
  ghost predicate BestUpTo(ws: Words, z: Zeros, n: int) {
    if z.base == -1 then forall b: int, len: nat :: IsRun(ws, b, len) && b + len <= n ==> len == 0
    else
      z.len >= 1 && IsRun(ws, z.base, z.len) && z.base + z.len <= n
      && forall b: int, len: nat :: IsRun(ws, b, len) && b + len <= n ==> len < z.len || (len == z.len && z.base <= b)
  }

  // The run being followed: it ends at n and cannot start earlier.
  ghost predicate Current(ws: Words, cur: Zeros, n: int) {
    if cur.base == -1 then
      n == 0 || (1 <= n <= 8 && ws[n - 1] != 0)
    else
      cur.len >= 1 && IsRun(ws, cur.base, cur.len) && cur.base + cur.len == n
      && (cur.base > 0 ==> ws[cur.base - 1] != 0)
  }

  // The two-record scan for the longest run of zero words.
  method FindZeros(ws: Words) returns (best: Zeros)
    ensures IsBest(ws, best)
  {
    hide IsRun, BestUpTo, Current;
    best := Zeros(-1, 0);
    var cur := Zeros(-1, 0);
    BestNone(ws);
    for i := 0 to 8
      invariant Current(ws, cur, i) && BestUpTo(ws, best, if cur.base == -1 then i else cur.base)
      invariant cur.base == -1 || 0 <= cur.base < i
    {
      if ws[i] == 0 {
        CurrentGrows(ws, cur, i);
        if cur.base == -1 {
          cur := Zeros(i, 1);
        } else {
          cur := cur.(len := cur.len + 1);
        }
      } else {
        if cur.base != -1 {
          BestTakes(ws, best, cur, i);
          if best.base == -1 || cur.len > best.len {
            best := cur;
          }
          cur := cur.(base := -1);
        }
        BestPasses(ws, best, i);
      }
    }
    if cur.base != -1 {
      BestTakes(ws, best, cur, 8);
      if best.base == -1 || cur.len > best.len {
        best := cur;
      }
    }
    BestEnds(ws, best);
    if best.base != -1 && best.len < 2 {
      best := best.(base := -1);
    }
  }

  lemma BestNone(ws: Words)
    ensures BestUpTo(ws, Zeros(-1, 0), 0) && Current(ws, Zeros(-1, 0), 0)
  {
  }

  lemma CurrentGrows(ws: Words, cur: Zeros, i: nat)
    requires i < 8 && Current(ws, cur, i) && ws[i] == 0 && (cur.base == -1 || 0 <= cur.base)
    ensures Current(ws, if cur.base == -1 then Zeros(i, 1) else cur.(len := cur.len + 1), i + 1)
  {
  }

  // The current run is final: the better of the two is best so far.
  lemma BestTakes(ws: Words, best: Zeros, cur: Zeros, n: nat)
    requires n <= 8 && Current(ws, cur, n) && cur.base != -1 && BestUpTo(ws, best, cur.base) && cur.base >= 0
    ensures BestUpTo(ws, if best.base == -1 || cur.len > best.len then cur else best, n)
  {
    forall b: int, len: nat | IsRun(ws, b, len) && b + len <= n && b + len > cur.base
      ensures len == 0 || (len <= cur.len && (len == cur.len ==> cur.base <= b))
    {
    }
  }

  // A nonzero word ends every run.
  lemma BestPasses(ws: Words, best: Zeros, i: nat)
    requires i < 8 && ws[i] != 0 && BestUpTo(ws, best, i)
    ensures BestUpTo(ws, best, i + 1)
    ensures forall len: nat :: Current(ws, Zeros(-1, len), i + 1)
  {
    forall b: int, len: nat | IsRun(ws, b, len) && b + len == i + 1
      ensures len == 0
    {
    }
  }

  lemma BestEnds(ws: Words, best: Zeros)
    requires BestUpTo(ws, best, 8)
    ensures IsBest(ws, if best.base != -1 && best.len < 2 then best.(base := -1) else best)
  {
    assert forall b: int, len: nat :: IsRun(ws, b, len) ==> b + len <= 8;
  }

  // Two bytes a word.
  function WordsOf(src: Bytes): Words
    requires |src| == 16
  {
    seq(8, i requires 0 <= i < 8 => src[2 * i] as nat * 256 + src[2 * i + 1])
  }

  lemma WordsBack(src: Bytes)
    requires |src| == 16
    ensures Pairs(WordsOf(src)) == src
  {
    PairsFrom(src, 0);
    assert WordsOf(src)[0..] == WordsOf(src) && src[0..] == src;
  }

  lemma {:induction false} PairsFrom(src: Bytes, i: nat)
    requires |src| == 16 && i <= 8
    ensures Short(WordsOf(src)[i..]) && Pairs(WordsOf(src)[i..]) == src[2 * i..]
    decreases 8 - i
  {
    if i < 8 {
      PairsFrom(src, i + 1);
      assert WordsOf(src)[i..][1..] == WordsOf(src)[i + 1..];
      assert Pair(WordsOf(src)[i]) == [src[2 * i], src[2 * i + 1]];
      assert src[2 * i..] == [src[2 * i], src[2 * i + 1]] + src[2 * i + 2..];
    }
  }

  // inet_ntop4: the text if it fits with its terminator.
  method Ntop4(src: Bytes, size: nat) returns (r: Option<string>)
    requires |src| == 4
    ensures var q := Quad(src[0], src[1], src[2], src[3]); |q| <= 15 && r == if |q| < size then Some(q) else None
  {
    hide Dec;
    DecLength(src[0]);
    DecLength(src[1]);
    DecLength(src[2]);
    DecLength(src[3]);
    var tmp := Quad(src[0], src[1], src[2], src[3]);
    r := if |tmp| >= size then None else Some(tmp);
  }

  // No text is longer than the temporary buffer.
  lemma {:induction false} JoinedLength(ws: seq<nat>)
    requires Short(ws) && ws != []
    ensures |Joined(ws)| <= 5 * |ws| - 1 && |Tail(ws)| <= 5 * |ws|
  {
    HexLength(ws[0]);
    if |ws| > 1 {
      JoinedLength(ws[1..]);
    }
  }

  lemma FormatLength(ws: Words, z: Zeros)
    requires ZerosOk(ws, z)
    ensures |Format(ws, z, 0)| <= 39
  {
    hide Format, Joined, Hex, Dec;
    if z.base == -1 {
      FormatPlain(ws, z);
      JoinedLength(ws);
    } else if Embedded(ws, z) && z.len < 7 {
      FormatEmbedded(ws, z);
      JoinedLength([0xffff]);
      DecLength(ws[6] / 256);
      DecLength(ws[6] % 256);
      DecLength(ws[7] / 256);
      DecLength(ws[7] % 256);
    } else {
      FormatRun(ws, z);
      var front, back := ws[..z.base], ws[z.base + z.len..];
      if front != [] { JoinedLength(front); }
      if back != [] { JoinedLength(back); }
      EmptyJoined();
    }
  }

  lemma EmptyJoined()
    ensures Joined([]) == ""
  {
  }

  lemma BestIsOk(ws: Words, z: Zeros)
    requires IsBest(ws, z)
    ensures ZerosOk(ws, z)
  {
  }

  // The output loop.
  method Write6(ws: Words, best: Zeros) returns (tp: string)
    requires ZerosOk(ws, best)
    ensures tp == Format(ws, best, 0)
  {
    hide Hex, Quad, Quad6, ZerosOk, Format, Embedded;
    tp := "";
    assert "" + Format(ws, best, 0) == Format(ws, best, 0);
    for i := 0 to 8
      invariant Format(ws, best, 0) == tp + Format(ws, best, i)
    {
      FormatTurn(ws, best, i);
      var colon: string := if (if Inside(best, i) then i == best.base else i != 0) then ":" else "";
      if Inside(best, i) {
        Assoc(tp, colon, Format(ws, best, i + 1));
        tp := tp + colon;
        continue;
      }
      if i == 6 && Embedded(ws, best) {
        Assoc(tp, colon, Quad6(ws));
        tp := tp + colon + Quad6(ws);
        return;
      }
      Assoc(tp, colon + Hex(ws[i]), Format(ws, best, i + 1));
      Assoc(tp, colon, Hex(ws[i]));
      tp := tp + colon + Hex(ws[i]);
    }
    FormatEnd(ws, best);
    if best.base != -1 && best.base + best.len == 8 {
      tp := tp + ":";
    }
  }

  lemma FormatEnd(ws: Words, z: Zeros)
    ensures Format(ws, z, 8) == if z.base != -1 && z.base + z.len == 8 then ":" else ""
  {
  }

  lemma FormatTurn(ws: Words, z: Zeros, i: nat)
    requires i < 8
    ensures Format(ws, z, i) ==
      if Inside(z, i) then (if i == z.base then ":" else "") + Format(ws, z, i + 1)
      else if i == 6 && Embedded(ws, z) then (if i != 0 then ":" else "") + Quad6(ws)
      else (if i != 0 then ":" else "") + Hex(ws[i]) + Format(ws, z, i + 1)
  {
    hide Hex, Quad;
  }

  // inet_ntop6.
  method Ntop6(src: Bytes, size: nat) returns (r: Option<string>, ghost best: Zeros)
    requires |src| == 16
    ensures IsBest(WordsOf(src), best)
    ensures var text := Format(WordsOf(src), best, 0);
            |text| < BUFFER && r == if |text| < size then Some(text) else None
  {
    hide IsBest, Format;
    var words := WordsOf(src);
    var z := FindZeros(words);
    best := z;
    BestIsOk(words, z);
    FormatLength(words, z);
    var tmp := Write6(words, z);
    r := if |tmp| >= size then None else Some(tmp);
  }

  // ---- From text ----

  // inet_pton4.
  method Pton4(src: string) returns (r: Option<Bytes>)
    ensures r == Run4(src, [], 0, false, 0)
  {
    var sawDigit, octets: nat, done: Bytes, octet: byte := false, 0, [], 0;
    var p := 0;
    assert src[0..] == src;
    while p < |src|
      invariant p <= |src| && octets <= 4
      invariant Run4(src, [], 0, false, 0) == Run4(src[p..], done, octet, sawDigit, octets)
    {
      var ch := src[p];
      assert src[p..][1..] == src[p + 1..];
      p := p + 1;
      if '0' <= ch <= '9' {
        var nw := octet * 10 + (ch as nat - '0' as nat);
        if sawDigit && octet == 0 {
          return None;
        }
        if nw > 255 {
          return None;
        }
        octet := nw;
        if !sawDigit {
          octets := octets + 1;
          if octets > 4 {
            return None;
          }
          sawDigit := true;
        }
      } else if ch == '.' && sawDigit {
        if octets == 4 {
          return None;
        }
        done, octet, sawDigit := done + [octet], 0, false;
      } else {
        return None;
      }
    }
    r := if octets < 4 then None else Some(done + [octet]);
  }

  // The move of what follows a "::" to the end of the buffer.
  method Expand(out: Bytes, colon: Option<nat>) returns (r: Option<Bytes>)
    requires |out| <= 16 && (colon.Some? ==> colon.value <= |out|)
    ensures r == Finish(out, colon)
  {
    if colon.None? {
      return if |out| == 16 then Some(out) else None;
    }
    if |out| == 16 {
      return None;
    }
    var c := colon.value;
    var n := |out| - c;
    assert Moved(out, 0) == seq(16, i requires 0 <= i < 16 => if i < |out| then out[i] else 0);
    var tmp := new byte[16](i requires 0 <= i < 16 => if i < |out| then out[i] else 0);
    for i := 1 to n + 1
      invariant tmp.Length == 16 && tmp[..] == Moved(out, i - 1)
    {
      MoveOne(out, i - 1);
      tmp[16 - i] := tmp[c + n - i];
      tmp[c + n - i] := 0;
    }
    r := Some(tmp[..]);
  }

  // The buffer after m bytes have moved to its end.
  function Moved(out: Bytes, m: nat): (r: Bytes)
    requires m <= |out| <= 16
    ensures |r| == 16
  {
    out[..|out| - m] + seq(16 - |out|, i => 0) + out[|out| - m..]
  }

  lemma MoveOne(out: Bytes, m: nat)
    requires m < |out| < 16
    ensures Moved(out, m)[|out| - 1 - m] == out[|out| - 1 - m]
    ensures Moved(out, m)[15 - m := out[|out| - 1 - m]][|out| - 1 - m := 0] == Moved(out, m + 1)
  {
  }

  // inet_pton6.
  method Pton6(src: string) returns (r: Option<Bytes>)
    ensures r == Parse6(src)
  {
    hide Run4, Finish, DigitValue;
    var p := 0;
    if src != [] && src[0] == ':' {
      p := 1;
      if |src| < 2 || src[1] != ':' {
        return None;
      }
    }
    var curtok, val: nat, seen: nat, out: Bytes, colon: Option<nat> := p, 0, 0, [], None;
    assert src[0..] == src;
    while p < |src|
      invariant curtok <= p <= |src| && |out| <= 16 && (colon.Some? ==> colon.value <= |out|)
      invariant Parse6(src) == Run6(src[p..], src[curtok..], out, colon, val, seen)
    {
      var ch := src[p];
      assert src[p..][1..] == src[p + 1..];
      p := p + 1;
      var d := DigitValue(ch);
      if d.Some? {
        val := val * 16 + d.value;
        seen := seen + 1;
        if seen > 4 {
          return None;
        }
        continue;
      }
      if ch == ':' {
        curtok := p;
        if seen == 0 {
          if colon.Some? {
            return None;
          }
          colon := Some(|out|);
          val := val;
          continue;
        } else if p == |src| {
          return None;
        }
        if |out| + 2 > 16 {
          return None;
        }
        out := out + [val / 256 % 256, val % 256];
        val, seen := 0, 0;
        continue;
      }
      if ch == '.' && |out| + 4 <= 16 {
        var quad := Pton4(src[curtok..]);
        if quad.Some? {
          QuadLength(src[curtok..]);
          r := Expand(out + quad.value, colon);
          return;
        }
      }
      return None;
    }
    if seen > 0 {
      if |out| + 2 > 16 {
        return None;
      }
      out := out + [val / 256 % 256, val % 256];
    }
    r := Expand(out, colon);
  }

  lemma QuadLength(s: string)
    ensures Run4(s, [], 0, false, 0).Some? ==> |Run4(s, [], 0, false, 0).value| == 4
  {
    FourOctets(s, [], 0, false, 0);
  }

  // As many octets are kept as have begun.
  lemma {:induction false} FourOctets(s: string, done: Bytes, octet: byte, saw: bool, octets: nat)
    requires if saw then 1 <= octets <= 4 && |done| == octets - 1 else octets <= 3 && |done| == octets
    ensures Run4(s, done, octet, saw, octets).Some? ==> |Run4(s, done, octet, saw, octets).value| == 4
    decreases |s|
  {
    if s != [] {
      if '0' <= s[0] <= '9' {
        var nw := octet * 10 + (s[0] as nat - '0' as nat);
        if nw <= 255 {
          FourOctets(s[1..], done, nw, true, if saw then octets else octets + 1);
        }
      } else if s[0] == '.' && saw && octets < 4 {
        FourOctets(s[1..], done + [octet], 0, false, octets);
      }
    }
  }

  // uv_inet_pton: a zone after '%' is cut off first.
  method UvPton6(src: string) returns (r: Option<Bytes>)
    ensures r == if '%' in src && IndexOf(src, '%') > BUFFER - 1 then None else Parse6(src[..IndexOf(src, '%')])
  {
    hide Parse6;
    var p := 0;
    while p < |src| && src[p] != '%'
      invariant p <= |src| && '%' !in src[..p] && IndexOf(src, '%') == p + IndexOf(src[p..], '%')
    {
      assert src[p..][1..] == src[p + 1..];
      p := p + 1;
    }
    if p < |src| && p > BUFFER - 1 {
      return None;
    }
    r := Pton6(src[..p]);
  }

  // The first position of c, or the end.
  function IndexOf(s: string, c: char): (i: nat)
    ensures i <= |s| && c !in s[..i] && (i < |s| ==> s[i] == c)
  {
    if s == [] || s[0] == c then 0 else 1 + IndexOf(s[1..], c)
  }

  lemma {:induction false} CleanHex(w: nat)
    ensures '%' !in Hex(w)
  {
    if w < 16 {
      DigitBack(w);
    } else {
      DigitBack(w % 16);
      CleanHex(w / 16);
    }
  }

  lemma {:induction false} CleanDec(n: nat)
    ensures '%' !in Dec(n)
  {
    if n < 10 {
      DigitBack(n);
    } else {
      DigitBack(n % 10);
      CleanDec(n / 10);
    }
  }

  lemma {:induction false} CleanText(ws: Words, z: Zeros, i: nat)
    requires i <= 8
    ensures '%' !in Format(ws, z, i)
    decreases 8 - i
  {
    if i < 8 {
      hide Hex, Dec;
      CleanText(ws, z, i + 1);
      CleanHex(ws[i]);
      CleanDec(ws[6] / 256);
      CleanDec(ws[6] % 256);
      CleanDec(ws[7] / 256);
      CleanDec(ws[7] % 256);
    }
  }

  lemma {:induction false} FirstAt(a: string, rest: string, c: char)
    requires c !in a
    ensures IndexOf(a + ([c] + rest), c) == |a|
  {
    var s := a + ([c] + rest);
    if a != [] {
      assert s[0] == a[0] && s[1..] == a[1..] + ([c] + rest);
      FirstAt(a[1..], rest, c);
    }
  }

  // Every 16-byte address that is printed is read back, with any zone after it.
  method PrintAndParse(src: Bytes, zone: string) returns (text: string, back: Option<Bytes>)
    requires |src| == 16
    ensures back == Some(src)
  {
    hide Parse6, Format, IsBest, Pairs;
    var r;
    ghost var best;
    r, best := Ntop6(src, BUFFER);
    text := r.value;
    BestIsOk(WordsOf(src), best);
    TextRoundTrip(WordsOf(src), best);
    WordsBack(src);
    CleanText(WordsOf(src), best, 0);
    FirstAt(text, zone, '%');
    var s := text + ("%" + zone);
    assert s[..|text|] == text;
    back := UvPton6(s);
  }
}
