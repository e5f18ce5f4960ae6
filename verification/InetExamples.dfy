// Addresses spelled out.

module InetExamples {
  // Texts of addresses, as section 2.2 of RFC 4291 gives them, and texts that are none (libuv src/inet.c).

  import opened DbFormat
  import opened InetText

  lemma Digits()
    ensures Hex(0x123) == "123" && Hex(0x4567) == "4567" && Hex(0x89ab) == "89ab" && Hex(0xcdef) == "cdef"
  {
    assert Hex(0x12) == "12" && Hex(0x456) == "456" && Hex(0x89a) == "89a" && Hex(0xcde) == "cde";
    assert Hex(0x45) == "45" && Hex(0x89) == "89" && Hex(0xcd) == "cd";
  }

  lemma Decimals()
    ensures Dec(0) == "0" && Dec(192) == "192" && Dec(255) == "255" && Dec(4678) == "4678"
  {
    assert Dec(19) == "19" && Dec(25) == "25" && Dec(46) == "46" && Dec(467) == "467";
  }

  // 2001:db8::8:800:200c:417a
  lemma Compressed(ws: Words)
    requires ws == [0x2001, 0xdb8, 0, 0, 8, 0x800, 0x200c, 0x417a]
    ensures Format(ws, Zeros(2, 2), 0) ==
      "2001" + (":db8" + (":" + (":8" + (":800" + (":200c" + ":417a")))))
  {
    hide Hex;
    var z := Zeros(2, 2);
    TheseWords();
    assert Format(ws, z, 8) == "";
    assert Format(ws, z, 7) == ":417a" + "" == ":417a";
    assert Format(ws, z, 6) == ":200c" + Format(ws, z, 7);
    assert Format(ws, z, 5) == ":800" + Format(ws, z, 6);
    assert Format(ws, z, 4) == ":8" + Format(ws, z, 5);
    assert Format(ws, z, 3) == "" + Format(ws, z, 4) == Format(ws, z, 4);
    assert Format(ws, z, 2) == ":" + Format(ws, z, 3);
    assert Format(ws, z, 1) == ":db8" + Format(ws, z, 2);
    assert Format(ws, z, 0) == "" + "2001" + Format(ws, z, 1);
    assert "" + "2001" == "2001";
  }

  lemma TheseWords()
    ensures Hex(0x2001) == "2001" && Hex(0xdb8) == "db8" && Hex(8) == "8" && Hex(0x800) == "800"
    ensures Hex(0x200c) == "200c" && Hex(0x417a) == "417a"
  {
    assert Hex(0x20) == "20" && Hex(0x200) == "200" && Hex(0xdb) == "db" && Hex(0x80) == "80";
    assert Hex(0x41) == "41" && Hex(0x417) == "417";
  }

  // The last four bytes of ::ffff:129.144.52.38.
  lemma Dotted()
    ensures Quad(129, 144, 52, 38) == "129" + "." + "144" + "." + "52" + "." + "38"
  {
    assert Dec(12) == "12" && Dec(14) == "14" && Dec(129) == "129" && Dec(144) == "144";
  }

  // A lone colon in front, a second "::", a word of five digits, and too few words are refused.
  lemma Refused()
    ensures Parse6(":1") == None && Parse6("::1::") == None && Parse6("12345::") == None && Parse6("1") == None
  {
  }

  lemma Loopback()
    ensures Parse6("::1") == Some(seq(14, i => 0) + [0, 1])
  {
    assert Parse6("::1") == Run6(":1", ":1", [], None, 0, 0);
    assert ":1"[1..] == "1" && "1"[1..] == "";
    assert Run6(":1", ":1", [], None, 0, 0) == Run6("1", "1", [], Some(0), 0, 0);
    assert Run6("1", "1", [], Some(0), 0, 0) == Run6("", "1", [], Some(0), 1, 1);
    assert [] + [0, 1] == [0, 1];
    assert Run6("", "1", [], Some(0), 1, 1) == Finish([0, 1], Some(0));
    var out: seq<byte> := [0, 1];
    var zeros: seq<byte> := seq(14, i => 0);
    assert out[..0] + zeros + out[0..] == zeros + out;
  }
}
