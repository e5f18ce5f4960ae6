// Checksums that are known.

module KnownChecksums {
  // A test vector of section B.4 of RFC 3720, and entries of the literal table of util/crc32c.cc.

  import opened Crc32c

  lemma FoldNext(l: Word, data: seq<bv8>, i: nat)
    requires i < |data|
    ensures Fold(l, data[..i + 1]) == Shift8(Xor(Fold(l, data[..i]), Wide(data[i])))
  {
    hide Shift8, Xor, Wide;
    assert data[..i + 1] == data[..i] + [data[i]];
    FoldConcat(l, data[..i], [data[i]]);
    var rest: seq<bv8> := [data[i]][1..];
    var before := Fold(l, data[..i]);
    assert rest == [] && Fold(before, [data[i]]) == Fold(Shift8(Xor(before, Wide(data[i]))), rest);
  }

  lemma FoldNothing(l: Word, data: seq<bv8>)
    ensures Fold(l, data[..0]) == l
  {
  }

  // Thirty-two bytes from 0 to 31.
  lemma Ascending(data: seq<bv8>)
    requires |data| == 32 && forall i :: 0 <= i < 32 ==> data[i] == i as bv8
    ensures Simple(0, data) == 0x46dd_794e
  {
    hide Shift8, Xor, Wide, Fold;
    FoldNothing(0xffff_ffff, data);
    Ascending0(data);
    Ascending8(data);
    Ascending16(data);
    Ascending24(data);
    assert data[..32] == data;
    assert Xor(0, CRC_XOR) == 0xffff_ffff && Xor(0xb922_86b1, CRC_XOR) == 0x46dd_794e by {
      AscendingXor();
    }
  }

  lemma AscendingXor()
    ensures Xor(0, CRC_XOR) == 0xffff_ffff && Xor(0xb922_86b1, CRC_XOR) == 0x46dd_794e
  {
  }

  lemma Ascending0(data: seq<bv8>)
    requires |data| == 32 && forall i :: 0 <= i < 32 ==> data[i] == i as bv8
    requires Fold(0xffff_ffff, data[..0]) == 0xffff_ffff
    ensures Fold(0xffff_ffff, data[..8]) == 0x75d3_43c4
  {
    hide Shift8, Xor, Wide, Fold;
    AscendingSteps0();
    FoldNext(0xffff_ffff, data, 0);
    FoldNext(0xffff_ffff, data, 1);
    FoldNext(0xffff_ffff, data, 2);
    FoldNext(0xffff_ffff, data, 3);
    FoldNext(0xffff_ffff, data, 4);
    FoldNext(0xffff_ffff, data, 5);
    FoldNext(0xffff_ffff, data, 6);
    FoldNext(0xffff_ffff, data, 7);
  }

  lemma AscendingSteps0()
    ensures Shift8(Xor(0xffff_ffff, Wide(0))) == 0xad82_acae
    ensures Shift8(Xor(0xad82_acae, Wide(1))) == 0xfcf5_0b2e
    ensures Shift8(Xor(0xfcf5_0b2e, Wide(2))) == 0x6d02_b405
    ensures Shift8(Xor(0x6d02_b405, Wide(3))) == 0x26cc_e55c
    ensures Shift8(Xor(0x26cc_e55c, Wide(4))) == 0xdbda_4ef9
    ensures Shift8(Xor(0xdbda_4ef9, Wide(5))) == 0xbef6_7aeb
    ensures Shift8(Xor(0xbef6_7aeb, Wide(6))) == 0x5ca6_12b3
    ensures Shift8(Xor(0x5ca6_12b3, Wide(7))) == 0x75d3_43c4
  {
  }

  lemma Ascending8(data: seq<bv8>)
    requires |data| == 32 && forall i :: 0 <= i < 32 ==> data[i] == i as bv8
    requires Fold(0xffff_ffff, data[..8]) == 0x75d3_43c4
    ensures Fold(0xffff_ffff, data[..16]) == 0x2636_f714
  {
    hide Shift8, Xor, Wide, Fold;
    AscendingSteps8();
    FoldNext(0xffff_ffff, data, 8);
    FoldNext(0xffff_ffff, data, 9);
    FoldNext(0xffff_ffff, data, 10);
    FoldNext(0xffff_ffff, data, 11);
    FoldNext(0xffff_ffff, data, 12);
    FoldNext(0xffff_ffff, data, 13);
    FoldNext(0xffff_ffff, data, 14);
    FoldNext(0xffff_ffff, data, 15);
  }

  lemma AscendingSteps8()
    ensures Shift8(Xor(0x75d3_43c4, Wide(8))) == 0x8ebb_3a57
    ensures Shift8(Xor(0x8ebb_3a57, Wide(9))) == 0xfdd3_dece
    ensures Shift8(Xor(0xfdd3_dece, Wide(10))) == 0x04ea_6205
    ensures Shift8(Xor(0x04ea_6205, Wide(11))) == 0xac7c_5545
    ensures Shift8(Xor(0xac7c_5545, Wide(12))) == 0x3965_ba25
    ensures Shift8(Xor(0x3965_ba25, Wide(13))) == 0xaa5d_b3ab
    ensures Shift8(Xor(0xaa5d_b3ab, Wide(14))) == 0x9710_fc09
    ensures Shift8(Xor(0x9710_fc09, Wide(15))) == 0x2636_f714
  {
  }

  lemma Ascending16(data: seq<bv8>)
    requires |data| == 32 && forall i :: 0 <= i < 32 ==> data[i] == i as bv8
    requires Fold(0xffff_ffff, data[..16]) == 0x2636_f714
    ensures Fold(0xffff_ffff, data[..24]) == 0xd643_786a
  {
    hide Shift8, Xor, Wide, Fold;
    AscendingSteps16();
    FoldNext(0xffff_ffff, data, 16);
    FoldNext(0xffff_ffff, data, 17);
    FoldNext(0xffff_ffff, data, 18);
    FoldNext(0xffff_ffff, data, 19);
    FoldNext(0xffff_ffff, data, 20);
    FoldNext(0xffff_ffff, data, 21);
    FoldNext(0xffff_ffff, data, 22);
    FoldNext(0xffff_ffff, data, 23);
  }

  lemma AscendingSteps16()
    ensures Shift8(Xor(0x2636_f714, Wide(16))) == 0xc7bc_a1e8
    ensures Shift8(Xor(0xc7bc_a1e8, Wide(17))) == 0x8b1b_0818
    ensures Shift8(Xor(0x8b1b_0818, Wide(18))) == 0x6b69_3330
    ensures Shift8(Xor(0x6b69_3330, Wide(19))) == 0x3386_1419
    ensures Shift8(Xor(0x3386_1419, Wide(20))) == 0xbf1b_cac7
    ensures Shift8(Xor(0xbf1b_cac7, Wide(21))) == 0x3257_8a96
    ensures Shift8(Xor(0x3257_8a96, Wide(22))) == 0x82c4_6cf2
    ensures Shift8(Xor(0x82c4_6cf2, Wide(23))) == 0xd643_786a
  {
  }

  lemma Ascending24(data: seq<bv8>)
    requires |data| == 32 && forall i :: 0 <= i < 32 ==> data[i] == i as bv8
    requires Fold(0xffff_ffff, data[..24]) == 0xd643_786a
    ensures Fold(0xffff_ffff, data[..32]) == 0xb922_86b1
  {
    hide Shift8, Xor, Wide, Fold;
    AscendingSteps24();
    FoldNext(0xffff_ffff, data, 24);
    FoldNext(0xffff_ffff, data, 25);
    FoldNext(0xffff_ffff, data, 26);
    FoldNext(0xffff_ffff, data, 27);
    FoldNext(0xffff_ffff, data, 28);
    FoldNext(0xffff_ffff, data, 29);
    FoldNext(0xffff_ffff, data, 30);
    FoldNext(0xffff_ffff, data, 31);
  }

  lemma AscendingSteps24()
    ensures Shift8(Xor(0xd643_786a, Wide(24))) == 0x9075_6782
    ensures Shift8(Xor(0x9075_6782, Wide(25))) == 0x0bb1_224b
    ensures Shift8(Xor(0x0bb1_224b, Wide(26))) == 0xa345_e8f2
    ensures Shift8(Xor(0xa345_e8f2, Wide(27))) == 0x9b21_363e
    ensures Shift8(Xor(0x9b21_363e, Wide(28))) == 0xc11d_df1f
    ensures Shift8(Xor(0xc11d_df1f, Wide(29))) == 0xe1fa_6d28
    ensures Shift8(Xor(0xe1fa_6d28, Wide(30))) == 0x16a3_5434
    ensures Shift8(Xor(0x16a3_5434, Wide(31))) == 0xb922_86b1
  {
  }

  // The table the source spells out: its entries at the powers of two; the others follow by exclusive or.
  lemma TableBasis()
    ensures ByteTable(1) == 0xf26b_8303
    ensures ByteTable(2) == 0xe13b_70f7
    ensures ByteTable(4) == 0xc79a_971f
    ensures ByteTable(8) == 0x8ad9_58cf
    ensures ByteTable(16) == 0x105e_c76f
    ensures ByteTable(32) == 0x20bd_8ede
    ensures ByteTable(64) == 0x417b_1dbc
    ensures ByteTable(128) == 0x82f6_3b78
  {
  }

  lemma TableLinear(a: bv8, b: bv8)
    ensures ByteTable(a ^ b) == Xor(ByteTable(a), ByteTable(b))
  {
    hide Shift8, Xor;
    WideXor(a, b);
    ShiftLinear(Wide(a), Wide(b));
  }

  lemma WideXor(a: bv8, b: bv8)
    ensures Wide(a ^ b) == Xor(Wide(a), Wide(b))
  {
  }
}
