// The table-driven CRC-32 (lib/include/crc32.h) against the bit-at-a-time definition of
// section 8 of RFC 1952, with the reflected polynomial 0xEDB88320.
module CrcTable {

  /** One bit. */
  function Bit(c: bv32): bv32 {
    if c & 1 == 1 then (c >> 1) ^ 0xEDB8_8320 else c >> 1
  }

  /** Eight bits. */
  function Bits8(c: bv32): bv32 {
    Bit(Bit(Bit(Bit(Bit(Bit(Bit(Bit(c))))))))
  }

  // ----- the table, sixteen entries a row -----

  function Row0(n: bv32): bv32 {
    if n == 0 then 0x0000_0000 else if n == 1 then 0x7707_3096 else if n == 2 then 0xEE0E_612C else if n == 3 then 0x9909_51BA
    else if n == 4 then 0x076D_C419 else if n == 5 then 0x706A_F48F else if n == 6 then 0xE963_A535 else if n == 7 then 0x9E64_95A3
    else if n == 8 then 0x0EDB_8832 else if n == 9 then 0x79DC_B8A4 else if n == 10 then 0xE0D5_E91E else if n == 11 then 0x97D2_D988
    else if n == 12 then 0x09B6_4C2B else if n == 13 then 0x7EB1_7CBD else if n == 14 then 0xE7B8_2D07 else 0x90BF_1D91
  }

  function Row1(n: bv32): bv32 {
    if n == 0 then 0x1DB7_1064 else if n == 1 then 0x6AB0_20F2 else if n == 2 then 0xF3B9_7148 else if n == 3 then 0x84BE_41DE
    else if n == 4 then 0x1ADA_D47D else if n == 5 then 0x6DDD_E4EB else if n == 6 then 0xF4D4_B551 else if n == 7 then 0x83D3_85C7
    else if n == 8 then 0x136C_9856 else if n == 9 then 0x646B_A8C0 else if n == 10 then 0xFD62_F97A else if n == 11 then 0x8A65_C9EC
    else if n == 12 then 0x1401_5C4F else if n == 13 then 0x6306_6CD9 else if n == 14 then 0xFA0F_3D63 else 0x8D08_0DF5
  }

  function Row2(n: bv32): bv32 {
    if n == 0 then 0x3B6E_20C8 else if n == 1 then 0x4C69_105E else if n == 2 then 0xD560_41E4 else if n == 3 then 0xA267_7172
    else if n == 4 then 0x3C03_E4D1 else if n == 5 then 0x4B04_D447 else if n == 6 then 0xD20D_85FD else if n == 7 then 0xA50A_B56B
    else if n == 8 then 0x35B5_A8FA else if n == 9 then 0x42B2_986C else if n == 10 then 0xDBBB_C9D6 else if n == 11 then 0xACBC_F940
    else if n == 12 then 0x32D8_6CE3 else if n == 13 then 0x45DF_5C75 else if n == 14 then 0xDCD6_0DCF else 0xABD1_3D59
  }

  function Row3(n: bv32): bv32 {
    if n == 0 then 0x26D9_30AC else if n == 1 then 0x51DE_003A else if n == 2 then 0xC8D7_5180 else if n == 3 then 0xBFD0_6116
    else if n == 4 then 0x21B4_F4B5 else if n == 5 then 0x56B3_C423 else if n == 6 then 0xCFBA_9599 else if n == 7 then 0xB8BD_A50F
    else if n == 8 then 0x2802_B89E else if n == 9 then 0x5F05_8808 else if n == 10 then 0xC60C_D9B2 else if n == 11 then 0xB10B_E924
    else if n == 12 then 0x2F6F_7C87 else if n == 13 then 0x5868_4C11 else if n == 14 then 0xC161_1DAB else 0xB666_2D3D
  }

  function Row4(n: bv32): bv32 {
    if n == 0 then 0x76DC_4190 else if n == 1 then 0x01DB_7106 else if n == 2 then 0x98D2_20BC else if n == 3 then 0xEFD5_102A
    else if n == 4 then 0x71B1_8589 else if n == 5 then 0x06B6_B51F else if n == 6 then 0x9FBF_E4A5 else if n == 7 then 0xE8B8_D433
    else if n == 8 then 0x7807_C9A2 else if n == 9 then 0x0F00_F934 else if n == 10 then 0x9609_A88E else if n == 11 then 0xE10E_9818
    else if n == 12 then 0x7F6A_0DBB else if n == 13 then 0x086D_3D2D else if n == 14 then 0x9164_6C97 else 0xE663_5C01
  }

  function Row5(n: bv32): bv32 {
    if n == 0 then 0x6B6B_51F4 else if n == 1 then 0x1C6C_6162 else if n == 2 then 0x8565_30D8 else if n == 3 then 0xF262_004E
    else if n == 4 then 0x6C06_95ED else if n == 5 then 0x1B01_A57B else if n == 6 then 0x8208_F4C1 else if n == 7 then 0xF50F_C457
    else if n == 8 then 0x65B0_D9C6 else if n == 9 then 0x12B7_E950 else if n == 10 then 0x8BBE_B8EA else if n == 11 then 0xFCB9_887C
    else if n == 12 then 0x62DD_1DDF else if n == 13 then 0x15DA_2D49 else if n == 14 then 0x8CD3_7CF3 else 0xFBD4_4C65
  }

  function Row6(n: bv32): bv32 {
    if n == 0 then 0x4DB2_6158 else if n == 1 then 0x3AB5_51CE else if n == 2 then 0xA3BC_0074 else if n == 3 then 0xD4BB_30E2
    else if n == 4 then 0x4ADF_A541 else if n == 5 then 0x3DD8_95D7 else if n == 6 then 0xA4D1_C46D else if n == 7 then 0xD3D6_F4FB
    else if n == 8 then 0x4369_E96A else if n == 9 then 0x346E_D9FC else if n == 10 then 0xAD67_8846 else if n == 11 then 0xDA60_B8D0
    else if n == 12 then 0x4404_2D73 else if n == 13 then 0x3303_1DE5 else if n == 14 then 0xAA0A_4C5F else 0xDD0D_7CC9
  }

  function Row7(n: bv32): bv32 {
    if n == 0 then 0x5005_713C else if n == 1 then 0x2702_41AA else if n == 2 then 0xBE0B_1010 else if n == 3 then 0xC90C_2086
    else if n == 4 then 0x5768_B525 else if n == 5 then 0x206F_85B3 else if n == 6 then 0xB966_D409 else if n == 7 then 0xCE61_E49F
    else if n == 8 then 0x5EDE_F90E else if n == 9 then 0x29D9_C998 else if n == 10 then 0xB0D0_9822 else if n == 11 then 0xC7D7_A8B4
    else if n == 12 then 0x59B3_3D17 else if n == 13 then 0x2EB4_0D81 else if n == 14 then 0xB7BD_5C3B else 0xC0BA_6CAD
  }

  function Row8(n: bv32): bv32 {
    if n == 0 then 0xEDB8_8320 else if n == 1 then 0x9ABF_B3B6 else if n == 2 then 0x03B6_E20C else if n == 3 then 0x74B1_D29A
    else if n == 4 then 0xEAD5_4739 else if n == 5 then 0x9DD2_77AF else if n == 6 then 0x04DB_2615 else if n == 7 then 0x73DC_1683
    else if n == 8 then 0xE363_0B12 else if n == 9 then 0x9464_3B84 else if n == 10 then 0x0D6D_6A3E else if n == 11 then 0x7A6A_5AA8
    else if n == 12 then 0xE40E_CF0B else if n == 13 then 0x9309_FF9D else if n == 14 then 0x0A00_AE27 else 0x7D07_9EB1
  }

  function Row9(n: bv32): bv32 {
    if n == 0 then 0xF00F_9344 else if n == 1 then 0x8708_A3D2 else if n == 2 then 0x1E01_F268 else if n == 3 then 0x6906_C2FE
    else if n == 4 then 0xF762_575D else if n == 5 then 0x8065_67CB else if n == 6 then 0x196C_3671 else if n == 7 then 0x6E6B_06E7
    else if n == 8 then 0xFED4_1B76 else if n == 9 then 0x89D3_2BE0 else if n == 10 then 0x10DA_7A5A else if n == 11 then 0x67DD_4ACC
    else if n == 12 then 0xF9B9_DF6F else if n == 13 then 0x8EBE_EFF9 else if n == 14 then 0x17B7_BE43 else 0x60B0_8ED5
  }

  function Row10(n: bv32): bv32 {
    if n == 0 then 0xD6D6_A3E8 else if n == 1 then 0xA1D1_937E else if n == 2 then 0x38D8_C2C4 else if n == 3 then 0x4FDF_F252
    else if n == 4 then 0xD1BB_67F1 else if n == 5 then 0xA6BC_5767 else if n == 6 then 0x3FB5_06DD else if n == 7 then 0x48B2_364B
    else if n == 8 then 0xD80D_2BDA else if n == 9 then 0xAF0A_1B4C else if n == 10 then 0x3603_4AF6 else if n == 11 then 0x4104_7A60
    else if n == 12 then 0xDF60_EFC3 else if n == 13 then 0xA867_DF55 else if n == 14 then 0x316E_8EEF else 0x4669_BE79
  }

  function Row11(n: bv32): bv32 {
    if n == 0 then 0xCB61_B38C else if n == 1 then 0xBC66_831A else if n == 2 then 0x256F_D2A0 else if n == 3 then 0x5268_E236
    else if n == 4 then 0xCC0C_7795 else if n == 5 then 0xBB0B_4703 else if n == 6 then 0x2202_16B9 else if n == 7 then 0x5505_262F
    else if n == 8 then 0xC5BA_3BBE else if n == 9 then 0xB2BD_0B28 else if n == 10 then 0x2BB4_5A92 else if n == 11 then 0x5CB3_6A04
    else if n == 12 then 0xC2D7_FFA7 else if n == 13 then 0xB5D0_CF31 else if n == 14 then 0x2CD9_9E8B else 0x5BDE_AE1D
  }

  function Row12(n: bv32): bv32 {
    if n == 0 then 0x9B64_C2B0 else if n == 1 then 0xEC63_F226 else if n == 2 then 0x756A_A39C else if n == 3 then 0x026D_930A
    else if n == 4 then 0x9C09_06A9 else if n == 5 then 0xEB0E_363F else if n == 6 then 0x7207_6785 else if n == 7 then 0x0500_5713
    else if n == 8 then 0x95BF_4A82 else if n == 9 then 0xE2B8_7A14 else if n == 10 then 0x7BB1_2BAE else if n == 11 then 0x0CB6_1B38
    else if n == 12 then 0x92D2_8E9B else if n == 13 then 0xE5D5_BE0D else if n == 14 then 0x7CDC_EFB7 else 0x0BDB_DF21
  }

  function Row13(n: bv32): bv32 {
    if n == 0 then 0x86D3_D2D4 else if n == 1 then 0xF1D4_E242 else if n == 2 then 0x68DD_B3F8 else if n == 3 then 0x1FDA_836E
    else if n == 4 then 0x81BE_16CD else if n == 5 then 0xF6B9_265B else if n == 6 then 0x6FB0_77E1 else if n == 7 then 0x18B7_4777
    else if n == 8 then 0x8808_5AE6 else if n == 9 then 0xFF0F_6A70 else if n == 10 then 0x6606_3BCA else if n == 11 then 0x1101_0B5C
    else if n == 12 then 0x8F65_9EFF else if n == 13 then 0xF862_AE69 else if n == 14 then 0x616B_FFD3 else 0x166C_CF45
  }

  function Row14(n: bv32): bv32 {
    if n == 0 then 0xA00A_E278 else if n == 1 then 0xD70D_D2EE else if n == 2 then 0x4E04_8354 else if n == 3 then 0x3903_B3C2
    else if n == 4 then 0xA767_2661 else if n == 5 then 0xD060_16F7 else if n == 6 then 0x4969_474D else if n == 7 then 0x3E6E_77DB
    else if n == 8 then 0xAED1_6A4A else if n == 9 then 0xD9D6_5ADC else if n == 10 then 0x40DF_0B66 else if n == 11 then 0x37D8_3BF0
    else if n == 12 then 0xA9BC_AE53 else if n == 13 then 0xDEBB_9EC5 else if n == 14 then 0x47B2_CF7F else 0x30B5_FFE9
  }

  function Row15(n: bv32): bv32 {
    if n == 0 then 0xBDBD_F21C else if n == 1 then 0xCABA_C28A else if n == 2 then 0x53B3_9330 else if n == 3 then 0x24B4_A3A6
    else if n == 4 then 0xBAD0_3605 else if n == 5 then 0xCDD7_0693 else if n == 6 then 0x54DE_5729 else if n == 7 then 0x23D9_67BF
    else if n == 8 then 0xB366_7A2E else if n == 9 then 0xC461_4AB8 else if n == 10 then 0x5D68_1B02 else if n == 11 then 0x2A6F_2B94
    else if n == 12 then 0xB40B_BE37 else if n == 13 then 0xC30C_8EA1 else if n == 14 then 0x5A05_DF1B else 0x2D02_EF8D
  }

  /** `crc32_tab[x]`. */
  function Table(x: bv32): bv32 {
    var h, n := (x >> 4) & 15, x & 15;
    if h == 0 then Row0(n)
    else if h == 1 then Row1(n)
    else if h == 2 then Row2(n)
    else if h == 3 then Row3(n)
    else if h == 4 then Row4(n)
    else if h == 5 then Row5(n)
    else if h == 6 then Row6(n)
    else if h == 7 then Row7(n)
    else if h == 8 then Row8(n)
    else if h == 9 then Row9(n)
    else if h == 10 then Row10(n)
    else if h == 11 then Row11(n)
    else if h == 12 then Row12(n)
    else if h == 13 then Row13(n)
    else if h == 14 then Row14(n)
    else Row15(n)
  }

  lemma Row0Is(x: bv32)
    requires 0 <= x < 16
    ensures Table(x) == Bits8(x)
  {
    hide Row1, Row2, Row3, Row4, Row5, Row6, Row7, Row8, Row9, Row10, Row11, Row12, Row13, Row14, Row15;
    if x < 8 { assert x == 0 || x == 1 || x == 2 || x == 3 || x == 4 || x == 5 || x == 6 || x == 7; }
  }

  lemma Row1Is(x: bv32)
    requires 16 <= x < 32
    ensures Table(x) == Bits8(x)
  {
    hide Row0, Row2, Row3, Row4, Row5, Row6, Row7, Row8, Row9, Row10, Row11, Row12, Row13, Row14, Row15;
  }

  lemma Row2Is(x: bv32)
    requires 32 <= x < 48
    ensures Table(x) == Bits8(x)
  {
    hide Row0, Row1, Row3, Row4, Row5, Row6, Row7, Row8, Row9, Row10, Row11, Row12, Row13, Row14, Row15;
  }

  lemma Row3Is(x: bv32)
    requires 48 <= x < 64
    ensures Table(x) == Bits8(x)
  {
    hide Row0, Row1, Row2, Row4, Row5, Row6, Row7, Row8, Row9, Row10, Row11, Row12, Row13, Row14, Row15;
  }

  lemma Row4Is(x: bv32)
    requires 64 <= x < 80
    ensures Table(x) == Bits8(x)
  {
    hide Row0, Row1, Row2, Row3, Row5, Row6, Row7, Row8, Row9, Row10, Row11, Row12, Row13, Row14, Row15;
  }

  lemma Row5Is(x: bv32)
    requires 80 <= x < 96
    ensures Table(x) == Bits8(x)
  {
    hide Row0, Row1, Row2, Row3, Row4, Row6, Row7, Row8, Row9, Row10, Row11, Row12, Row13, Row14, Row15;
  }

  lemma Row6Is(x: bv32)
    requires 96 <= x < 112
    ensures Table(x) == Bits8(x)
  {
    hide Row0, Row1, Row2, Row3, Row4, Row5, Row7, Row8, Row9, Row10, Row11, Row12, Row13, Row14, Row15;
  }

  lemma Row7Is(x: bv32)
    requires 112 <= x < 128
    ensures Table(x) == Bits8(x)
  {
    hide Row0, Row1, Row2, Row3, Row4, Row5, Row6, Row8, Row9, Row10, Row11, Row12, Row13, Row14, Row15;
  }

  lemma Row8Is(x: bv32)
    requires 128 <= x < 144
    ensures Table(x) == Bits8(x)
  {
    hide Row0, Row1, Row2, Row3, Row4, Row5, Row6, Row7, Row9, Row10, Row11, Row12, Row13, Row14, Row15;
  }

  lemma Row9Is(x: bv32)
    requires 144 <= x < 160
    ensures Table(x) == Bits8(x)
  {
    hide Row0, Row1, Row2, Row3, Row4, Row5, Row6, Row7, Row8, Row10, Row11, Row12, Row13, Row14, Row15;
  }

  lemma Row10Is(x: bv32)
    requires 160 <= x < 176
    ensures Table(x) == Bits8(x)
  {
    hide Row0, Row1, Row2, Row3, Row4, Row5, Row6, Row7, Row8, Row9, Row11, Row12, Row13, Row14, Row15;
  }

  lemma Row11Is(x: bv32)
    requires 176 <= x < 192
    ensures Table(x) == Bits8(x)
  {
    hide Row0, Row1, Row2, Row3, Row4, Row5, Row6, Row7, Row8, Row9, Row10, Row12, Row13, Row14, Row15;
  }

  lemma Row12Is(x: bv32)
    requires 192 <= x < 208
    ensures Table(x) == Bits8(x)
  {
    hide Row0, Row1, Row2, Row3, Row4, Row5, Row6, Row7, Row8, Row9, Row10, Row11, Row13, Row14, Row15;
  }

  lemma Row13Is(x: bv32)
    requires 208 <= x < 224
    ensures Table(x) == Bits8(x)
  {
    hide Row0, Row1, Row2, Row3, Row4, Row5, Row6, Row7, Row8, Row9, Row10, Row11, Row12, Row14, Row15;
  }

  lemma Row14Is(x: bv32)
    requires 224 <= x < 240
    ensures Table(x) == Bits8(x)
  {
    hide Row0, Row1, Row2, Row3, Row4, Row5, Row6, Row7, Row8, Row9, Row10, Row11, Row12, Row13, Row15;
  }

  lemma Row15Is(x: bv32)
    requires 240 <= x < 256
    ensures Table(x) == Bits8(x)
  {
    hide Row0, Row1, Row2, Row3, Row4, Row5, Row6, Row7, Row8, Row9, Row10, Row11, Row12, Row13, Row14;
  }

  /** Every entry of the table is eight steps of the bitwise definition. */
  lemma TableIs(x: bv32)
    requires x < 256
    ensures Table(x) == Bits8(x)
  {
    hide Table, Bits8;
    if x < 128 {
      if x < 16 { Row0Is(x); } else if x < 32 { Row1Is(x); }
      else if x < 48 { Row2Is(x); } else if x < 64 { Row3Is(x); }
      else if x < 80 { Row4Is(x); } else if x < 96 { Row5Is(x); }
      else if x < 112 { Row6Is(x); } else { Row7Is(x); }
    } else {
      if x < 144 { Row8Is(x); } else if x < 160 { Row9Is(x); }
      else if x < 176 { Row10Is(x); } else if x < 192 { Row11Is(x); }
      else if x < 208 { Row12Is(x); } else if x < 224 { Row13Is(x); }
      else if x < 240 { Row14Is(x); } else { Row15Is(x); }
    }
  }
}
