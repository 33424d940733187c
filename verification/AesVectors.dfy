/** Known answers of FIPS 197 for the functions that the AES classes are proved against: the key expansion
    of appendix A.1 and the cipher example of appendix C.1. */
module AesVectors {
  import opened Blocks
  import opened GaloisField
  import opened AesRounds
  import opened Aes

  // ----- single values -----

  /** XTime, Sum8 and Times with fewer functions between them and the bits, which are quicker to evaluate. */
  function Twice(a: Byte): Byte {
    (a << 1) ^ (if a & 0x80 != 0 then 0x1b else 0)
  }

  function Sum(p0: Byte, p1: Byte, p2: Byte, p3: Byte, p4: Byte, p5: Byte, p6: Byte, p7: Byte): Byte {
    ((p0 ^ p1) ^ (p2 ^ p3)) ^ ((p4 ^ p5) ^ (p6 ^ p7))
  }

  function Mul(a: Byte, b: Byte): Byte {
    var a1 := Twice(a);
    var a2 := Twice(a1);
    var a3 := Twice(a2);
    var a4 := Twice(a3);
    var a5 := Twice(a4);
    var a6 := Twice(a5);
    var a7 := Twice(a6);
    Sum(if b & 0x01 != 0 then a else 0, if b & 0x02 != 0 then a1 else 0, if b & 0x04 != 0 then a2 else 0, if b & 0x08 != 0 then a3 else 0,
        if b & 0x10 != 0 then a4 else 0, if b & 0x20 != 0 then a5 else 0, if b & 0x40 != 0 then a6 else 0, if b & 0x80 != 0 then a7 else 0)
  }

  lemma FourPlus(a: Byte, b: Byte, c: Byte, d: Byte)
    ensures Plus(Plus(a, b), Plus(c, d)) == (a ^ b) ^ (c ^ d)
  {}

  lemma TwoPlus(a: Byte, b: Byte)
    ensures Plus(a, b) == a ^ b
  {}

  lemma SumIsSum8(p0: Byte, p1: Byte, p2: Byte, p3: Byte, p4: Byte, p5: Byte, p6: Byte, p7: Byte)
    ensures Sum(p0, p1, p2, p3, p4, p5, p6, p7) == Sum8(p0, p1, p2, p3, p4, p5, p6, p7)
  {
    FourPlus(p0, p1, p2, p3);
    FourPlus(p4, p5, p6, p7);
    TwoPlus((p0 ^ p1) ^ (p2 ^ p3), (p4 ^ p5) ^ (p6 ^ p7));
    hide Plus;
  }

  lemma TwiceIs(a: Byte)
    ensures Twice(a) == XTime(a)
  {}

  lemma UnfoldSelect(b: Byte, v0: Byte, v1: Byte, v2: Byte, v3: Byte, v4: Byte, v5: Byte, v6: Byte, v7: Byte)
    ensures Select(b, v0, v1, v2, v3, v4, v5, v6, v7)
         == Sum8(if b & 0x01 != 0 then v0 else 0, if b & 0x02 != 0 then v1 else 0, if b & 0x04 != 0 then v2 else 0, if b & 0x08 != 0 then v3 else 0,
                 if b & 0x10 != 0 then v4 else 0, if b & 0x20 != 0 then v5 else 0, if b & 0x40 != 0 then v6 else 0, if b & 0x80 != 0 then v7 else 0)
  {
    hide Sum8;
  }

  lemma MulIsTimes(a: Byte, b: Byte)
    ensures Mul(a, b) == Times(a, b)
  {
    hide Twice, XTime, Sum, Sum8, Select;
    var a1 := XTime(a);
    var a2 := XTime(a1);
    var a3 := XTime(a2);
    var a4 := XTime(a3);
    var a5 := XTime(a4);
    var a6 := XTime(a5);
    TwiceIs(a);
    TwiceIs(a1);
    TwiceIs(a2);
    TwiceIs(a3);
    TwiceIs(a4);
    TwiceIs(a5);
    TwiceIs(a6);
    var a7 := XTime(a6);
    UnfoldSelect(b, a, a1, a2, a3, a4, a5, a6, a7);
    SumIsSum8(if b & 0x01 != 0 then a else 0, if b & 0x02 != 0 then a1 else 0, if b & 0x04 != 0 then a2 else 0, if b & 0x08 != 0 then a3 else 0,
              if b & 0x10 != 0 then a4 else 0, if b & 0x20 != 0 then a5 else 0, if b & 0x40 != 0 then a6 else 0, if b & 0x80 != 0 then a7 else 0);
  }

  /** v is the S-box value of b: undoing the affine map gives the inverse of b. */
  predicate IsSub(b: Byte, v: Byte) {
    Mul(b, InvAffine(v)) == 1 || (b == 0 && v == 0x63)
  }

  lemma InverseIs(b: Byte, w: Byte)
    requires Times(b, w) == 1
    ensures Inverse(b) == w
  {
    hide Times, Inverse;
    if b == 0 { ZeroTimes(w); }
    InverseLaw(b);
    TimesComm(b, Inverse(b));
    TimesAssoc(Inverse(b), b, w);
    OneTimes(w);
    OneTimes(Inverse(b));
    TimesComm(1, Inverse(b));
  }

  lemma SubByteIs(b: Byte, v: Byte)
    requires IsSub(b, v)
    ensures SubByte(b) == v
  {
    assert Affine(0) == 0x63;
    hide Mul, Times, Affine, InvAffine, Inverse;
    AffineInverts(v);
    InverseZero();
    MulIsTimes(b, InvAffine(v));
    if Times(b, InvAffine(v)) == 1 {
      InverseIs(b, InvAffine(v));
    }
  }

  lemma FourAre(b0: Byte, v0: Byte, b1: Byte, v1: Byte, b2: Byte, v2: Byte, b3: Byte, v3: Byte)
    requires IsSub(b0, v0) && IsSub(b1, v1) && IsSub(b2, v2) && IsSub(b3, v3)
    ensures SubByte(b0) == v0 && SubByte(b1) == v1 && SubByte(b2) == v2 && SubByte(b3) == v3
  {
    hide SubByte, IsSub;
    SubByteIs(b0, v0);
    SubByteIs(b1, v1);
    SubByteIs(b2, v2);
    SubByteIs(b3, v3);
  }

  // The S-box of figure 7, row by row.

  lemma Rows0To3()
    ensures SubByte(0x00) == 0x63 && SubByte(0x01) == 0x7c && SubByte(0x02) == 0x77 && SubByte(0x03) == 0x7b
    ensures SubByte(0x04) == 0xf2 && SubByte(0x05) == 0x6b && SubByte(0x06) == 0x6f && SubByte(0x07) == 0xc5
    ensures SubByte(0x08) == 0x30 && SubByte(0x09) == 0x01 && SubByte(0x0a) == 0x67 && SubByte(0x0b) == 0x2b
    ensures SubByte(0x0c) == 0xfe && SubByte(0x0d) == 0xd7 && SubByte(0x0e) == 0xab && SubByte(0x0f) == 0x76
    ensures SubByte(0x10) == 0xca && SubByte(0x11) == 0x82 && SubByte(0x12) == 0xc9 && SubByte(0x13) == 0x7d
    ensures SubByte(0x14) == 0xfa && SubByte(0x15) == 0x59 && SubByte(0x16) == 0x47 && SubByte(0x17) == 0xf0
    ensures SubByte(0x18) == 0xad && SubByte(0x19) == 0xd4 && SubByte(0x1a) == 0xa2 && SubByte(0x1b) == 0xaf
    ensures SubByte(0x1c) == 0x9c && SubByte(0x1d) == 0xa4 && SubByte(0x1e) == 0x72 && SubByte(0x1f) == 0xc0
    ensures SubByte(0x20) == 0xb7 && SubByte(0x21) == 0xfd && SubByte(0x22) == 0x93 && SubByte(0x23) == 0x26
    ensures SubByte(0x24) == 0x36 && SubByte(0x25) == 0x3f && SubByte(0x26) == 0xf7 && SubByte(0x27) == 0xcc
    ensures SubByte(0x28) == 0x34 && SubByte(0x29) == 0xa5 && SubByte(0x2a) == 0xe5 && SubByte(0x2b) == 0xf1
    ensures SubByte(0x2c) == 0x71 && SubByte(0x2d) == 0xd8 && SubByte(0x2e) == 0x31 && SubByte(0x2f) == 0x15
    ensures SubByte(0x30) == 0x04 && SubByte(0x31) == 0xc7 && SubByte(0x32) == 0x23 && SubByte(0x33) == 0xc3
    ensures SubByte(0x34) == 0x18 && SubByte(0x35) == 0x96 && SubByte(0x36) == 0x05 && SubByte(0x37) == 0x9a
    ensures SubByte(0x38) == 0x07 && SubByte(0x39) == 0x12 && SubByte(0x3a) == 0x80 && SubByte(0x3b) == 0xe2
    ensures SubByte(0x3c) == 0xeb && SubByte(0x3d) == 0x27 && SubByte(0x3e) == 0xb2 && SubByte(0x3f) == 0x75
  {
    hide SubByte;
    FourAre(0x00, 0x63, 0x01, 0x7c, 0x02, 0x77, 0x03, 0x7b);
    FourAre(0x04, 0xf2, 0x05, 0x6b, 0x06, 0x6f, 0x07, 0xc5);
    FourAre(0x08, 0x30, 0x09, 0x01, 0x0a, 0x67, 0x0b, 0x2b);
    FourAre(0x0c, 0xfe, 0x0d, 0xd7, 0x0e, 0xab, 0x0f, 0x76);
    FourAre(0x10, 0xca, 0x11, 0x82, 0x12, 0xc9, 0x13, 0x7d);
    FourAre(0x14, 0xfa, 0x15, 0x59, 0x16, 0x47, 0x17, 0xf0);
    FourAre(0x18, 0xad, 0x19, 0xd4, 0x1a, 0xa2, 0x1b, 0xaf);
    FourAre(0x1c, 0x9c, 0x1d, 0xa4, 0x1e, 0x72, 0x1f, 0xc0);
    FourAre(0x20, 0xb7, 0x21, 0xfd, 0x22, 0x93, 0x23, 0x26);
    FourAre(0x24, 0x36, 0x25, 0x3f, 0x26, 0xf7, 0x27, 0xcc);
    FourAre(0x28, 0x34, 0x29, 0xa5, 0x2a, 0xe5, 0x2b, 0xf1);
    FourAre(0x2c, 0x71, 0x2d, 0xd8, 0x2e, 0x31, 0x2f, 0x15);
    FourAre(0x30, 0x04, 0x31, 0xc7, 0x32, 0x23, 0x33, 0xc3);
    FourAre(0x34, 0x18, 0x35, 0x96, 0x36, 0x05, 0x37, 0x9a);
    FourAre(0x38, 0x07, 0x39, 0x12, 0x3a, 0x80, 0x3b, 0xe2);
    FourAre(0x3c, 0xeb, 0x3d, 0x27, 0x3e, 0xb2, 0x3f, 0x75);
  }

  lemma Rows4To7()
    ensures SubByte(0x40) == 0x09 && SubByte(0x41) == 0x83 && SubByte(0x42) == 0x2c && SubByte(0x43) == 0x1a
    ensures SubByte(0x44) == 0x1b && SubByte(0x45) == 0x6e && SubByte(0x46) == 0x5a && SubByte(0x47) == 0xa0
    ensures SubByte(0x48) == 0x52 && SubByte(0x49) == 0x3b && SubByte(0x4a) == 0xd6 && SubByte(0x4b) == 0xb3
    ensures SubByte(0x4c) == 0x29 && SubByte(0x4d) == 0xe3 && SubByte(0x4e) == 0x2f && SubByte(0x4f) == 0x84
    ensures SubByte(0x50) == 0x53 && SubByte(0x51) == 0xd1 && SubByte(0x52) == 0x00 && SubByte(0x53) == 0xed
    ensures SubByte(0x54) == 0x20 && SubByte(0x55) == 0xfc && SubByte(0x56) == 0xb1 && SubByte(0x57) == 0x5b
    ensures SubByte(0x58) == 0x6a && SubByte(0x59) == 0xcb && SubByte(0x5a) == 0xbe && SubByte(0x5b) == 0x39
    ensures SubByte(0x5c) == 0x4a && SubByte(0x5d) == 0x4c && SubByte(0x5e) == 0x58 && SubByte(0x5f) == 0xcf
    ensures SubByte(0x60) == 0xd0 && SubByte(0x61) == 0xef && SubByte(0x62) == 0xaa && SubByte(0x63) == 0xfb
    ensures SubByte(0x64) == 0x43 && SubByte(0x65) == 0x4d && SubByte(0x66) == 0x33 && SubByte(0x67) == 0x85
    ensures SubByte(0x68) == 0x45 && SubByte(0x69) == 0xf9 && SubByte(0x6a) == 0x02 && SubByte(0x6b) == 0x7f
    ensures SubByte(0x6c) == 0x50 && SubByte(0x6d) == 0x3c && SubByte(0x6e) == 0x9f && SubByte(0x6f) == 0xa8
    ensures SubByte(0x70) == 0x51 && SubByte(0x71) == 0xa3 && SubByte(0x72) == 0x40 && SubByte(0x73) == 0x8f
    ensures SubByte(0x74) == 0x92 && SubByte(0x75) == 0x9d && SubByte(0x76) == 0x38 && SubByte(0x77) == 0xf5
    ensures SubByte(0x78) == 0xbc && SubByte(0x79) == 0xb6 && SubByte(0x7a) == 0xda && SubByte(0x7b) == 0x21
    ensures SubByte(0x7c) == 0x10 && SubByte(0x7d) == 0xff && SubByte(0x7e) == 0xf3 && SubByte(0x7f) == 0xd2
  {
    hide SubByte;
    FourAre(0x40, 0x09, 0x41, 0x83, 0x42, 0x2c, 0x43, 0x1a);
    FourAre(0x44, 0x1b, 0x45, 0x6e, 0x46, 0x5a, 0x47, 0xa0);
    FourAre(0x48, 0x52, 0x49, 0x3b, 0x4a, 0xd6, 0x4b, 0xb3);
    FourAre(0x4c, 0x29, 0x4d, 0xe3, 0x4e, 0x2f, 0x4f, 0x84);
    FourAre(0x50, 0x53, 0x51, 0xd1, 0x52, 0x00, 0x53, 0xed);
    FourAre(0x54, 0x20, 0x55, 0xfc, 0x56, 0xb1, 0x57, 0x5b);
    FourAre(0x58, 0x6a, 0x59, 0xcb, 0x5a, 0xbe, 0x5b, 0x39);
    FourAre(0x5c, 0x4a, 0x5d, 0x4c, 0x5e, 0x58, 0x5f, 0xcf);
    FourAre(0x60, 0xd0, 0x61, 0xef, 0x62, 0xaa, 0x63, 0xfb);
    FourAre(0x64, 0x43, 0x65, 0x4d, 0x66, 0x33, 0x67, 0x85);
    FourAre(0x68, 0x45, 0x69, 0xf9, 0x6a, 0x02, 0x6b, 0x7f);
    FourAre(0x6c, 0x50, 0x6d, 0x3c, 0x6e, 0x9f, 0x6f, 0xa8);
    FourAre(0x70, 0x51, 0x71, 0xa3, 0x72, 0x40, 0x73, 0x8f);
    FourAre(0x74, 0x92, 0x75, 0x9d, 0x76, 0x38, 0x77, 0xf5);
    FourAre(0x78, 0xbc, 0x79, 0xb6, 0x7a, 0xda, 0x7b, 0x21);
    FourAre(0x7c, 0x10, 0x7d, 0xff, 0x7e, 0xf3, 0x7f, 0xd2);
  }

  lemma Rows8ToB()
    ensures SubByte(0x80) == 0xcd && SubByte(0x81) == 0x0c && SubByte(0x82) == 0x13 && SubByte(0x83) == 0xec
    ensures SubByte(0x84) == 0x5f && SubByte(0x85) == 0x97 && SubByte(0x86) == 0x44 && SubByte(0x87) == 0x17
    ensures SubByte(0x88) == 0xc4 && SubByte(0x89) == 0xa7 && SubByte(0x8a) == 0x7e && SubByte(0x8b) == 0x3d
    ensures SubByte(0x8c) == 0x64 && SubByte(0x8d) == 0x5d && SubByte(0x8e) == 0x19 && SubByte(0x8f) == 0x73
    ensures SubByte(0x90) == 0x60 && SubByte(0x91) == 0x81 && SubByte(0x92) == 0x4f && SubByte(0x93) == 0xdc
    ensures SubByte(0x94) == 0x22 && SubByte(0x95) == 0x2a && SubByte(0x96) == 0x90 && SubByte(0x97) == 0x88
    ensures SubByte(0x98) == 0x46 && SubByte(0x99) == 0xee && SubByte(0x9a) == 0xb8 && SubByte(0x9b) == 0x14
    ensures SubByte(0x9c) == 0xde && SubByte(0x9d) == 0x5e && SubByte(0x9e) == 0x0b && SubByte(0x9f) == 0xdb
    ensures SubByte(0xa0) == 0xe0 && SubByte(0xa1) == 0x32 && SubByte(0xa2) == 0x3a && SubByte(0xa3) == 0x0a
    ensures SubByte(0xa4) == 0x49 && SubByte(0xa5) == 0x06 && SubByte(0xa6) == 0x24 && SubByte(0xa7) == 0x5c
    ensures SubByte(0xa8) == 0xc2 && SubByte(0xa9) == 0xd3 && SubByte(0xaa) == 0xac && SubByte(0xab) == 0x62
    ensures SubByte(0xac) == 0x91 && SubByte(0xad) == 0x95 && SubByte(0xae) == 0xe4 && SubByte(0xaf) == 0x79
    ensures SubByte(0xb0) == 0xe7 && SubByte(0xb1) == 0xc8 && SubByte(0xb2) == 0x37 && SubByte(0xb3) == 0x6d
    ensures SubByte(0xb4) == 0x8d && SubByte(0xb5) == 0xd5 && SubByte(0xb6) == 0x4e && SubByte(0xb7) == 0xa9
    ensures SubByte(0xb8) == 0x6c && SubByte(0xb9) == 0x56 && SubByte(0xba) == 0xf4 && SubByte(0xbb) == 0xea
    ensures SubByte(0xbc) == 0x65 && SubByte(0xbd) == 0x7a && SubByte(0xbe) == 0xae && SubByte(0xbf) == 0x08
  {
    hide SubByte;
    FourAre(0x80, 0xcd, 0x81, 0x0c, 0x82, 0x13, 0x83, 0xec);
    FourAre(0x84, 0x5f, 0x85, 0x97, 0x86, 0x44, 0x87, 0x17);
    FourAre(0x88, 0xc4, 0x89, 0xa7, 0x8a, 0x7e, 0x8b, 0x3d);
    FourAre(0x8c, 0x64, 0x8d, 0x5d, 0x8e, 0x19, 0x8f, 0x73);
    FourAre(0x90, 0x60, 0x91, 0x81, 0x92, 0x4f, 0x93, 0xdc);
    FourAre(0x94, 0x22, 0x95, 0x2a, 0x96, 0x90, 0x97, 0x88);
    FourAre(0x98, 0x46, 0x99, 0xee, 0x9a, 0xb8, 0x9b, 0x14);
    FourAre(0x9c, 0xde, 0x9d, 0x5e, 0x9e, 0x0b, 0x9f, 0xdb);
    FourAre(0xa0, 0xe0, 0xa1, 0x32, 0xa2, 0x3a, 0xa3, 0x0a);
    FourAre(0xa4, 0x49, 0xa5, 0x06, 0xa6, 0x24, 0xa7, 0x5c);
    FourAre(0xa8, 0xc2, 0xa9, 0xd3, 0xaa, 0xac, 0xab, 0x62);
    FourAre(0xac, 0x91, 0xad, 0x95, 0xae, 0xe4, 0xaf, 0x79);
    FourAre(0xb0, 0xe7, 0xb1, 0xc8, 0xb2, 0x37, 0xb3, 0x6d);
    FourAre(0xb4, 0x8d, 0xb5, 0xd5, 0xb6, 0x4e, 0xb7, 0xa9);
    FourAre(0xb8, 0x6c, 0xb9, 0x56, 0xba, 0xf4, 0xbb, 0xea);
    FourAre(0xbc, 0x65, 0xbd, 0x7a, 0xbe, 0xae, 0xbf, 0x08);
  }

  lemma RowsCToF()
    ensures SubByte(0xc0) == 0xba && SubByte(0xc1) == 0x78 && SubByte(0xc2) == 0x25 && SubByte(0xc3) == 0x2e
    ensures SubByte(0xc4) == 0x1c && SubByte(0xc5) == 0xa6 && SubByte(0xc6) == 0xb4 && SubByte(0xc7) == 0xc6
    ensures SubByte(0xc8) == 0xe8 && SubByte(0xc9) == 0xdd && SubByte(0xca) == 0x74 && SubByte(0xcb) == 0x1f
    ensures SubByte(0xcc) == 0x4b && SubByte(0xcd) == 0xbd && SubByte(0xce) == 0x8b && SubByte(0xcf) == 0x8a
    ensures SubByte(0xd0) == 0x70 && SubByte(0xd1) == 0x3e && SubByte(0xd2) == 0xb5 && SubByte(0xd3) == 0x66
    ensures SubByte(0xd4) == 0x48 && SubByte(0xd5) == 0x03 && SubByte(0xd6) == 0xf6 && SubByte(0xd7) == 0x0e
    ensures SubByte(0xd8) == 0x61 && SubByte(0xd9) == 0x35 && SubByte(0xda) == 0x57 && SubByte(0xdb) == 0xb9
    ensures SubByte(0xdc) == 0x86 && SubByte(0xdd) == 0xc1 && SubByte(0xde) == 0x1d && SubByte(0xdf) == 0x9e
    ensures SubByte(0xe0) == 0xe1 && SubByte(0xe1) == 0xf8 && SubByte(0xe2) == 0x98 && SubByte(0xe3) == 0x11
    ensures SubByte(0xe4) == 0x69 && SubByte(0xe5) == 0xd9 && SubByte(0xe6) == 0x8e && SubByte(0xe7) == 0x94
    ensures SubByte(0xe8) == 0x9b && SubByte(0xe9) == 0x1e && SubByte(0xea) == 0x87 && SubByte(0xeb) == 0xe9
    ensures SubByte(0xec) == 0xce && SubByte(0xed) == 0x55 && SubByte(0xee) == 0x28 && SubByte(0xef) == 0xdf
    ensures SubByte(0xf0) == 0x8c && SubByte(0xf1) == 0xa1 && SubByte(0xf2) == 0x89 && SubByte(0xf3) == 0x0d
    ensures SubByte(0xf4) == 0xbf && SubByte(0xf5) == 0xe6 && SubByte(0xf6) == 0x42 && SubByte(0xf7) == 0x68
    ensures SubByte(0xf8) == 0x41 && SubByte(0xf9) == 0x99 && SubByte(0xfa) == 0x2d && SubByte(0xfb) == 0x0f
    ensures SubByte(0xfc) == 0xb0 && SubByte(0xfd) == 0x54 && SubByte(0xfe) == 0xbb && SubByte(0xff) == 0x16
  {
    hide SubByte;
    FourAre(0xc0, 0xba, 0xc1, 0x78, 0xc2, 0x25, 0xc3, 0x2e);
    FourAre(0xc4, 0x1c, 0xc5, 0xa6, 0xc6, 0xb4, 0xc7, 0xc6);
    FourAre(0xc8, 0xe8, 0xc9, 0xdd, 0xca, 0x74, 0xcb, 0x1f);
    FourAre(0xcc, 0x4b, 0xcd, 0xbd, 0xce, 0x8b, 0xcf, 0x8a);
    FourAre(0xd0, 0x70, 0xd1, 0x3e, 0xd2, 0xb5, 0xd3, 0x66);
    FourAre(0xd4, 0x48, 0xd5, 0x03, 0xd6, 0xf6, 0xd7, 0x0e);
    FourAre(0xd8, 0x61, 0xd9, 0x35, 0xda, 0x57, 0xdb, 0xb9);
    FourAre(0xdc, 0x86, 0xdd, 0xc1, 0xde, 0x1d, 0xdf, 0x9e);
    FourAre(0xe0, 0xe1, 0xe1, 0xf8, 0xe2, 0x98, 0xe3, 0x11);
    FourAre(0xe4, 0x69, 0xe5, 0xd9, 0xe6, 0x8e, 0xe7, 0x94);
    FourAre(0xe8, 0x9b, 0xe9, 0x1e, 0xea, 0x87, 0xeb, 0xe9);
    FourAre(0xec, 0xce, 0xed, 0x55, 0xee, 0x28, 0xef, 0xdf);
    FourAre(0xf0, 0x8c, 0xf1, 0xa1, 0xf2, 0x89, 0xf3, 0x0d);
    FourAre(0xf4, 0xbf, 0xf5, 0xe6, 0xf6, 0x42, 0xf7, 0x68);
    FourAre(0xf8, 0x41, 0xf9, 0x99, 0xfa, 0x2d, 0xfb, 0x0f);
    FourAre(0xfc, 0xb0, 0xfd, 0x54, 0xfe, 0xbb, 0xff, 0x16);
  }

  /** Where RotWord and ShiftRows take each byte, sections 5.2 and 5.1.2. */
  lemma BytesMove(w: Word, s: Block)
    ensures RotWord(w) == [w[1], w[2], w[3], w[0]]
    ensures ShiftRows(s) == [s[0], s[5], s[10], s[15], s[4], s[9], s[14], s[3], s[8], s[13], s[2], s[7], s[12], s[1], s[6], s[11]]
  {}

  // ----- the steps byte by byte -----

  predicate SameBytes(a: Block, b: Block) {
    && a[0] == b[0] && a[1] == b[1] && a[2] == b[2] && a[3] == b[3] && a[4] == b[4] && a[5] == b[5] && a[6] == b[6] && a[7] == b[7]
    && a[8] == b[8] && a[9] == b[9] && a[10] == b[10] && a[11] == b[11] && a[12] == b[12] && a[13] == b[13] && a[14] == b[14] && a[15] == b[15]
  }

  lemma SameBlock(a: Block, b: Block)
    requires SameBytes(a, b)
    ensures a == b
  {
    forall i | 0 <= i < 16 ensures a[i] == b[i] {
    }
  }

  /** a is what the S-box and the row shift make of the state s. */
  predicate IsSubbed(s: Block, a: Block) {
    && SubByte(s[0]) == a[0] && SubByte(s[5]) == a[1] && SubByte(s[10]) == a[2] && SubByte(s[15]) == a[3]
    && SubByte(s[4]) == a[4] && SubByte(s[9]) == a[5] && SubByte(s[14]) == a[6] && SubByte(s[3]) == a[7]
    && SubByte(s[8]) == a[8] && SubByte(s[13]) == a[9] && SubByte(s[2]) == a[10] && SubByte(s[7]) == a[11]
    && SubByte(s[12]) == a[12] && SubByte(s[1]) == a[13] && SubByte(s[6]) == a[14] && SubByte(s[11]) == a[15]
  }

  lemma SubbedAt(s: Block, i: nat, j: nat)
    requires i < 16 && j == (i + 4 * (i % 4)) % 16
    ensures SubBytes(ShiftRows(s))[i] == SubByte(s[j])
  {
    hide SubByte;
  }

  lemma SubbedIs(s: Block, a: Block)
    requires IsSubbed(s, a)
    ensures SubBytes(ShiftRows(s)) == a
  {
    hide SubByte, SubBytes, ShiftRows;
    SubbedAt(s, 0, 0);
    SubbedAt(s, 1, 5);
    SubbedAt(s, 2, 10);
    SubbedAt(s, 3, 15);
    SubbedAt(s, 4, 4);
    SubbedAt(s, 5, 9);
    SubbedAt(s, 6, 14);
    SubbedAt(s, 7, 3);
    SubbedAt(s, 8, 8);
    SubbedAt(s, 9, 13);
    SubbedAt(s, 10, 2);
    SubbedAt(s, 11, 7);
    SubbedAt(s, 12, 12);
    SubbedAt(s, 13, 1);
    SubbedAt(s, 14, 6);
    SubbedAt(s, 15, 11);
    SameBlock(SubBytes(ShiftRows(s)), a);
  }

  /** MixByte without products: twice the first byte, three times the second, and the other two. */
  function Mixed(a0: Byte, a1: Byte, a2: Byte, a3: Byte): Byte {
    (Twice(a0) ^ (a1 ^ Twice(a1))) ^ (a2 ^ a3)
  }

  lemma MixedSum(a0: Byte, a1: Byte, a2: Byte, a3: Byte)
    ensures Mixed(a0, a1, a2, a3) == Plus(Plus(Twice(a0), Plus(a1, Twice(a1))), Plus(a2, a3))
  {
    hide Twice;
  }

  lemma MixByteIs(a0: Byte, a1: Byte, a2: Byte, a3: Byte)
    ensures MixByte(a0, a1, a2, a3) == Mixed(a0, a1, a2, a3)
  {
    assert Plus(1, 2) == 3 && XTime(1) == 2;
    MixedSum(a0, a1, a2, a3);
    TwiceIs(a0);
    TwiceIs(a1);
    hide Times, Plus, XTime, Twice, Mixed;
    OneTimes(a0);
    OneTimes(a1);
    OneTimes(a2);
    OneTimes(a3);
    XTimeTimes(1, a0);
    XTimeTimes(1, a1);
    PlusTimes(1, 2, a1);
  }

  /** t is what the column mixing and the round key k make of a, column by column. */
  predicate IsMixed(a: Block, k: Block, t: Block) {
    && MixesTo(a[0], a[1], a[2], a[3], k[0], k[1], k[2], k[3], t[0], t[1], t[2], t[3])
    && MixesTo(a[4], a[5], a[6], a[7], k[4], k[5], k[6], k[7], t[4], t[5], t[6], t[7])
    && MixesTo(a[8], a[9], a[10], a[11], k[8], k[9], k[10], k[11], t[8], t[9], t[10], t[11])
    && MixesTo(a[12], a[13], a[14], a[15], k[12], k[13], k[14], k[15], t[12], t[13], t[14], t[15])
  }

  predicate MixesTo(a0: Byte, a1: Byte, a2: Byte, a3: Byte, k0: Byte, k1: Byte, k2: Byte, k3: Byte, t0: Byte, t1: Byte, t2: Byte, t3: Byte) {
    && Plus(Mixed(a0, a1, a2, a3), k0) == t0
    && Plus(Mixed(a1, a2, a3, a0), k1) == t1
    && Plus(Mixed(a2, a3, a0, a1), k2) == t2
    && Plus(Mixed(a3, a0, a1, a2), k3) == t3
  }

  lemma MixedAt(a: Block, k: Block, i: nat, i1: nat, i2: nat, i3: nat)
    requires i < 16 && i1 == Below(i, 1) && i2 == Below(i, 2) && i3 == Below(i, 3)
    ensures Xor(MixColumns(a), k)[i] == Plus(Mixed(a[i], a[i1], a[i2], a[i3]), k[i])
  {
    MixByteIs(a[i], a[i1], a[i2], a[i3]);
    hide MixByte, Below, Mixed;
  }

  lemma BelowAt(c: nat, r: nat, j: nat)
    requires c < 4 && r < 4 && j < 4
    ensures Below(4 * c + r, j) == if r + j < 4 then 4 * c + (r + j) else 4 * c + (r + j - 4)
  {
    assert (4 * c + r) / 4 == c && (4 * c + r) % 4 == r;
  }

  lemma ColumnAt(a: Block, k: Block, c: nat, i: nat)
    requires c < 4 && i == 4 * c
    ensures var x := Xor(MixColumns(a), k);
            && x[i] == Plus(Mixed(a[i], a[i + 1], a[i + 2], a[i + 3]), k[i])
            && x[i + 1] == Plus(Mixed(a[i + 1], a[i + 2], a[i + 3], a[i]), k[i + 1])
            && x[i + 2] == Plus(Mixed(a[i + 2], a[i + 3], a[i], a[i + 1]), k[i + 2])
            && x[i + 3] == Plus(Mixed(a[i + 3], a[i], a[i + 1], a[i + 2]), k[i + 3])
  {
    hide Below, Xor, MixColumns, Plus, Mixed;
    BelowAt(c, 0, 1);
    BelowAt(c, 0, 2);
    BelowAt(c, 0, 3);
    BelowAt(c, 1, 1);
    BelowAt(c, 1, 2);
    BelowAt(c, 1, 3);
    BelowAt(c, 2, 1);
    BelowAt(c, 2, 2);
    BelowAt(c, 2, 3);
    BelowAt(c, 3, 1);
    BelowAt(c, 3, 2);
    BelowAt(c, 3, 3);
    MixedAt(a, k, i, i + 1, i + 2, i + 3);
    MixedAt(a, k, i + 1, i + 2, i + 3, i);
    MixedAt(a, k, i + 2, i + 3, i, i + 1);
    MixedAt(a, k, i + 3, i, i + 1, i + 2);
  }

  lemma ColumnIs(a: Block, k: Block, t: Block, c: nat, i: nat)
    requires c < 4 && i == 4 * c
    requires MixesTo(a[i], a[i + 1], a[i + 2], a[i + 3], k[i], k[i + 1], k[i + 2], k[i + 3], t[i], t[i + 1], t[i + 2], t[i + 3])
    ensures var x := Xor(MixColumns(a), k); x[i] == t[i] && x[i + 1] == t[i + 1] && x[i + 2] == t[i + 2] && x[i + 3] == t[i + 3]
  {
    hide Xor, MixColumns, Plus, Mixed;
    ColumnAt(a, k, c, i);
  }

  lemma MixedIs(a: Block, k: Block, t: Block)
    requires IsMixed(a, k, t)
    ensures Xor(MixColumns(a), k) == t
  {
    hide Xor, MixColumns, MixesTo;
    ColumnIs(a, k, t, 0, 0);
    ColumnIs(a, k, t, 1, 4);
    ColumnIs(a, k, t, 2, 8);
    ColumnIs(a, k, t, 3, 12);
    SameBlock(Xor(MixColumns(a), k), t);
  }

  lemma RoundIs(s: Block, k: Block, a: Block, t: Block)
    requires IsSubbed(s, a) && IsMixed(a, k, t)
    ensures AesEnc(s, k) == t
  {
    hide IsSubbed, IsMixed, SubBytes, ShiftRows, Xor, MixColumns;
    SubbedIs(s, a);
    MixedIs(a, k, t);
  }

  lemma LastRoundIs(s: Block, k: Block, a: Block, t: Block)
    requires IsSubbed(s, a) && IsSum(a, k, t)
    ensures AesEncLast(s, k) == t
  {
    hide IsSubbed, IsSum, SubBytes, ShiftRows, Xor;
    SubbedIs(s, a);
    SumIs(a, k, t);
  }

  /** t is a plus the round key k. */
  predicate IsSum(a: Block, k: Block, t: Block) {
    && Plus(a[0], k[0]) == t[0] && Plus(a[1], k[1]) == t[1] && Plus(a[2], k[2]) == t[2] && Plus(a[3], k[3]) == t[3]
    && Plus(a[4], k[4]) == t[4] && Plus(a[5], k[5]) == t[5] && Plus(a[6], k[6]) == t[6] && Plus(a[7], k[7]) == t[7]
    && Plus(a[8], k[8]) == t[8] && Plus(a[9], k[9]) == t[9] && Plus(a[10], k[10]) == t[10] && Plus(a[11], k[11]) == t[11]
    && Plus(a[12], k[12]) == t[12] && Plus(a[13], k[13]) == t[13] && Plus(a[14], k[14]) == t[14] && Plus(a[15], k[15]) == t[15]
  }

  lemma XorAt(a: Block, b: Block, i: nat)
    requires i < 16
    ensures Xor(a, b)[i] == Plus(a[i], b[i])
  {}

  lemma SumIs(a: Block, k: Block, t: Block)
    requires IsSum(a, k, t)
    ensures Xor(a, k) == t
  {
    forall i | 0 <= i < 16 ensures Xor(a, k)[i] == Plus(a[i], k[i]) {
      XorAt(a, k, i);
    }
    hide Xor, Plus;
    SameBlock(Xor(a, k), t);
  }

  // ----- one step of the key expansion -----

  /** The word (k0, ..., k3) plus the word (w0, ..., w3) is (n0, ..., n3). */
  predicate WordAdds(k0: Byte, k1: Byte, k2: Byte, k3: Byte, w0: Byte, w1: Byte, w2: Byte, w3: Byte, n0: Byte, n1: Byte, n2: Byte, n3: Byte) {
    Plus(k0, w0) == n0 && Plus(k1, w1) == n1 && Plus(k2, w2) == n2 && Plus(k3, w3) == n3
  }

  lemma XorWordAt(v: Word, w: Word, i: nat)
    requires i < 4
    ensures XorWord(v, w)[i] == Plus(v[i], w[i])
  {}

  lemma SameWord(v: Word, w: Word)
    requires v[0] == w[0] && v[1] == w[1] && v[2] == w[2] && v[3] == w[3]
    ensures v == w
  {
    forall i | 0 <= i < 4 ensures v[i] == w[i] {
    }
  }

  lemma WordAt(b: Block, j: nat, i: nat)
    requires j < 4 && i < 4
    ensures WordOf(b, j)[i] == b[4 * j + i]
  {}

  lemma WordIs(v: Word, w: Word, n: Word)
    requires WordAdds(v[0], v[1], v[2], v[3], w[0], w[1], w[2], w[3], n[0], n[1], n[2], n[3])
    ensures XorWord(v, w) == n
  {
    XorWordAt(v, w, 0);
    XorWordAt(v, w, 1);
    XorWordAt(v, w, 2);
    XorWordAt(v, w, 3);
    hide XorWord, Plus;
    SameWord(XorWord(v, w), n);
  }

  /** The sixteen bytes of the next round key; t is what the S-box makes of the rotated last word. */
  predicate IsNext(key: Block, rcon: Byte, t: Word, next: Block) {
    && SubByte(key[13]) == t[0] && SubByte(key[14]) == t[1] && SubByte(key[15]) == t[2] && SubByte(key[12]) == t[3]
    && WordAdds(key[0], key[1], key[2], key[3], Plus(t[0], rcon), t[1], t[2], t[3], next[0], next[1], next[2], next[3])
    && WordAdds(key[4], key[5], key[6], key[7], next[0], next[1], next[2], next[3], next[4], next[5], next[6], next[7])
    && WordAdds(key[8], key[9], key[10], key[11], next[4], next[5], next[6], next[7], next[8], next[9], next[10], next[11])
    && WordAdds(key[12], key[13], key[14], key[15], next[8], next[9], next[10], next[11], next[12], next[13], next[14], next[15])
  }

  lemma SubWordAt(w: Word, i: nat)
    requires i < 4
    ensures SubWord(w)[i] == SubByte(w[i])
  {
    hide SubByte;
  }

  lemma AddRcon(t: Word, rcon: Byte)
    ensures XorWord(t, Rcon(rcon)) == [Plus(t[0], rcon), t[1], t[2], t[3]]
  {
    PlusLaws(t[1], 0, 0);
    PlusLaws(t[2], 0, 0);
    PlusLaws(t[3], 0, 0);
    hide Plus;
    WordIs(t, Rcon(rcon), [Plus(t[0], rcon), t[1], t[2], t[3]]);
  }

  lemma KeyWord(key: Block, j: nat, w: Word, next: Block)
    requires j < 4
    requires WordAdds(key[4 * j], key[4 * j + 1], key[4 * j + 2], key[4 * j + 3], w[0], w[1], w[2], w[3],
                      next[4 * j], next[4 * j + 1], next[4 * j + 2], next[4 * j + 3])
    ensures XorWord(WordOf(key, j), w) == WordOf(next, j)
  {
    hide Plus, WordOf, XorWord, WordAdds;
    WordAt(key, j, 0);
    WordAt(key, j, 1);
    WordAt(key, j, 2);
    WordAt(key, j, 3);
    WordAt(next, j, 0);
    WordAt(next, j, 1);
    WordAt(next, j, 2);
    WordAt(next, j, 3);
    WordIs(WordOf(key, j), w, WordOf(next, j));
  }

  lemma NextIs(key: Block, rcon: Byte, t: Word, next: Block)
    requires IsNext(key, rcon, t, next)
    ensures NextRoundKey(key, rcon) == next
  {
    hide SubByte, XorWord, SubWord, Rcon, WordAdds, Plus, Words, WordOf;
    assert SubWord(RotWord(WordOf(key, 3))) == t by {
      WordAt(key, 3, 0);
      WordAt(key, 3, 1);
      WordAt(key, 3, 2);
      WordAt(key, 3, 3);
      var r := RotWord(WordOf(key, 3));
      SubWordAt(r, 0);
      SubWordAt(r, 1);
      SubWordAt(r, 2);
      SubWordAt(r, 3);
      SameWord(SubWord(r), t);
    }
    AddRcon(t, rcon);
    WordAt(next, 0, 0);
    WordAt(next, 0, 1);
    WordAt(next, 0, 2);
    WordAt(next, 0, 3);
    WordAt(next, 1, 0);
    WordAt(next, 1, 1);
    WordAt(next, 1, 2);
    WordAt(next, 1, 3);
    WordAt(next, 2, 0);
    WordAt(next, 2, 1);
    WordAt(next, 2, 2);
    WordAt(next, 2, 3);
    KeyWord(key, 0, [Plus(t[0], rcon), t[1], t[2], t[3]], next);
    KeyWord(key, 1, WordOf(next, 0), next);
    KeyWord(key, 2, WordOf(next, 1), next);
    KeyWord(key, 3, WordOf(next, 2), next);
    WordsOf(next);
  }
  // ----- appendix A.1: the expansion of a key -----

  const A0: Block := [0x2b, 0x7e, 0x15, 0x16, 0x28, 0xae, 0xd2, 0xa6, 0xab, 0xf7, 0x15, 0x88, 0x09, 0xcf, 0x4f, 0x3c]
  const A1: Block := [0xa0, 0xfa, 0xfe, 0x17, 0x88, 0x54, 0x2c, 0xb1, 0x23, 0xa3, 0x39, 0x39, 0x2a, 0x6c, 0x76, 0x05]
  const A2: Block := [0xf2, 0xc2, 0x95, 0xf2, 0x7a, 0x96, 0xb9, 0x43, 0x59, 0x35, 0x80, 0x7a, 0x73, 0x59, 0xf6, 0x7f]
  const A3: Block := [0x3d, 0x80, 0x47, 0x7d, 0x47, 0x16, 0xfe, 0x3e, 0x1e, 0x23, 0x7e, 0x44, 0x6d, 0x7a, 0x88, 0x3b]
  const A4: Block := [0xef, 0x44, 0xa5, 0x41, 0xa8, 0x52, 0x5b, 0x7f, 0xb6, 0x71, 0x25, 0x3b, 0xdb, 0x0b, 0xad, 0x00]
  const A5: Block := [0xd4, 0xd1, 0xc6, 0xf8, 0x7c, 0x83, 0x9d, 0x87, 0xca, 0xf2, 0xb8, 0xbc, 0x11, 0xf9, 0x15, 0xbc]
  const A6: Block := [0x6d, 0x88, 0xa3, 0x7a, 0x11, 0x0b, 0x3e, 0xfd, 0xdb, 0xf9, 0x86, 0x41, 0xca, 0x00, 0x93, 0xfd]
  const A7: Block := [0x4e, 0x54, 0xf7, 0x0e, 0x5f, 0x5f, 0xc9, 0xf3, 0x84, 0xa6, 0x4f, 0xb2, 0x4e, 0xa6, 0xdc, 0x4f]
  const A8: Block := [0xea, 0xd2, 0x73, 0x21, 0xb5, 0x8d, 0xba, 0xd2, 0x31, 0x2b, 0xf5, 0x60, 0x7f, 0x8d, 0x29, 0x2f]
  const A9: Block := [0xac, 0x77, 0x66, 0xf3, 0x19, 0xfa, 0xdc, 0x21, 0x28, 0xd1, 0x29, 0x41, 0x57, 0x5c, 0x00, 0x6e]
  const A10: Block := [0xd0, 0x14, 0xf9, 0xa8, 0xc9, 0xee, 0x25, 0x89, 0xe1, 0x3f, 0x0c, 0xc8, 0xb6, 0x63, 0x0c, 0xa6]

  lemma StepsA1()
    ensures NextRoundKey(A0, 0x01) == A1
    ensures NextRoundKey(A1, 0x02) == A2
    ensures NextRoundKey(A2, 0x04) == A3
  {
    hide SubByte, NextRoundKey;
    Rows0To3();
    Rows4To7();
    RowsCToF();
    NextIs(A0, 0x01, [0x8a, 0x84, 0xeb, 0x01], A1);
    NextIs(A1, 0x02, [0x50, 0x38, 0x6b, 0xe5], A2);
    NextIs(A2, 0x04, [0xcb, 0x42, 0xd2, 0x8f], A3);
  }

  lemma StepsA4()
    ensures NextRoundKey(A3, 0x08) == A4
    ensures NextRoundKey(A4, 0x10) == A5
    ensures NextRoundKey(A5, 0x20) == A6
  {
    hide SubByte, NextRoundKey;
    Rows0To3();
    Rows4To7();
    Rows8ToB();
    RowsCToF();
    NextIs(A3, 0x08, [0xda, 0xc4, 0xe2, 0x3c], A4);
    NextIs(A4, 0x10, [0x2b, 0x95, 0x63, 0xb9], A5);
    NextIs(A5, 0x20, [0x99, 0x59, 0x65, 0x82], A6);
  }

  lemma StepsA7()
    ensures NextRoundKey(A6, 0x40) == A7
    ensures NextRoundKey(A7, 0x80) == A8
    ensures NextRoundKey(A8, 0x1b) == A9
    ensures NextRoundKey(A9, 0x36) == A10
  {
    hide SubByte, NextRoundKey;
    Rows0To3();
    Rows4To7();
    Rows8ToB();
    RowsCToF();
    NextIs(A6, 0x40, [0x63, 0xdc, 0x54, 0x74], A7);
    NextIs(A7, 0x80, [0x24, 0x86, 0x84, 0x2f], A8);
    NextIs(A8, 0x1b, [0x5d, 0xa5, 0x15, 0xd2], A9);
    NextIs(A9, 0x36, [0x4a, 0x63, 0x9f, 0x5b], A10);
  }

  /** A list that starts with the key and goes on by steps of the key expansion is its schedule. */
  lemma ScheduleIs(key: Block, ks: KeySchedule)
    requires ks[0] == key
    requires forall r :: 1 <= r <= 10 ==> NextRoundKey(ks[r - 1], RoundConstant(r)) == ks[r]
    ensures Schedule(key) == ks
  {
    hide NextRoundKey, RoundConstant;
    for r := 0 to 11
      invariant forall i :: 0 <= i < r ==> RoundKey(key, i) == ks[i]
    {
    }
  }

  /** The schedule of the key 2b7e151628aed2a6abf7158809cf4f3c. */
  lemma ExpansionA()
    ensures Schedule(A0) == [A0, A1, A2, A3, A4, A5, A6, A7, A8, A9, A10]
  {
    RoundConstants();
    StepsA1();
    StepsA4();
    StepsA7();
    hide NextRoundKey, RoundConstant;
    ScheduleIs(A0, [A0, A1, A2, A3, A4, A5, A6, A7, A8, A9, A10]);
  }

  // ----- appendix C.1: the encryption of a block -----

  const K0: Block := [0x00, 0x01, 0x02, 0x03, 0x04, 0x05, 0x06, 0x07, 0x08, 0x09, 0x0a, 0x0b, 0x0c, 0x0d, 0x0e, 0x0f]
  const K1: Block := [0xd6, 0xaa, 0x74, 0xfd, 0xd2, 0xaf, 0x72, 0xfa, 0xda, 0xa6, 0x78, 0xf1, 0xd6, 0xab, 0x76, 0xfe]
  const K2: Block := [0xb6, 0x92, 0xcf, 0x0b, 0x64, 0x3d, 0xbd, 0xf1, 0xbe, 0x9b, 0xc5, 0x00, 0x68, 0x30, 0xb3, 0xfe]
  const K3: Block := [0xb6, 0xff, 0x74, 0x4e, 0xd2, 0xc2, 0xc9, 0xbf, 0x6c, 0x59, 0x0c, 0xbf, 0x04, 0x69, 0xbf, 0x41]
  const K4: Block := [0x47, 0xf7, 0xf7, 0xbc, 0x95, 0x35, 0x3e, 0x03, 0xf9, 0x6c, 0x32, 0xbc, 0xfd, 0x05, 0x8d, 0xfd]
  const K5: Block := [0x3c, 0xaa, 0xa3, 0xe8, 0xa9, 0x9f, 0x9d, 0xeb, 0x50, 0xf3, 0xaf, 0x57, 0xad, 0xf6, 0x22, 0xaa]
  const K6: Block := [0x5e, 0x39, 0x0f, 0x7d, 0xf7, 0xa6, 0x92, 0x96, 0xa7, 0x55, 0x3d, 0xc1, 0x0a, 0xa3, 0x1f, 0x6b]
  const K7: Block := [0x14, 0xf9, 0x70, 0x1a, 0xe3, 0x5f, 0xe2, 0x8c, 0x44, 0x0a, 0xdf, 0x4d, 0x4e, 0xa9, 0xc0, 0x26]
  const K8: Block := [0x47, 0x43, 0x87, 0x35, 0xa4, 0x1c, 0x65, 0xb9, 0xe0, 0x16, 0xba, 0xf4, 0xae, 0xbf, 0x7a, 0xd2]
  const K9: Block := [0x54, 0x99, 0x32, 0xd1, 0xf0, 0x85, 0x57, 0x68, 0x10, 0x93, 0xed, 0x9c, 0xbe, 0x2c, 0x97, 0x4e]
  const K10: Block := [0x13, 0x11, 0x1d, 0x7f, 0xe3, 0x94, 0x4a, 0x17, 0xf3, 0x07, 0xa7, 0x8b, 0x4d, 0x2b, 0x30, 0xc5]

  lemma StepsK1()
    ensures NextRoundKey(K0, 0x01) == K1
    ensures NextRoundKey(K1, 0x02) == K2
    ensures NextRoundKey(K2, 0x04) == K3
  {
    hide SubByte, NextRoundKey;
    Rows0To3();
    Rows4To7();
    Rows8ToB();
    RowsCToF();
    NextIs(K0, 0x01, [0xd7, 0xab, 0x76, 0xfe], K1);
    NextIs(K1, 0x02, [0x62, 0x38, 0xbb, 0xf6], K2);
    NextIs(K2, 0x04, [0x04, 0x6d, 0xbb, 0x45], K3);
  }

  lemma StepsK4()
    ensures NextRoundKey(K3, 0x08) == K4
    ensures NextRoundKey(K4, 0x10) == K5
    ensures NextRoundKey(K5, 0x20) == K6
  {
    hide SubByte, NextRoundKey;
    Rows0To3();
    Rows4To7();
    Rows8ToB();
    RowsCToF();
    NextIs(K3, 0x08, [0xf9, 0x08, 0x83, 0xf2], K4);
    NextIs(K4, 0x10, [0x6b, 0x5d, 0x54, 0x54], K5);
    NextIs(K5, 0x20, [0x42, 0x93, 0xac, 0x95], K6);
  }

  lemma StepsK7()
    ensures NextRoundKey(K6, 0x40) == K7
    ensures NextRoundKey(K7, 0x80) == K8
    ensures NextRoundKey(K8, 0x1b) == K9
    ensures NextRoundKey(K9, 0x36) == K10
  {
    hide SubByte, NextRoundKey;
    Rows0To3();
    Rows4To7();
    Rows8ToB();
    RowsCToF();
    NextIs(K6, 0x40, [0x0a, 0xc0, 0x7f, 0x67], K7);
    NextIs(K7, 0x80, [0xd3, 0xba, 0xf7, 0x2f], K8);
    NextIs(K8, 0x1b, [0x08, 0xda, 0xb5, 0xe4], K9);
    NextIs(K9, 0x36, [0x71, 0x88, 0x2f, 0xae], K10);
  }

  /** The schedule of the key 000102030405060708090a0b0c0d0e0f. */
  lemma ExpansionK()
    ensures Schedule(K0) == [K0, K1, K2, K3, K4, K5, K6, K7, K8, K9, K10]
  {
    RoundConstants();
    StepsK1();
    StepsK4();
    StepsK7();
    hide NextRoundKey, RoundConstant;
    ScheduleIs(K0, [K0, K1, K2, K3, K4, K5, K6, K7, K8, K9, K10]);
  }

  // S0 is the plaintext plus the first round key and Sr the state after round r; Br is what the S-box and the
  // row shift make of the state before round r.
  const PLAINTEXT: Block := [0x00, 0x11, 0x22, 0x33, 0x44, 0x55, 0x66, 0x77, 0x88, 0x99, 0xaa, 0xbb, 0xcc, 0xdd, 0xee, 0xff]
  const S0: Block := [0x00, 0x10, 0x20, 0x30, 0x40, 0x50, 0x60, 0x70, 0x80, 0x90, 0xa0, 0xb0, 0xc0, 0xd0, 0xe0, 0xf0]
  const S1: Block := [0x89, 0xd8, 0x10, 0xe8, 0x85, 0x5a, 0xce, 0x68, 0x2d, 0x18, 0x43, 0xd8, 0xcb, 0x12, 0x8f, 0xe4]
  const S2: Block := [0x49, 0x15, 0x59, 0x8f, 0x55, 0xe5, 0xd7, 0xa0, 0xda, 0xca, 0x94, 0xfa, 0x1f, 0x0a, 0x63, 0xf7]
  const S3: Block := [0xfa, 0x63, 0x6a, 0x28, 0x25, 0xb3, 0x39, 0xc9, 0x40, 0x66, 0x8a, 0x31, 0x57, 0x24, 0x4d, 0x17]
  const S4: Block := [0x24, 0x72, 0x40, 0x23, 0x69, 0x66, 0xb3, 0xfa, 0x6e, 0xd2, 0x75, 0x32, 0x88, 0x42, 0x5b, 0x6c]
  const S5: Block := [0xc8, 0x16, 0x77, 0xbc, 0x9b, 0x7a, 0xc9, 0x3b, 0x25, 0x02, 0x79, 0x92, 0xb0, 0x26, 0x19, 0x96]
  const S6: Block := [0xc6, 0x2f, 0xe1, 0x09, 0xf7, 0x5e, 0xed, 0xc3, 0xcc, 0x79, 0x39, 0x5d, 0x84, 0xf9, 0xcf, 0x5d]
  const S7: Block := [0xd1, 0x87, 0x6c, 0x0f, 0x79, 0xc4, 0x30, 0x0a, 0xb4, 0x55, 0x94, 0xad, 0xd6, 0x6f, 0xf4, 0x1f]
  const S8: Block := [0xfd, 0xe3, 0xba, 0xd2, 0x05, 0xe5, 0xd0, 0xd7, 0x35, 0x47, 0x96, 0x4e, 0xf1, 0xfe, 0x37, 0xf1]
  const S9: Block := [0xbd, 0x6e, 0x7c, 0x3d, 0xf2, 0xb5, 0x77, 0x9e, 0x0b, 0x61, 0x21, 0x6e, 0x8b, 0x10, 0xb6, 0x89]
  const CIPHERTEXT: Block := [0x69, 0xc4, 0xe0, 0xd8, 0x6a, 0x7b, 0x04, 0x30, 0xd8, 0xcd, 0xb7, 0x80, 0x70, 0xb4, 0xc5, 0x5a]
  const B1: Block := [0x63, 0x53, 0xe0, 0x8c, 0x09, 0x60, 0xe1, 0x04, 0xcd, 0x70, 0xb7, 0x51, 0xba, 0xca, 0xd0, 0xe7]
  const B2: Block := [0xa7, 0xbe, 0x1a, 0x69, 0x97, 0xad, 0x73, 0x9b, 0xd8, 0xc9, 0xca, 0x45, 0x1f, 0x61, 0x8b, 0x61]
  const B3: Block := [0x3b, 0xd9, 0x22, 0x68, 0xfc, 0x74, 0xfb, 0x73, 0x57, 0x67, 0xcb, 0xe0, 0xc0, 0x59, 0x0e, 0x2d]
  const B4: Block := [0x2d, 0x6d, 0x7e, 0xf0, 0x3f, 0x33, 0xe3, 0x34, 0x09, 0x36, 0x02, 0xdd, 0x5b, 0xfb, 0x12, 0xc7]
  const B5: Block := [0x36, 0x33, 0x9d, 0x50, 0xf9, 0xb5, 0x39, 0x26, 0x9f, 0x2c, 0x09, 0x2d, 0xc4, 0x40, 0x6d, 0x23]
  const B6: Block := [0xe8, 0xda, 0xb6, 0x90, 0x14, 0x77, 0xd4, 0x65, 0x3f, 0xf7, 0xf5, 0xe2, 0xe7, 0x47, 0xdd, 0x4f]
  const B7: Block := [0xb4, 0x58, 0x12, 0x4c, 0x68, 0xb6, 0x8a, 0x01, 0x4b, 0x99, 0xf8, 0x2e, 0x5f, 0x15, 0x55, 0x4c]
  const B8: Block := [0x3e, 0x1c, 0x22, 0xc0, 0xb6, 0xfc, 0xbf, 0x76, 0x8d, 0xa8, 0x50, 0x67, 0xf6, 0x17, 0x04, 0x95]
  const B9: Block := [0x54, 0xd9, 0x90, 0xa1, 0x6b, 0xa0, 0x9a, 0xb5, 0x96, 0xbb, 0xf4, 0x0e, 0xa1, 0x11, 0x70, 0x2f]
  const B10: Block := [0x7a, 0xd5, 0xfd, 0xa7, 0x89, 0xef, 0x4e, 0x27, 0x2b, 0xca, 0x10, 0x0b, 0x3d, 0x9f, 0xf5, 0x9f]

  lemma Subbed1()
    ensures IsSubbed(S0, B1)
    ensures IsSubbed(S1, B2)
    ensures IsSubbed(S2, B3)
    ensures IsSubbed(S3, B4)
    ensures IsSubbed(S4, B5)
  {
    hide SubByte;
    Rows0To3();
    Rows4To7();
    Rows8ToB();
    RowsCToF();
  }

  lemma Subbed6()
    ensures IsSubbed(S5, B6)
    ensures IsSubbed(S6, B7)
    ensures IsSubbed(S7, B8)
    ensures IsSubbed(S8, B9)
    ensures IsSubbed(S9, B10)
  {
    hide SubByte;
    Rows0To3();
    Rows4To7();
    Rows8ToB();
    RowsCToF();
  }

  lemma Mixed1()
    ensures IsMixed(B1, K1, S1)
    ensures IsMixed(B2, K2, S2)
    ensures IsMixed(B3, K3, S3)
  {
    assert IsMixed(B1, K1, S1);
    assert IsMixed(B2, K2, S2);
    assert IsMixed(B3, K3, S3);
  }

  lemma Mixed4()
    ensures IsMixed(B4, K4, S4)
    ensures IsMixed(B5, K5, S5)
    ensures IsMixed(B6, K6, S6)
  {
    assert IsMixed(B4, K4, S4);
    assert IsMixed(B5, K5, S5);
    assert IsMixed(B6, K6, S6);
  }

  lemma Mixed7()
    ensures IsMixed(B7, K7, S7)
    ensures IsMixed(B8, K8, S8)
    ensures IsMixed(B9, K9, S9)
  {
    assert IsMixed(B7, K7, S7);
    assert IsMixed(B8, K8, S8);
    assert IsMixed(B9, K9, S9);
  }

  lemma Sums()
    ensures IsSum(PLAINTEXT, K0, S0) && IsSum(B10, K10, CIPHERTEXT)
  {
    assert IsSum(PLAINTEXT, K0, S0);
  }

  /** A list of states in which each round leads to the next is what Encrypt goes through. */
  lemma EncryptIs(ks: KeySchedule, p: Block, s: seq<Block>, c: Block)
    requires |s| == 10 && Xor(p, ks[0]) == s[0]
    requires forall r :: 1 <= r <= 9 ==> AesEnc(s[r - 1], ks[r]) == s[r]
    requires AesEncLast(s[9], ks[10]) == c
    ensures Encrypt(ks, p) == c
  {
    hide AesEnc, AesEncLast, Xor;
    for r := 0 to 10
      invariant forall i :: 0 <= i < r ==> Rounds(ks, p, i) == s[i]
    {
    }
  }

  /** The example vector, and back by the equivalent inverse cipher. */
  lemma CipherExample()
    ensures Encrypt(Schedule(K0), PLAINTEXT) == CIPHERTEXT
    ensures Decrypt(DecSchedule(Schedule(K0)), CIPHERTEXT) == PLAINTEXT
  {
    hide *;
    ExpansionK();
    Subbed1();
    Subbed6();
    Mixed1();
    Mixed4();
    Mixed7();
    Sums();
    SumIs(PLAINTEXT, K0, S0);
    RoundIs(S0, K1, B1, S1);
    RoundIs(S1, K2, B2, S2);
    RoundIs(S2, K3, B3, S3);
    RoundIs(S3, K4, B4, S4);
    RoundIs(S4, K5, B5, S5);
    RoundIs(S5, K6, B6, S6);
    RoundIs(S6, K7, B7, S7);
    RoundIs(S7, K8, B8, S8);
    RoundIs(S8, K9, B9, S9);
    LastRoundIs(S9, K10, B10, CIPHERTEXT);
    EncryptIs([K0, K1, K2, K3, K4, K5, K6, K7, K8, K9, K10], PLAINTEXT, [S0, S1, S2, S3, S4, S5, S6, S7, S8, S9], CIPHERTEXT);
    DecryptEncrypt(Schedule(K0), PLAINTEXT);
  }

  /** The example vector through the two classes. */
  method RunExample() returns (cyphertext: Block, plaintext: Block)
    ensures cyphertext == CIPHERTEXT && plaintext == PLAINTEXT
  {
    hide Encrypt, Decrypt, Schedule, DecSchedule;
    CipherExample();
    cyphertext, plaintext := EncryptThenDecrypt(K0, PLAINTEXT);
  }
}
