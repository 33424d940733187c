/** The round functions of AES (FIPS 197) behind the instructions aesenc, aesenclast, aesdec,
    aesdeclast, aesimc and aeskeygenassist that cryptoTools/Crypto/AES.cpp uses. */
module AesRounds {
  import opened Blocks
  import opened GaloisField

  // ----- the S-box -----

  /** The affine map of section 5.1.1. */
  function Affine(b: Byte): Byte {
    b ^ b.RotateLeft(1) ^ b.RotateLeft(2) ^ b.RotateLeft(3) ^ b.RotateLeft(4) ^ 0x63
  }

  function InvAffine(b: Byte): Byte {
    b.RotateLeft(1) ^ b.RotateLeft(3) ^ b.RotateLeft(6) ^ 0x05
  }

  function SubByte(b: Byte): Byte {
    Affine(Inverse(b))
  }

  function InvSubByte(b: Byte): Byte {
    Inverse(InvAffine(b))
  }

  lemma AffineInverts(b: Byte)
    ensures InvAffine(Affine(b)) == b && Affine(InvAffine(b)) == b
  {}

  lemma SubByteInverts(b: Byte)
    ensures InvSubByte(SubByte(b)) == b && SubByte(InvSubByte(b)) == b
  {
    hide Affine, InvAffine, Inverse;
    AffineInverts(Inverse(b));
    InverseInverse(b);
    AffineInverts(b);
    InverseInverse(InvAffine(b));
  }

  // ----- one column of MixColumns -----

  function Dot(c0: Byte, c1: Byte, c2: Byte, c3: Byte, a0: Byte, a1: Byte, a2: Byte, a3: Byte): Byte {
    Plus(Plus(Times(c0, a0), Times(c1, a1)), Plus(Times(c2, a2), Times(c3, a3)))
  }

  function MixByte(a0: Byte, a1: Byte, a2: Byte, a3: Byte): Byte {
    Dot(0x02, 0x03, 0x01, 0x01, a0, a1, a2, a3)
  }

  function InvMixByte(a0: Byte, a1: Byte, a2: Byte, a3: Byte): Byte {
    Dot(0x0e, 0x0b, 0x0d, 0x09, a0, a1, a2, a3)
  }

  lemma Sum4(a: Byte, b: Byte, c: Byte, d: Byte, a': Byte, b': Byte, c': Byte, d': Byte)
    ensures Plus(Plus(Plus(a, b), Plus(c, d)), Plus(Plus(a', b'), Plus(c', d')))
         == Plus(Plus(Plus(a, a'), Plus(b, b')), Plus(Plus(c, c'), Plus(d, d')))
  {
    hide Plus;
    PlusInterchange(Plus(a, b), Plus(c, d), Plus(a', b'), Plus(c', d'));
    PlusInterchange(a, b, a', b');
    PlusInterchange(c, d, c', d');
  }

  lemma DotPlus(c0: Byte, c1: Byte, c2: Byte, c3: Byte, d0: Byte, d1: Byte, d2: Byte, d3: Byte,
                a0: Byte, a1: Byte, a2: Byte, a3: Byte)
    ensures Plus(Dot(c0, c1, c2, c3, a0, a1, a2, a3), Dot(d0, d1, d2, d3, a0, a1, a2, a3))
         == Dot(Plus(c0, d0), Plus(c1, d1), Plus(c2, d2), Plus(c3, d3), a0, a1, a2, a3)
  {
    hide Plus, Times;
    PlusTimes(c0, d0, a0);
    PlusTimes(c1, d1, a1);
    PlusTimes(c2, d2, a2);
    PlusTimes(c3, d3, a3);
    Sum4(Times(c0, a0), Times(c1, a1), Times(c2, a2), Times(c3, a3), Times(d0, a0), Times(d1, a1), Times(d2, a2), Times(d3, a3));
  }

  lemma TimesDot(c: Byte, m0: Byte, m1: Byte, m2: Byte, m3: Byte, a0: Byte, a1: Byte, a2: Byte, a3: Byte)
    ensures Times(c, Dot(m0, m1, m2, m3, a0, a1, a2, a3))
         == Dot(Times(c, m0), Times(c, m1), Times(c, m2), Times(c, m3), a0, a1, a2, a3)
  {
    hide Plus, Times;
    TimesPlus(c, Plus(Times(m0, a0), Times(m1, a1)), Plus(Times(m2, a2), Times(m3, a3)));
    TimesPlus(c, Times(m0, a0), Times(m1, a1));
    TimesPlus(c, Times(m2, a2), Times(m3, a3));
    TimesAssoc(c, m0, a0);
    TimesAssoc(c, m1, a1);
    TimesAssoc(c, m2, a2);
    TimesAssoc(c, m3, a3);
  }

  /** A row vector times a matrix times a column vector, either product first.  The matrix is the one
      whose row i is (m0, m1, m2, m3) rotated i places to the right. */
  lemma DotCirculant(c0: Byte, c1: Byte, c2: Byte, c3: Byte, m0: Byte, m1: Byte, m2: Byte, m3: Byte,
                     a0: Byte, a1: Byte, a2: Byte, a3: Byte)
    ensures Dot(c0, c1, c2, c3, Dot(m0, m1, m2, m3, a0, a1, a2, a3), Dot(m0, m1, m2, m3, a1, a2, a3, a0),
                Dot(m0, m1, m2, m3, a2, a3, a0, a1), Dot(m0, m1, m2, m3, a3, a0, a1, a2))
         == Dot(Dot(c0, c1, c2, c3, m0, m3, m2, m1), Dot(c0, c1, c2, c3, m1, m0, m3, m2),
                Dot(c0, c1, c2, c3, m2, m1, m0, m3), Dot(c0, c1, c2, c3, m3, m2, m1, m0), a0, a1, a2, a3)
  {
    hide Plus, Times;
    DotRotates(m0, m1, m2, m3, a0, a1, a2, a3);
    DotRotates(m3, m0, m1, m2, a0, a1, a2, a3);
    DotRotates(m0, m1, m2, m3, a1, a2, a3, a0);
    DotRotates(m0, m1, m2, m3, a2, a3, a0, a1);
    DotRotates(m3, m0, m1, m2, a1, a2, a3, a0);
    DotRotates(m2, m3, m0, m1, a0, a1, a2, a3);
    hide Dot;
    TimesDot(c0, m0, m1, m2, m3, a0, a1, a2, a3);
    TimesDot(c1, m3, m0, m1, m2, a0, a1, a2, a3);
    TimesDot(c2, m2, m3, m0, m1, a0, a1, a2, a3);
    TimesDot(c3, m1, m2, m3, m0, a0, a1, a2, a3);
    DotPlus(Times(c0, m0), Times(c0, m1), Times(c0, m2), Times(c0, m3),
            Times(c1, m3), Times(c1, m0), Times(c1, m1), Times(c1, m2), a0, a1, a2, a3);
    DotPlus(Times(c2, m2), Times(c2, m3), Times(c2, m0), Times(c2, m1),
            Times(c3, m1), Times(c3, m2), Times(c3, m3), Times(c3, m0), a0, a1, a2, a3);
    DotPlus(Plus(Times(c0, m0), Times(c1, m3)), Plus(Times(c0, m1), Times(c1, m0)),
            Plus(Times(c0, m2), Times(c1, m1)), Plus(Times(c0, m3), Times(c1, m2)),
            Plus(Times(c2, m2), Times(c3, m1)), Plus(Times(c2, m3), Times(c3, m2)),
            Plus(Times(c2, m0), Times(c3, m3)), Plus(Times(c2, m1), Times(c3, m0)), a0, a1, a2, a3);
    DotUnfold(c0, c1, c2, c3, m0, m3, m2, m1);
    DotUnfold(c0, c1, c2, c3, m1, m0, m3, m2);
    DotUnfold(c0, c1, c2, c3, m2, m1, m0, m3);
    DotUnfold(c0, c1, c2, c3, m3, m2, m1, m0);
    DotUnfold(c0, c1, c2, c3, Dot(m0, m1, m2, m3, a0, a1, a2, a3), Dot(m3, m0, m1, m2, a0, a1, a2, a3),
              Dot(m2, m3, m0, m1, a0, a1, a2, a3), Dot(m1, m2, m3, m0, a0, a1, a2, a3));
  }

  lemma DotUnfold(c0: Byte, c1: Byte, c2: Byte, c3: Byte, a0: Byte, a1: Byte, a2: Byte, a3: Byte)
    ensures Dot(c0, c1, c2, c3, a0, a1, a2, a3)
         == Plus(Plus(Times(c0, a0), Times(c1, a1)), Plus(Times(c2, a2), Times(c3, a3)))
  {
    hide Plus, Times;
  }

  lemma DotRotates(c0: Byte, c1: Byte, c2: Byte, c3: Byte, a0: Byte, a1: Byte, a2: Byte, a3: Byte)
    ensures Dot(c0, c1, c2, c3, a1, a2, a3, a0) == Dot(c3, c0, c1, c2, a0, a1, a2, a3)
  {
    hide Plus, Times;
    var p, q, r, s := Times(c0, a1), Times(c1, a2), Times(c2, a3), Times(c3, a0);
    PlusLaws(p, q, Plus(r, s));
    PlusLaws(q, r, s);
    PlusLaws(Plus(q, r), s, 0);
    PlusLaws(p, s, Plus(q, r));
    PlusLaws(p, s, 0);
  }

  lemma UnitDot(a0: Byte, a1: Byte, a2: Byte, a3: Byte)
    ensures Dot(1, 0, 0, 0, a0, a1, a2, a3) == a0
  {
    hide Plus, Times;
    OneTimes(a0);
    ZeroTimes(a1);
    ZeroTimes(a2);
    ZeroTimes(a3);
    PlusLaws(a0, 0, 0);
    PlusLaws(0, 0, 0);
  }

  lemma MixProducts()
    ensures Times(0x09, 0x01) == 0x09 && Times(0x09, 0x02) == 0x12 && Times(0x09, 0x03) == 0x1b && Times(0x0b, 0x01) == 0x0b
    ensures Times(0x0b, 0x02) == 0x16 && Times(0x0b, 0x03) == 0x1d && Times(0x0d, 0x01) == 0x0d && Times(0x0d, 0x02) == 0x1a
    ensures Times(0x0d, 0x03) == 0x17 && Times(0x0e, 0x01) == 0x0e && Times(0x0e, 0x02) == 0x1c && Times(0x0e, 0x03) == 0x12
  {}

  lemma InvMixProducts()
    ensures Times(0x01, 0x09) == 0x09 && Times(0x01, 0x0b) == 0x0b && Times(0x01, 0x0d) == 0x0d && Times(0x01, 0x0e) == 0x0e
    ensures Times(0x02, 0x09) == 0x12 && Times(0x02, 0x0b) == 0x16 && Times(0x02, 0x0d) == 0x1a && Times(0x02, 0x0e) == 0x1c
    ensures Times(0x03, 0x09) == 0x1b && Times(0x03, 0x0b) == 0x1d && Times(0x03, 0x0d) == 0x17 && Times(0x03, 0x0e) == 0x12
  {}

  lemma MixConstants()
    ensures Dot(0x0e, 0x0b, 0x0d, 0x09, 0x02, 0x01, 0x01, 0x03) == 1
    ensures Dot(0x0e, 0x0b, 0x0d, 0x09, 0x03, 0x02, 0x01, 0x01) == 0
    ensures Dot(0x0e, 0x0b, 0x0d, 0x09, 0x01, 0x03, 0x02, 0x01) == 0
    ensures Dot(0x0e, 0x0b, 0x0d, 0x09, 0x01, 0x01, 0x03, 0x02) == 0
  {
    hide Times;
    MixProducts();
  }

  lemma InvMixConstants()
    ensures Dot(0x02, 0x03, 0x01, 0x01, 0x0e, 0x09, 0x0d, 0x0b) == 1
    ensures Dot(0x02, 0x03, 0x01, 0x01, 0x0b, 0x0e, 0x09, 0x0d) == 0
    ensures Dot(0x02, 0x03, 0x01, 0x01, 0x0d, 0x0b, 0x0e, 0x09) == 0
    ensures Dot(0x02, 0x03, 0x01, 0x01, 0x09, 0x0d, 0x0b, 0x0e) == 0
  {
    hide Times;
    InvMixProducts();
  }

  lemma InvMixMix(a0: Byte, a1: Byte, a2: Byte, a3: Byte)
    ensures InvMixByte(MixByte(a0, a1, a2, a3), MixByte(a1, a2, a3, a0), MixByte(a2, a3, a0, a1), MixByte(a3, a0, a1, a2)) == a0
    ensures MixByte(InvMixByte(a0, a1, a2, a3), InvMixByte(a1, a2, a3, a0), InvMixByte(a2, a3, a0, a1), InvMixByte(a3, a0, a1, a2)) == a0
  {
    hide Dot;
    MixConstants();
    InvMixConstants();
    DotCirculant(0x0e, 0x0b, 0x0d, 0x09, 0x02, 0x03, 0x01, 0x01, a0, a1, a2, a3);
    DotCirculant(0x02, 0x03, 0x01, 0x01, 0x0e, 0x0b, 0x0d, 0x09, a0, a1, a2, a3);
    UnitDot(a0, a1, a2, a3);
  }

  lemma InvMixPlus(a0: Byte, a1: Byte, a2: Byte, a3: Byte, b0: Byte, b1: Byte, b2: Byte, b3: Byte)
    ensures InvMixByte(Plus(a0, b0), Plus(a1, b1), Plus(a2, b2), Plus(a3, b3))
         == Plus(InvMixByte(a0, a1, a2, a3), InvMixByte(b0, b1, b2, b3))
  {
    hide Plus, Times;
    TimesPlus(0x0e, a0, b0);
    TimesPlus(0x0b, a1, b1);
    TimesPlus(0x0d, a2, b2);
    TimesPlus(0x09, a3, b3);
    Sum4(Times(0x0e, a0), Times(0x0b, a1), Times(0x0d, a2), Times(0x09, a3),
         Times(0x0e, b0), Times(0x0b, b1), Times(0x0d, b2), Times(0x09, b3));
  }

  // ----- the four steps on a block; byte i is row i % 4 of column i / 4 -----

  function SubBytes(s: Block): Block {
    seq(BLOCK_SIZE, i requires 0 <= i < BLOCK_SIZE => SubByte(s[i]))
  }

  function InvSubBytes(s: Block): Block {
    seq(BLOCK_SIZE, i requires 0 <= i < BLOCK_SIZE => InvSubByte(s[i]))
  }

  /** Row r moves r columns to the left. */
  function ShiftRows(s: Block): Block {
    seq(BLOCK_SIZE, i requires 0 <= i < BLOCK_SIZE => s[(i + 4 * (i % 4)) % 16])
  }

  function InvShiftRows(s: Block): Block {
    seq(BLOCK_SIZE, i requires 0 <= i < BLOCK_SIZE => s[(i + 12 * (i % 4)) % 16])
  }

  /** The place j rows below place i in its column, going round. */
  function Below(i: nat, j: nat): (k: nat)
    requires i < 16
    ensures k < 16
  {
    i / 4 * 4 + (i % 4 + j) % 4
  }

  function MixColumns(s: Block): Block {
    seq(BLOCK_SIZE, i requires 0 <= i < BLOCK_SIZE => MixByte(s[i], s[Below(i, 1)], s[Below(i, 2)], s[Below(i, 3)]))
  }

  function InvMixColumns(s: Block): Block {
    seq(BLOCK_SIZE, i requires 0 <= i < BLOCK_SIZE => InvMixByte(s[i], s[Below(i, 1)], s[Below(i, 2)], s[Below(i, 3)]))
  }

  lemma SubBytesInverts(s: Block)
    ensures InvSubBytes(SubBytes(s)) == s && SubBytes(InvSubBytes(s)) == s
  {
    hide SubByte, InvSubByte;
    forall i | 0 <= i < BLOCK_SIZE ensures InvSubBytes(SubBytes(s))[i] == s[i] && SubBytes(InvSubBytes(s))[i] == s[i] {
      SubByteInverts(s[i]);
    }
  }

  lemma Turn(i: nat, a: nat, b: nat, m: nat)
    requires i < 16 && a + b == 16 * m
    ensures ((i + a) % 16 + b) % 16 == i
  {
    var q := (i + a) / 16;
    assert (i + a) % 16 + b == i + 16 * (m - q);
  }

  lemma TurnColumn(i: nat, n: nat)
    requires i < 16
    ensures (i + 4 * n) % 16 % 4 == i % 4
  {
    var q := (i + 4 * n) / 16;
    assert (i + 4 * n) % 16 == i + 4 * (n - 4 * q);
  }

  lemma ShiftIndex(i: nat)
    requires i < 16
    ensures var k := (i + 12 * (i % 4)) % 16; (k + 4 * (k % 4)) % 16 == i
    ensures var k := (i + 4 * (i % 4)) % 16; (k + 12 * (k % 4)) % 16 == i
  {
    var r := i % 4;
    TurnColumn(i, r);
    TurnColumn(i, 3 * r);
    Turn(i, 4 * r, 12 * r, r);
    Turn(i, 12 * r, 4 * r, r);
  }

  lemma ShiftRowsInverts(s: Block)
    ensures InvShiftRows(ShiftRows(s)) == s && ShiftRows(InvShiftRows(s)) == s
  {
    forall i | 0 <= i < BLOCK_SIZE ensures InvShiftRows(ShiftRows(s))[i] == s[i] && ShiftRows(InvShiftRows(s))[i] == s[i] {
      ShiftIndex(i);
    }
  }

  lemma ShiftSub(s: Block)
    ensures ShiftRows(SubBytes(s)) == SubBytes(ShiftRows(s))
    ensures InvShiftRows(InvSubBytes(s)) == InvSubBytes(InvShiftRows(s))
  {
    hide SubByte, InvSubByte;
  }

  lemma BelowParts(i: nat, j: nat)
    requires i < 16
    ensures Below(i, j) / 4 == i / 4 && Below(i, j) % 4 == (i % 4 + j) % 4
  {}

  lemma AddMod4(r: nat, j: nat, k: nat)
    requires r < 4 && 1 <= j <= 3 && 1 <= k <= 3
    ensures ((r + j) % 4 + k) % 4 == if j + k == 4 then r else if j + k < 4 then (r + (j + k)) % 4 else (r + (j + k - 4)) % 4
  {}

  lemma BelowBelow(i: nat, j: nat, k: nat)
    requires i < 16 && 1 <= j <= 3 && 1 <= k <= 3
    ensures Below(Below(i, j), k) == if j + k == 4 then i else if j + k < 4 then Below(i, j + k) else Below(i, j + k - 4)
  {
    BelowParts(i, j);
    AddMod4(i % 4, j, k);
  }

  lemma BelowTwice(i: nat)
    requires i < 16
    ensures Below(Below(i, 1), 1) == Below(i, 2) && Below(Below(i, 1), 2) == Below(i, 3) && Below(Below(i, 1), 3) == i
    ensures Below(Below(i, 2), 1) == Below(i, 3) && Below(Below(i, 2), 2) == i && Below(Below(i, 2), 3) == Below(i, 1)
    ensures Below(Below(i, 3), 1) == i && Below(Below(i, 3), 2) == Below(i, 1) && Below(Below(i, 3), 3) == Below(i, 2)
  {
    hide Below;
    BelowBelow(i, 1, 1);
    BelowBelow(i, 1, 2);
    BelowBelow(i, 1, 3);
    BelowBelow(i, 2, 1);
    BelowBelow(i, 2, 2);
    BelowBelow(i, 2, 3);
    BelowBelow(i, 3, 1);
    BelowBelow(i, 3, 2);
    BelowBelow(i, 3, 3);
  }

  lemma MixColumnsInverts(s: Block)
    ensures InvMixColumns(MixColumns(s)) == s && MixColumns(InvMixColumns(s)) == s
  {
    hide MixByte, InvMixByte, Below;
    forall i | 0 <= i < BLOCK_SIZE
      ensures InvMixColumns(MixColumns(s))[i] == s[i] && MixColumns(InvMixColumns(s))[i] == s[i]
    {
      BelowTwice(i);
      InvMixMix(s[i], s[Below(i, 1)], s[Below(i, 2)], s[Below(i, 3)]);
    }
  }

  lemma InvMixColumnsXor(s: Block, t: Block)
    ensures InvMixColumns(Xor(s, t)) == Xor(InvMixColumns(s), InvMixColumns(t))
  {
    hide InvMixByte, Below;
    forall i | 0 <= i < BLOCK_SIZE
      ensures InvMixColumns(Xor(s, t))[i] == Plus(InvMixColumns(s)[i], InvMixColumns(t)[i])
    {
      var j, k, l := Below(i, 1), Below(i, 2), Below(i, 3);
      InvMixPlus(s[i], s[j], s[k], s[l], t[i], t[j], t[k], t[l]);
    }
  }

  // ----- the instructions -----

  function AesEnc(s: Block, k: Block): Block {
    Xor(MixColumns(SubBytes(ShiftRows(s))), k)
  }

  function AesEncLast(s: Block, k: Block): Block {
    Xor(SubBytes(ShiftRows(s)), k)
  }

  function AesDec(s: Block, k: Block): Block {
    Xor(InvMixColumns(InvSubBytes(InvShiftRows(s))), k)
  }

  function AesDecLast(s: Block, k: Block): Block {
    Xor(InvSubBytes(InvShiftRows(s)), k)
  }

  function AesImc(k: Block): Block {
    InvMixColumns(k)
  }

  type Word = w: seq<Byte> | |w| == 4 witness [0, 0, 0, 0]

  function WordOf(b: Block, j: nat): Word
    requires j < 4
  {
    b[4 * j..4 * j + 4]
  }

  function SubWord(w: Word): Word {
    seq(4, i requires 0 <= i < 4 => SubByte(w[i]))
  }

  function RotWord(w: Word): Word {
    [w[1], w[2], w[3], w[0]]
  }

  function XorWord(v: Word, w: Word): Word {
    seq(4, i requires 0 <= i < 4 => v[i] ^ w[i])
  }

  function Rcon(rcon: Byte): Word {
    [rcon, 0, 0, 0]
  }

  function Words(w0: Word, w1: Word, w2: Word, w3: Word): Block {
    w0 + w1 + w2 + w3
  }

  function AesKeyGenAssist(key: Block, rcon: Byte): Block {
    var x1, x3 := SubWord(WordOf(key, 1)), SubWord(WordOf(key, 3));
    Words(x1, XorWord(RotWord(x1), Rcon(rcon)), x3, XorWord(RotWord(x3), Rcon(rcon)))
  }
}
