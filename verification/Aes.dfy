/** AES-128 and its equivalent inverse cipher: cryptoTools/Crypto/AES.cpp. */
module Aes {
  import opened Blocks
  import opened GaloisField
  import opened AesRounds

  // ----- key expansion -----

  /** _mm_slli_si128(b, 4) */
  function ShiftWord(b: Block): Block {
    [0, 0, 0, 0] + b[..12]
  }

  /** _mm_shuffle_epi32 with selector (3, 3, 3, 3) */
  function Broadcast3(b: Block): Block {
    Words(WordOf(b, 3), WordOf(b, 3), WordOf(b, 3), WordOf(b, 3))
  }

  function KeyGenHelper(key: Block, keyRcon: Block): Block {
    var k1 := Xor(key, ShiftWord(key));
    var k2 := Xor(k1, ShiftWord(k1));
    var k3 := Xor(k2, ShiftWord(k2));
    Xor(k3, Broadcast3(keyRcon))
  }

  /** One step of KeyExpansion, section 5.2 of FIPS 197: each word is the XOR of the word before it and
      the word four places earlier, with the word before a new round key transformed first. */
  function NextRoundKey(key: Block, rcon: Byte): Block {
    var w0 := XorWord(WordOf(key, 0), XorWord(SubWord(RotWord(WordOf(key, 3))), Rcon(rcon)));
    var w1 := XorWord(WordOf(key, 1), w0);
    var w2 := XorWord(WordOf(key, 2), w1);
    var w3 := XorWord(WordOf(key, 3), w2);
    Words(w0, w1, w2, w3)
  }

  lemma WordsParts(w0: Word, w1: Word, w2: Word, w3: Word)
    ensures WordOf(Words(w0, w1, w2, w3), 0) == w0 && WordOf(Words(w0, w1, w2, w3), 1) == w1
    ensures WordOf(Words(w0, w1, w2, w3), 2) == w2 && WordOf(Words(w0, w1, w2, w3), 3) == w3
  {}

  lemma XorWords(a: Block, b: Block, j: nat)
    requires j < 4
    ensures WordOf(Xor(a, b), j) == XorWord(WordOf(a, j), WordOf(b, j))
  {}

  lemma ShiftWordParts(b: Block)
    ensures WordOf(ShiftWord(b), 0) == [0, 0, 0, 0]
    ensures WordOf(ShiftWord(b), 1) == WordOf(b, 0) && WordOf(ShiftWord(b), 2) == WordOf(b, 1) && WordOf(ShiftWord(b), 3) == WordOf(b, 2)
  {}

  lemma WordsOf(b: Block)
    ensures b == Words(WordOf(b, 0), WordOf(b, 1), WordOf(b, 2), WordOf(b, 3))
  {}

  lemma XorWordLaws(a: Word, b: Word, c: Word)
    ensures XorWord(a, b) == XorWord(b, a)
    ensures XorWord(XorWord(a, b), c) == XorWord(a, XorWord(b, c))
    ensures XorWord(a, [0, 0, 0, 0]) == a
    ensures XorWord(XorWord(a, b), b) == a
  {}

  /** The prefix sums that three shifted XORs compute. */
  lemma ShiftedXors(key: Block)
    ensures var k1 := Xor(key, ShiftWord(key)); var k2 := Xor(k1, ShiftWord(k1)); var k3 := Xor(k2, ShiftWord(k2));
            && WordOf(k3, 0) == WordOf(key, 0)
            && WordOf(k3, 1) == XorWord(WordOf(key, 1), WordOf(key, 0))
            && WordOf(k3, 2) == XorWord(WordOf(key, 2), XorWord(WordOf(key, 1), WordOf(key, 0)))
            && WordOf(k3, 3) == XorWord(WordOf(key, 3), XorWord(WordOf(key, 2), XorWord(WordOf(key, 1), WordOf(key, 0))))
  {
    hide Xor, ShiftWord, WordOf, XorWord;
    var k1 := Xor(key, ShiftWord(key));
    var k2 := Xor(k1, ShiftWord(k1));
    var a, b, c, d := WordOf(key, 0), WordOf(key, 1), WordOf(key, 2), WordOf(key, 3);
    StepWords(key);
    StepWords(k1);
    StepWords(k2);
    var b1, c1, d1 := XorWord(b, a), XorWord(c, b), XorWord(d, c);
    // k1 = (a, b1, c1, d1), k2 = (a, b1 ^ a, c1 ^ b1, d1 ^ c1)
    XorWordLaws(b, a, a);
    XorWordLaws(c, b, b1);
    XorWordLaws(b, b1, [0, 0, 0, 0]);
    XorWordLaws(d, c, c1);
    XorCancels(a, b, c, d);
  }

  lemma StepWords(k: Block)
    ensures var r := Xor(k, ShiftWord(k));
            && WordOf(r, 0) == WordOf(k, 0)
            && WordOf(r, 1) == XorWord(WordOf(k, 1), WordOf(k, 0))
            && WordOf(r, 2) == XorWord(WordOf(k, 2), WordOf(k, 1))
            && WordOf(r, 3) == XorWord(WordOf(k, 3), WordOf(k, 2))
  {
    hide Xor, ShiftWord, WordOf, XorWord;
    var t := ShiftWord(k);
    ShiftWordParts(k);
    XorWords(k, t, 0);
    XorWords(k, t, 1);
    XorWords(k, t, 2);
    XorWords(k, t, 3);
    XorWordLaws(WordOf(k, 0), [0, 0, 0, 0], [0, 0, 0, 0]);
  }

  lemma XorCancels(a: Word, b: Word, c: Word, d: Word)
    ensures var b1, c1, d1 := XorWord(b, a), XorWord(c, b), XorWord(d, c);
            var b2, c2, d2 := XorWord(b1, a), XorWord(c1, b1), XorWord(d1, c1);
            && XorWord(b2, a) == XorWord(b, a)
            && XorWord(c2, b2) == XorWord(c, XorWord(b, a))
            && XorWord(d2, c2) == XorWord(d, XorWord(c, XorWord(b, a)))
  {
    forall i | 0 <= i < 4
      ensures ((b[i] ^ a[i]) ^ a[i]) ^ a[i] == b[i] ^ a[i]
      ensures ((c[i] ^ b[i]) ^ (b[i] ^ a[i])) ^ ((b[i] ^ a[i]) ^ a[i]) == c[i] ^ (b[i] ^ a[i])
      ensures ((d[i] ^ c[i]) ^ (c[i] ^ b[i])) ^ ((c[i] ^ b[i]) ^ (b[i] ^ a[i])) == d[i] ^ (c[i] ^ (b[i] ^ a[i]))
    {
    }
  }

  lemma RotSub(w: Word)
    ensures RotWord(SubWord(w)) == SubWord(RotWord(w))
  {
    hide SubByte;
  }

  /** The shift-and-XOR form computes one step of the standard's key expansion. */
  lemma KeyGenHelperExpands(key: Block, rcon: Byte)
    ensures KeyGenHelper(key, AesKeyGenAssist(key, rcon)) == NextRoundKey(key, rcon)
  {
    hide Xor, ShiftWord, WordOf, XorWord, SubWord, RotWord, Rcon, Words;
    var k1 := Xor(key, ShiftWord(key));
    var k2 := Xor(k1, ShiftWord(k1));
    var k3 := Xor(k2, ShiftWord(k2));
    var x1, x3 := SubWord(WordOf(key, 1)), SubWord(WordOf(key, 3));
    var t := XorWord(RotWord(x3), Rcon(rcon));
    RotSub(WordOf(key, 3));
    WordsParts(x1, XorWord(RotWord(x1), Rcon(rcon)), x3, t);
    ShiftedXors(key);
    WordsParts(t, t, t, t);
    var r := Xor(k3, Words(t, t, t, t));
    XorWords(k3, Words(t, t, t, t), 0);
    XorWords(k3, Words(t, t, t, t), 1);
    XorWords(k3, Words(t, t, t, t), 2);
    XorWords(k3, Words(t, t, t, t), 3);
    WordsOf(r);
    var a, b, c, d := WordOf(key, 0), WordOf(key, 1), WordOf(key, 2), WordOf(key, 3);
    XorWordLaws(b, a, t);
    XorWordLaws(c, XorWord(b, a), t);
    XorWordLaws(d, XorWord(c, XorWord(b, a)), t);
  }

  /** x^(r-1), the round constant of round r. */
  function RoundConstant(r: nat): Byte
    requires 1 <= r
  {
    if r == 1 then 1 else XTime(RoundConstant(r - 1))
  }

  lemma RoundConstants()
    ensures RoundConstant(1) == 0x01 && RoundConstant(2) == 0x02 && RoundConstant(3) == 0x04 && RoundConstant(4) == 0x08
    ensures RoundConstant(5) == 0x10 && RoundConstant(6) == 0x20 && RoundConstant(7) == 0x40 && RoundConstant(8) == 0x80
    ensures RoundConstant(9) == 0x1b && RoundConstant(10) == 0x36
  {
    assert XTime(0x01) == 0x02 && XTime(0x02) == 0x04 && XTime(0x04) == 0x08 && XTime(0x08) == 0x10;
    assert XTime(0x10) == 0x20 && XTime(0x20) == 0x40 && XTime(0x40) == 0x80 && XTime(0x80) == 0x1b && XTime(0x1b) == 0x36;
    hide XTime;
    assert RoundConstant(4) == 0x08 && RoundConstant(7) == 0x40;
  }

  function RoundKey(key: Block, r: nat): Block {
    if r == 0 then key else NextRoundKey(RoundKey(key, r - 1), RoundConstant(r))
  }

  type KeySchedule = ks: seq<Block> | |ks| == 11 witness seq(11, _ => ZeroBlock)

  /** KeyExpansion, section 5.2. */
  function Schedule(key: Block): KeySchedule {
    seq(11, r requires 0 <= r < 11 => RoundKey(key, r))
  }

  // ----- the ciphers -----

  /** The state after r full rounds of Cipher, section 5.1. */
  function Rounds(ks: KeySchedule, plaintext: Block, r: nat): Block
    requires r <= 9
  {
    if r == 0 then Xor(plaintext, ks[0]) else AesEnc(Rounds(ks, plaintext, r - 1), ks[r])
  }

  /** Cipher, section 5.1. */
  function Encrypt(ks: KeySchedule, plaintext: Block): Block {
    AesEncLast(Rounds(ks, plaintext, 9), ks[10])
  }

  /** The key schedule of the equivalent inverse cipher, section 5.3.5: reversed, the middle keys unmixed. */
  function DecSchedule(ks: KeySchedule): KeySchedule {
    seq(11, r requires 0 <= r < 11 => if r == 0 || r == 10 then ks[10 - r] else AesImc(ks[10 - r]))
  }

  function InvRounds(ds: KeySchedule, cyphertext: Block, r: nat): Block
    requires r <= 9
  {
    if r == 0 then Xor(cyphertext, ds[0]) else AesDec(InvRounds(ds, cyphertext, r - 1), ds[r])
  }

  /** EqInvCipher, section 5.3.5. */
  function Decrypt(ds: KeySchedule, cyphertext: Block): Block {
    AesDecLast(InvRounds(ds, cyphertext, 9), ds[10])
  }

  /** aesdec undoes aesenc once the round keys are moved through InvMixColumns. */
  lemma RoundInverts(s: Block, k: Block)
    ensures AesDec(SubBytes(ShiftRows(AesEnc(s, k))), AesImc(k)) == SubBytes(ShiftRows(s))
  {
    hide Xor, SubBytes, ShiftRows, InvSubBytes, InvShiftRows, MixColumns, InvMixColumns;
    var m := MixColumns(SubBytes(ShiftRows(s)));
    var e := Xor(m, k);
    ShiftSub(e);
    ShiftRowsInverts(SubBytes(e));
    SubBytesInverts(e);
    assert InvShiftRows(SubBytes(ShiftRows(e))) == SubBytes(e);
    InvMixColumnsXor(m, k);
    MixColumnsInverts(SubBytes(ShiftRows(s)));
    XorAssoc(InvMixColumns(m), InvMixColumns(k), InvMixColumns(k));
    XorZero(InvMixColumns(k));
    XorZero(InvMixColumns(m));
  }

  /** aesenc undoes aesdec in the same way. */
  lemma InvRoundInverts(s: Block, k: Block)
    ensures AesEnc(InvSubBytes(InvShiftRows(AesDec(s, AesImc(k)))), k) == InvSubBytes(InvShiftRows(s))
  {
    hide Xor, SubBytes, ShiftRows, InvSubBytes, InvShiftRows, MixColumns, InvMixColumns;
    var t := InvSubBytes(InvShiftRows(s));
    var e := Xor(InvMixColumns(t), InvMixColumns(k));
    InvMixColumnsXor(t, k);
    ShiftSub(e);
    SubBytesInverts(InvShiftRows(e));
    ShiftRowsInverts(e);
    ShiftSub(InvSubBytes(InvShiftRows(e)));
    assert SubBytes(ShiftRows(InvSubBytes(InvShiftRows(e)))) == e;
    MixColumnsInverts(Xor(t, k));
    XorCancel(k, t);
  }

  lemma FirstStepInverts(s: Block)
    ensures InvSubBytes(InvShiftRows(SubBytes(ShiftRows(s)))) == s
    ensures SubBytes(ShiftRows(InvSubBytes(InvShiftRows(s)))) == s
  {
    hide SubBytes, ShiftRows, InvSubBytes, InvShiftRows;
    ShiftSub(s);
    ShiftRowsInverts(SubBytes(s));
    SubBytesInverts(s);
    SubBytesInverts(InvShiftRows(s));
    ShiftSub(InvSubBytes(InvShiftRows(s)));
    ShiftRowsInverts(s);
  }

  /** Round r of decryption meets round 9 - r of encryption. */
  lemma {:induction false} RoundsMeet(ks: KeySchedule, p: Block, r: nat)
    requires r <= 9
    ensures InvRounds(DecSchedule(ks), Encrypt(ks, p), r) == SubBytes(ShiftRows(Rounds(ks, p, 9 - r)))
  {
    hide Xor, SubBytes, ShiftRows, AesEnc, AesDec, AesImc;
    if r == 0 {
      var s := SubBytes(ShiftRows(Rounds(ks, p, 9)));
      XorCancel(ks[10], s);
    } else {
      RoundsMeet(ks, p, r - 1);
      RoundInverts(Rounds(ks, p, 9 - r), ks[10 - r]);
    }
  }

  lemma {:induction false} InvRoundsMeet(ks: KeySchedule, c: Block, r: nat)
    requires r <= 9
    ensures Rounds(ks, Decrypt(DecSchedule(ks), c), r) == InvSubBytes(InvShiftRows(InvRounds(DecSchedule(ks), c, 9 - r)))
  {
    hide Xor, InvSubBytes, InvShiftRows, AesEnc, AesDec, AesImc;
    if r == 0 {
      var s := InvSubBytes(InvShiftRows(InvRounds(DecSchedule(ks), c, 9)));
      XorCancel(ks[0], s);
    } else {
      InvRoundsMeet(ks, c, r - 1);
      InvRoundInverts(InvRounds(DecSchedule(ks), c, 9 - r), ks[r]);
    }
  }

  lemma Unfold(ks: KeySchedule, b: Block)
    ensures Rounds(ks, b, 0) == Xor(b, ks[0]) && InvRounds(ks, b, 0) == Xor(b, ks[0])
    ensures Encrypt(ks, b) == Xor(SubBytes(ShiftRows(Rounds(ks, b, 9))), ks[10])
    ensures Decrypt(ks, b) == Xor(InvSubBytes(InvShiftRows(InvRounds(ks, b, 9))), ks[10])
    ensures DecSchedule(ks)[0] == ks[10] && DecSchedule(ks)[10] == ks[0]
  {
    hide Xor, SubBytes, ShiftRows, InvSubBytes, InvShiftRows, AesEnc, AesDec, AesImc;
  }

  /** Decryption inverts encryption, for every key schedule and every block. */
  lemma DecryptEncrypt(ks: KeySchedule, p: Block)
    ensures Decrypt(DecSchedule(ks), Encrypt(ks, p)) == p
  {
    hide *;
    var s := Rounds(ks, p, 0);
    RoundsMeet(ks, p, 9);
    FirstStepInverts(s);
    Unfold(ks, p);
    Unfold(DecSchedule(ks), Encrypt(ks, p));
    XorComm(p, ks[0]);
    XorCancel(ks[0], p);
  }

  /** And encryption inverts decryption, so both are permutations of the blocks. */
  lemma EncryptDecrypt(ks: KeySchedule, c: Block)
    ensures Encrypt(ks, Decrypt(DecSchedule(ks), c)) == c
  {
    hide *;
    InvRoundsMeet(ks, c, 9);
    FirstStepInverts(InvRounds(DecSchedule(ks), c, 0));
    Unfold(ks, Decrypt(DecSchedule(ks), c));
    Unfold(DecSchedule(ks), c);
    XorComm(c, ks[10]);
    XorCancel(ks[10], c);
    Unfold(ks, c);
  }

  // ----- the two classes -----

  class AES {
    const mRoundKey: array<Block>

    ghost predicate Valid()
      reads this
    {
      mRoundKey.Length == 11
    }

    ghost function Keys(): KeySchedule
      requires Valid()
      reads this, mRoundKey
    {
      mRoundKey[..]
    }

    constructor (userKey: Block)
      ensures Valid() && fresh(mRoundKey) && Keys() == Schedule(userKey)
    {
      mRoundKey := new Block[11](_ => ZeroBlock);
      new;
      SetKey(userKey);
    }

    constructor Copy(other: AES)
      requires other.Valid()
      ensures Valid() && fresh(mRoundKey) && Keys() == other.Keys()
    {
      mRoundKey := new Block[11](_ => ZeroBlock);
      new;
      for r := 0 to 11
        invariant Valid() && other.Valid() && other.Keys() == old(other.Keys())
        invariant forall k :: 0 <= k < r ==> mRoundKey[k] == other.mRoundKey[k]
      {
        mRoundKey[r] := other.mRoundKey[r];
      }
    }

    method Clear()
      requires Valid()
      modifies mRoundKey
      ensures Keys() == seq(11, _ => ZeroBlock)
    {
      for r := 0 to 11
        invariant forall k :: 0 <= k < r ==> mRoundKey[k] == ZeroBlock
      {
        mRoundKey[r] := ZeroBlock;
      }
    }

    method SetKey(userKey: Block)
      requires Valid()
      modifies mRoundKey
      ensures Keys() == Schedule(userKey)
    {
      hide KeyGenHelper, AesKeyGenAssist, NextRoundKey;
      RoundConstants();
      mRoundKey[0] := userKey;
      ExpandOne(userKey, mRoundKey[0], 1);
      mRoundKey[1] := KeyGenHelper(mRoundKey[0], AesKeyGenAssist(mRoundKey[0], 0x01));
      ExpandOne(userKey, mRoundKey[1], 2);
      mRoundKey[2] := KeyGenHelper(mRoundKey[1], AesKeyGenAssist(mRoundKey[1], 0x02));
      ExpandOne(userKey, mRoundKey[2], 3);
      mRoundKey[3] := KeyGenHelper(mRoundKey[2], AesKeyGenAssist(mRoundKey[2], 0x04));
      ExpandOne(userKey, mRoundKey[3], 4);
      mRoundKey[4] := KeyGenHelper(mRoundKey[3], AesKeyGenAssist(mRoundKey[3], 0x08));
      ExpandOne(userKey, mRoundKey[4], 5);
      mRoundKey[5] := KeyGenHelper(mRoundKey[4], AesKeyGenAssist(mRoundKey[4], 0x10));
      ExpandOne(userKey, mRoundKey[5], 6);
      mRoundKey[6] := KeyGenHelper(mRoundKey[5], AesKeyGenAssist(mRoundKey[5], 0x20));
      ExpandOne(userKey, mRoundKey[6], 7);
      mRoundKey[7] := KeyGenHelper(mRoundKey[6], AesKeyGenAssist(mRoundKey[6], 0x40));
      ExpandOne(userKey, mRoundKey[7], 8);
      mRoundKey[8] := KeyGenHelper(mRoundKey[7], AesKeyGenAssist(mRoundKey[7], 0x80));
      ExpandOne(userKey, mRoundKey[8], 9);
      mRoundKey[9] := KeyGenHelper(mRoundKey[8], AesKeyGenAssist(mRoundKey[8], 0x1b));
      ExpandOne(userKey, mRoundKey[9], 10);
      mRoundKey[10] := KeyGenHelper(mRoundKey[9], AesKeyGenAssist(mRoundKey[9], 0x36));
    }

    method EcbEncBlock(plaintext: Block) returns (cyphertext: Block)
      requires Valid()
      ensures cyphertext == Encrypt(Keys(), plaintext)
    {
      hide AesEnc, AesEncLast, Xor;
      cyphertext := Xor(plaintext, mRoundKey[0]);
      assert cyphertext == Rounds(Keys(), plaintext, 0);
      for r := 1 to 10
        invariant cyphertext == Rounds(Keys(), plaintext, r - 1)
      {
        cyphertext := AesEnc(cyphertext, mRoundKey[r]);
      }
      cyphertext := AesEncLast(cyphertext, mRoundKey[10]);
    }

    /** Encrypts the first blockLength blocks, eight lanes at a time and then one by one.  The output
        array may be the input array. */
    method EcbEncBlocks(plaintexts: array<Block>, blockLength: nat, cyphertext: array<Block>)
      requires Valid() && blockLength <= plaintexts.Length && blockLength <= cyphertext.Length
      requires mRoundKey != plaintexts && mRoundKey != cyphertext
      modifies cyphertext
      ensures forall i :: 0 <= i < blockLength ==> cyphertext[i] == Encrypt(Keys(), old(plaintexts[i]))
      ensures forall i :: blockLength <= i < cyphertext.Length ==> cyphertext[i] == old(cyphertext[i])
    {
      hide Encrypt;
      ghost var ks := Keys();
      ghost var input := plaintexts[..];
      var length := blockLength - blockLength % 8;
      var idx := 0;
      while idx < length
        invariant idx <= length && idx % 8 == 0 && Keys() == ks
        invariant forall i :: 0 <= i < idx ==> cyphertext[i] == Encrypt(ks, input[i])
        invariant forall i :: idx <= i < plaintexts.Length ==> plaintexts[i] == input[i]
        invariant forall i :: blockLength <= i < cyphertext.Length ==> cyphertext[i] == old(cyphertext[i])
      {
        EncryptEight(plaintexts, idx, cyphertext);
        idx := idx + 8;
      }
      while idx < blockLength
        invariant idx <= blockLength && Keys() == ks
        invariant forall i :: 0 <= i < idx ==> cyphertext[i] == Encrypt(ks, input[i])
        invariant forall i :: idx <= i < plaintexts.Length ==> plaintexts[i] == input[i]
        invariant forall i :: blockLength <= i < cyphertext.Length ==> cyphertext[i] == old(cyphertext[i])
      {
        cyphertext[idx] := EcbEncBlock(plaintexts[idx]);
        idx := idx + 1;
      }
    }

    /** The body of the eight-lane loop: all lanes are read into temp before any result is written. */
    method EncryptEight(plaintexts: array<Block>, idx: nat, cyphertext: array<Block>)
      requires Valid() && idx + 8 <= plaintexts.Length && idx + 8 <= cyphertext.Length
      requires mRoundKey != plaintexts && mRoundKey != cyphertext
      modifies cyphertext
      ensures forall i :: idx <= i < idx + 8 ==> cyphertext[i] == Encrypt(Keys(), old(plaintexts[i]))
      ensures forall i :: 0 <= i < cyphertext.Length && !(idx <= i < idx + 8) ==> cyphertext[i] == old(cyphertext[i])
    {
      hide AesEnc, AesEncLast, Xor;
      ghost var ks := Keys();
      ghost var input, before := plaintexts[..], cyphertext[..];
      var temp := new Block[8](_ => ZeroBlock);
      for j := 0 to 8
        invariant Keys() == ks && plaintexts[..] == input && cyphertext[..] == before
        invariant forall k :: 0 <= k < j ==> temp[k] == Rounds(ks, input[idx + k], 0)
      {
        temp[j] := Xor(plaintexts[idx + j], mRoundKey[0]);
      }
      for r := 1 to 10
        invariant Keys() == ks && plaintexts[..] == input && cyphertext[..] == before
        invariant forall k :: 0 <= k < 8 ==> temp[k] == Rounds(ks, input[idx + k], r - 1)
      {
        for j := 0 to 8
          invariant Keys() == ks && plaintexts[..] == input && cyphertext[..] == before
          invariant forall k :: 0 <= k < j ==> temp[k] == Rounds(ks, input[idx + k], r)
          invariant forall k :: j <= k < 8 ==> temp[k] == Rounds(ks, input[idx + k], r - 1)
        {
          temp[j] := AesEnc(temp[j], mRoundKey[r]);
        }
      }
      for j := 0 to 8
        invariant Keys() == ks
        invariant forall k :: 0 <= k < 8 ==> temp[k] == Rounds(ks, input[idx + k], 9)
        invariant forall i :: idx <= i < idx + j ==> cyphertext[i] == Encrypt(ks, input[i])
        invariant forall i :: 0 <= i < cyphertext.Length && !(idx <= i < idx + j) ==> cyphertext[i] == before[i]
      {
        cyphertext[idx + j] := AesEncLast(temp[j], mRoundKey[10]);
      }
    }
  }

  lemma StoredInReverse(v: KeySchedule, ds: KeySchedule)
    requires ds[0] == v[10] && ds[1] == AesImc(v[9]) && ds[2] == AesImc(v[8]) && ds[3] == AesImc(v[7])
    requires ds[4] == AesImc(v[6]) && ds[5] == AesImc(v[5]) && ds[6] == AesImc(v[4]) && ds[7] == AesImc(v[3])
    requires ds[8] == AesImc(v[2]) && ds[9] == AesImc(v[1]) && ds[10] == v[0]
    ensures ds == DecSchedule(v)
  {
    hide AesImc;
  }

  class AESDec {
    const mRoundKey: array<Block>

    ghost predicate Valid()
      reads this
    {
      mRoundKey.Length == 11
    }

    ghost function Keys(): KeySchedule
      requires Valid()
      reads this, mRoundKey
    {
      mRoundKey[..]
    }

    constructor (userKey: Block)
      ensures Valid() && fresh(mRoundKey) && Keys() == DecSchedule(Schedule(userKey))
    {
      mRoundKey := new Block[11](_ => ZeroBlock);
      new;
      SetKey(userKey);
    }

    method SetKey(userKey: Block)
      requires Valid()
      modifies mRoundKey
      ensures Keys() == DecSchedule(Schedule(userKey))
    {
      hide KeyGenHelper, AesKeyGenAssist, NextRoundKey, AesImc;
      RoundConstants();
      var v0 := userKey;
      ExpandOne(userKey, v0, 1);
      var v1 := KeyGenHelper(v0, AesKeyGenAssist(v0, 0x01));
      ExpandOne(userKey, v1, 2);
      var v2 := KeyGenHelper(v1, AesKeyGenAssist(v1, 0x02));
      ExpandOne(userKey, v2, 3);
      var v3 := KeyGenHelper(v2, AesKeyGenAssist(v2, 0x04));
      ExpandOne(userKey, v3, 4);
      var v4 := KeyGenHelper(v3, AesKeyGenAssist(v3, 0x08));
      ExpandOne(userKey, v4, 5);
      var v5 := KeyGenHelper(v4, AesKeyGenAssist(v4, 0x10));
      ExpandOne(userKey, v5, 6);
      var v6 := KeyGenHelper(v5, AesKeyGenAssist(v5, 0x20));
      ExpandOne(userKey, v6, 7);
      var v7 := KeyGenHelper(v6, AesKeyGenAssist(v6, 0x40));
      ExpandOne(userKey, v7, 8);
      var v8 := KeyGenHelper(v7, AesKeyGenAssist(v7, 0x80));
      ExpandOne(userKey, v8, 9);
      var v9 := KeyGenHelper(v8, AesKeyGenAssist(v8, 0x1b));
      ExpandOne(userKey, v9, 10);
      var v10 := KeyGenHelper(v9, AesKeyGenAssist(v9, 0x36));
      StoreKeys([v0, v1, v2, v3, v4, v5, v6, v7, v8, v9, v10]);
      assert [v0, v1, v2, v3, v4, v5, v6, v7, v8, v9, v10] == Schedule(userKey);
    }

    /** The stores at the end of setKey. */
    method StoreKeys(v: KeySchedule)
      requires Valid()
      modifies mRoundKey
      ensures Keys() == DecSchedule(v)
    {
      hide AesImc, DecSchedule;
      mRoundKey[0] := v[10];
      mRoundKey[1] := AesImc(v[9]);
      mRoundKey[2] := AesImc(v[8]);
      mRoundKey[3] := AesImc(v[7]);
      mRoundKey[4] := AesImc(v[6]);
      mRoundKey[5] := AesImc(v[5]);
      mRoundKey[6] := AesImc(v[4]);
      mRoundKey[7] := AesImc(v[3]);
      mRoundKey[8] := AesImc(v[2]);
      mRoundKey[9] := AesImc(v[1]);
      mRoundKey[10] := v[0];
      StoredInReverse(v, mRoundKey[..]);
    }

    method EcbDecBlock(cyphertext: Block) returns (plaintext: Block)
      requires Valid()
      ensures plaintext == Decrypt(Keys(), cyphertext)
    {
      hide AesDec, AesDecLast, Xor;
      plaintext := Xor(cyphertext, mRoundKey[0]);
      assert plaintext == InvRounds(Keys(), cyphertext, 0);
      for r := 1 to 10
        invariant plaintext == InvRounds(Keys(), cyphertext, r - 1)
      {
        plaintext := AesDec(plaintext, mRoundKey[r]);
      }
      plaintext := AesDecLast(plaintext, mRoundKey[10]);
    }
  }

  /** Two objects set up with the same key undo each other. */
  method EncryptThenDecrypt(userKey: Block, plaintext: Block) returns (cyphertext: Block, result: Block)
    ensures cyphertext == Encrypt(Schedule(userKey), plaintext)
    ensures result == Decrypt(DecSchedule(Schedule(userKey)), cyphertext) == plaintext
  {
    hide Encrypt, Decrypt, Schedule, DecSchedule;
    var enc := new AES(userKey);
    var dec := new AESDec(userKey);
    cyphertext := enc.EcbEncBlock(plaintext);
    result := dec.EcbDecBlock(cyphertext);
    DecryptEncrypt(Schedule(userKey), plaintext);
  }

  lemma ExpandOne(userKey: Block, key: Block, r: nat)
    requires 1 <= r && key == RoundKey(userKey, r - 1)
    ensures KeyGenHelper(key, AesKeyGenAssist(key, RoundConstant(r))) == RoundKey(userKey, r)
  {
    hide KeyGenHelper, AesKeyGenAssist, NextRoundKey, RoundConstant;
    KeyGenHelperExpands(key, RoundConstant(r));
  }
}
