/** The packed bit vector of cryptoTools/Common/BitVector.cpp: bit i is bit i % 8 of byte i / 8. */
module BitVectors {
  import opened Blocks

  // ----- bits of a byte -----

  /** The table of append. */
  function Mask(k: nat): Byte
    requires k < 8
  {
    if k == 0 then 1 else if k == 1 then 2 else if k == 2 then 4 else if k == 3 then 8
    else if k == 4 then 16 else if k == 5 then 32 else if k == 6 then 64 else 128
  }

  predicate TestBit(b: Byte, k: nat)
    requires k < 8
  {
    b & Mask(k) != 0
  }

  /** Assigning to a BitReference. */
  function WithBit(b: Byte, k: nat, v: bool): Byte
    requires k < 8
  {
    if v then b | Mask(k) else b & !Mask(k)
  }

  lemma MaskOps(b: Byte, m: Byte, n: Byte)
    ensures (b | m) & m == m && (b & !m) & m == 0
    ensures m & n == 0 ==> (b | m) & n == b & n && (b & !m) & n == b & n
  {}

  lemma TestWith(b: Byte, k: nat, v: bool, j: nat)
    requires k < 8 && j < 8
    ensures TestBit(WithBit(b, k, v), j) == if j == k then v else TestBit(b, j)
  {
    assert Mask(k) != 0;
    hide Mask;
    MaskOps(b, Mask(k), Mask(j));
    if j != k {
      MasksDiffer(k, j);
    }
  }

  lemma MasksDiffer(k: nat, j: nat)
    requires k < 8 && j < 8 && j != k
    ensures Mask(k) & Mask(j) == 0
  {}

  lemma ZeroByte(k: nat)
    requires k < 8
    ensures !TestBit(0, k)
  {}

  function Unit(b: bool): nat {
    if b then 1 else 0
  }

  /** How many of the bits below k are set. */
  function BitCount(b: Byte, k: nat): (r: nat)
    requires k <= 8
    ensures r <= k
  {
    if k == 0 then 0 else BitCount(b, k - 1) + Unit(TestBit(b, k - 1))
  }

  /** Some bit of a byte that is not zero is set, and b & (b - 1) clears the lowest. */
  lemma ClearLowest(b: Byte, k: nat)
    requires k < 8 && TestBit(b, k) && forall j: nat :: j < k ==> !TestBit(b, j)
    ensures b & (b - 1) == WithBit(b, k, false)
  {
    if k == 0 {
    } else if k == 1 {
      assert !TestBit(b, 0);
    } else if k == 2 {
      assert !TestBit(b, 0) && !TestBit(b, 1);
    } else if k == 3 {
      assert !TestBit(b, 0) && !TestBit(b, 1) && !TestBit(b, 2);
    } else if k == 4 {
      assert !TestBit(b, 0) && !TestBit(b, 1) && !TestBit(b, 2) && !TestBit(b, 3);
    } else if k == 5 {
      assert !TestBit(b, 0) && !TestBit(b, 1) && !TestBit(b, 2) && !TestBit(b, 3) && !TestBit(b, 4);
    } else if k == 6 {
      assert !TestBit(b, 0) && !TestBit(b, 1) && !TestBit(b, 2) && !TestBit(b, 3) && !TestBit(b, 4) && !TestBit(b, 5);
    } else {
      assert !TestBit(b, 0) && !TestBit(b, 1) && !TestBit(b, 2) && !TestBit(b, 3) && !TestBit(b, 4) && !TestBit(b, 5) && !TestBit(b, 6);
    }
  }

  lemma SomeBit(b: Byte)
    requires b != 0
    ensures TestBit(b, 0) || TestBit(b, 1) || TestBit(b, 2) || TestBit(b, 3)
         || TestBit(b, 4) || TestBit(b, 5) || TestBit(b, 6) || TestBit(b, 7)
  {}

  lemma {:induction false} CountWith(b: Byte, k: nat, v: bool, n: nat)
    requires k < 8 && n <= 8
    ensures BitCount(WithBit(b, k, v), n) == BitCount(b, n) + if k < n then Unit(v) - Unit(TestBit(b, k)) else 0
  {
    hide TestBit, WithBit;
    if n > 0 {
      CountWith(b, k, v, n - 1);
      TestWith(b, k, v, n - 1);
    }
  }

  /** Each round of the inner loop of hammingWeight removes one bit. */
  lemma ClearCounts(b: Byte)
    requires b != 0
    ensures BitCount(b & (b - 1), 8) == BitCount(b, 8) - 1
  {
    SomeBit(b);
    var k := Lowest(b, 0);
    ClearLowest(b, k);
    hide TestBit, WithBit;
    CountWith(b, k, false, 8);
  }

  function Lowest(b: Byte, from: nat): (k: nat)
    requires from < 8 && (forall j: nat :: j < from ==> !TestBit(b, j))
    requires exists j: nat :: from <= j < 8 && TestBit(b, j)
    ensures k < 8 && TestBit(b, k) && forall j: nat :: j < k ==> !TestBit(b, j)
    decreases 8 - from
  {
    if TestBit(b, from) then from else Lowest(b, from + 1)
  }

  lemma ZeroCounts(n: nat)
    requires n <= 8
    ensures BitCount(0, n) == 0
  {
    if n > 0 {
      ZeroCounts(n - 1);
      ZeroByte(n - 1);
    }
  }

  // ----- bits of a run of bytes -----

  predicate BitAt(bytes: seq<Byte>, i: nat) {
    i / 8 < |bytes| && TestBit(bytes[i / 8], i % 8)
  }

  function NumBytes(bits: nat): (n: nat)
    ensures bits <= 8 * n < bits + 8
  {
    (bits + 7) / 8
  }

  lemma InsideBytes(i: nat, bytes: nat)
    ensures i < 8 * bytes <==> i / 8 < bytes
  {}

  /** The bits from `from` on. */
  function BitsOf(bytes: seq<Byte>, from: nat, length: nat): (r: seq<bool>)
    requires from + length <= 8 * |bytes|
    ensures |r| == length
  {
    seq(length, i requires 0 <= i < length => BitAt(bytes, from + i))
  }

  /** How many of the first n bits are set. */
  function Weight(bytes: seq<Byte>, n: nat): nat
    requires n <= 8 * |bytes|
  {
    if n == 0 then 0 else Weight(bytes, n - 1) + Unit(BitAt(bytes, n - 1))
  }

  lemma {:induction false} WeightOfByte(bytes: seq<Byte>, q: nat, k: nat)
    requires q < |bytes| && k <= 8
    ensures Weight(bytes, 8 * q + k) == Weight(bytes, 8 * q) + BitCount(bytes[q], k)
  {
    hide TestBit;
    if k > 0 {
      WeightOfByte(bytes, q, k - 1);
      assert (8 * q + (k - 1)) / 8 == q && (8 * q + (k - 1)) % 8 == k - 1;
    }
  }

  /** The bits between the last bit and the end of its byte. */
  ghost predicate PaddingClear(bytes: seq<Byte>, numBits: nat) {
    forall i: nat :: numBits <= i < 8 * NumBytes(numBits) ==> !BitAt(bytes, i)
  }

  lemma {:induction false} WeightGrows(bytes: seq<Byte>, m: nat, n: nat)
    requires m <= n <= 8 * |bytes|
    ensures Weight(bytes, m) <= Weight(bytes, n)
    ensures Weight(bytes, m) == Weight(bytes, n) <==> forall i: nat :: m <= i < n ==> !BitAt(bytes, i)
    decreases n
  {
    hide BitAt;
    if m < n {
      WeightGrows(bytes, m, n - 1);
    }
  }

  /** hammingWeight counts whole bytes, so it counts the vector's bits exactly when the padding is clear. */
  lemma WholeBytesCountIff(bytes: seq<Byte>, numBits: nat)
    requires NumBytes(numBits) <= |bytes|
    ensures Weight(bytes, 8 * NumBytes(numBits)) == Weight(bytes, numBits) <==> PaddingClear(bytes, numBits)
  {
    hide BitAt;
    WeightGrows(bytes, numBits, 8 * NumBytes(numBits));
  }

  lemma ZeroBytesZeroBits(bytes: seq<Byte>, numBits: nat)
    requires NumBytes(numBits) <= |bytes| && forall i :: 0 <= i < NumBytes(numBits) ==> bytes[i] == 0
    ensures BitsOf(bytes, 0, numBits) == seq(numBits, _ => false) && PaddingClear(bytes, numBits)
  {
    hide TestBit;
    forall i: nat | i < 8 * NumBytes(numBits) ensures !BitAt(bytes, i) {
      InsideBytes(i, NumBytes(numBits));
      ZeroByte(i % 8);
    }
  }

  /** One bit written, all others as they were. */
  lemma OneBitWritten(bytes: seq<Byte>, idx: nat, v: bool, i: nat)
    requires idx / 8 < |bytes|
    ensures BitAt(bytes[idx / 8 := WithBit(bytes[idx / 8], idx % 8, v)], i) == if i == idx then v else BitAt(bytes, i)
  {
    hide TestBit, WithBit;
    if i / 8 == idx / 8 {
      TestWith(bytes[idx / 8], idx % 8, v, i % 8);
    }
  }

  /** Bytes in the same place hold the same bits. */
  lemma SameBytesSameBits(a: seq<Byte>, b: seq<Byte>, n: nat, i: nat)
    requires n <= |a| && n <= |b| && a[..n] == b[..n] && i < 8 * n
    ensures BitAt(a, i) == BitAt(b, i)
  {
    hide TestBit;
    InsideBytes(i, n);
    assert a[i / 8] == a[..n][i / 8] == b[..n][i / 8] == b[i / 8];
  }

  /** Bytes moved by whole bytes hold the same bits. */
  lemma MovedBytesMovedBits(a: seq<Byte>, p: nat, b: seq<Byte>, q: nat, n: nat, i: nat)
    requires p + n <= |a| && q + n <= |b| && a[p..p + n] == b[q..q + n] && i < 8 * n
    ensures BitAt(a, 8 * p + i) == BitAt(b, 8 * q + i)
  {
    hide TestBit;
    InsideBytes(i, n);
    assert (8 * p + i) / 8 == p + i / 8 && (8 * p + i) % 8 == i % 8;
    assert (8 * q + i) / 8 == q + i / 8 && (8 * q + i) % 8 == i % 8;
    assert a[p + i / 8] == a[p..p + n][i / 8] == b[q..q + n][i / 8];
  }

  /** The padding of two byte strings is the same if their padding bits are. */
  lemma SamePadding(a: seq<Byte>, b: seq<Byte>, m: nat, n: nat)
    requires 8 * NumBytes(m) - m == 8 * NumBytes(n) - n
    requires forall i: nat :: m <= i < 8 * NumBytes(m) ==> BitAt(a, i) == BitAt(b, n + (i - m))
    ensures PaddingClear(a, m) <==> PaddingClear(b, n)
  {
    hide BitAt, NumBytes;
    if PaddingClear(a, m) {
      forall i: nat | n <= i < 8 * NumBytes(n) ensures !BitAt(b, i) {
        assert !BitAt(a, m + (i - n));
      }
    }
  }

  /** The bits behind the last one are those of the old allocation, whether it was replaced or not. */
  lemma ResizedBits(before: seq<Byte>, after: seq<Byte>, used: nat, newSize: nat, i: nat)
    requires newSize <= i < 8 * NumBytes(newSize) && used <= |before|
    requires if NumBytes(newSize) <= |before| then after == before
             else after == before[..used] + seq(NumBytes(newSize) - used, _ => 0)
    ensures BitAt(after, i) == BitAt(before, i)
  {
    hide TestBit;
    if |before| < NumBytes(newSize) {
      assert i / 8 == NumBytes(newSize) - 1;
      ZeroByte(i % 8);
    }
  }

  lemma BytesOfSum(q: nat, length: nat)
    ensures NumBytes(8 * q + length) == q + NumBytes(length)
  {}

  /** Appending whole bytes moves the bits and the padding behind them. */
  lemma BytesAppended(a: seq<Byte>, p: nat, b: seq<Byte>, q: nat, length: nat)
    requires p + NumBytes(length) <= |a| && q + NumBytes(length) <= |b|
    requires a[p..p + NumBytes(length)] == b[q..q + NumBytes(length)]
    ensures forall i: nat :: 8 * p <= i < 8 * p + length ==> BitAt(a, i) == BitAt(b, 8 * q + (i - 8 * p))
    ensures PaddingClear(a, 8 * p + length) <==> PaddingClear(b, 8 * q + length)
  {
    hide BitAt;
    forall i: nat | 8 * p <= i < 8 * p + 8 * NumBytes(length) ensures BitAt(a, i) == BitAt(b, 8 * q + (i - 8 * p)) {
      MovedBytesMovedBits(a, p, b, q, NumBytes(length), i - 8 * p);
    }
    BytesOfSum(p, length);
    BytesOfSum(q, length);
    SamePadding(a, b, 8 * p + length, 8 * q + length);
  }

  lemma BitsJoin(a: seq<Byte>, was: seq<Byte>, n: nat, data: seq<Byte>, offset: nat, length: nat)
    requires n + length <= 8 * |a| && n <= 8 * |was| && offset + length <= 8 * |data|
    requires forall i: nat :: i < n ==> BitAt(a, i) == BitAt(was, i)
    requires forall i: nat :: n <= i < n + length ==> BitAt(a, i) == BitAt(data, offset + (i - n))
    ensures BitsOf(a, 0, n + length) == BitsOf(was, 0, n) + BitsOf(data, offset, length)
  {
    hide BitAt;
  }

  lemma NoBits(bytes: seq<Byte>)
    ensures BitsOf(bytes, 0, 0) == []
  {}

  lemma BitsSlice(bytes: seq<Byte>, idx: nat, length: nat, n: nat)
    requires idx + length <= n <= 8 * |bytes|
    ensures BitsOf(bytes, idx, length) == BitsOf(bytes, 0, n)[idx..idx + length]
  {
    hide BitAt;
  }

  lemma BitsKept(a: seq<Byte>, was: seq<Byte>, n: nat)
    requires NumBytes(n) <= |a| && NumBytes(n) <= |was| && a[..NumBytes(n)] == was[..NumBytes(n)]
    ensures BitsOf(a, 0, n) == BitsOf(was, 0, n)
  {
    hide BitAt;
    forall i: nat | i < n ensures BitAt(a, i) == BitAt(was, i) {
      SameBytesSameBits(a, was, NumBytes(n), i);
    }
  }

  // ----- the vector -----

  class BitVector {
    var mData: array<Byte>
    var mNumBits: nat
    var mAllocBytes: nat

    ghost predicate Valid()
      reads this
    {
      mAllocBytes == mData.Length && NumBytes(mNumBits) <= mAllocBytes
    }

    ghost function Bits(): (r: seq<bool>)
      requires Valid()
      reads this, mData
      ensures |r| == mNumBits
    {
      BitsOf(mData[..], 0, mNumBits)
    }

    constructor ()
      ensures Valid() && Bits() == [] && fresh(mData)
    {
      mData := new Byte[0](_ => 0);
      mNumBits := 0;
      mAllocBytes := 0;
    }

    /** Growing past the allocation copies the bytes in use and clears the rest; otherwise only the
        count changes and the bytes beyond keep what they held.  So the padding is clear exactly if those
        bits of the old allocation were, in use or not. */
    method Resize(newSize: nat)
      requires Valid()
      modifies this
      ensures Valid() && mNumBits == newSize
      ensures NumBytes(newSize) <= old(mAllocBytes) ==> mData == old(mData) && mAllocBytes == old(mAllocBytes)
      ensures old(mAllocBytes) < NumBytes(newSize) ==> fresh(mData) && mAllocBytes == NumBytes(newSize)
      ensures old(mAllocBytes) < NumBytes(newSize) ==>
                var used := NumBytes(old(mNumBits));
                mData[..] == old(mData[..])[..used] + seq(NumBytes(newSize) - used, _ => 0)
      ensures PaddingClear(mData[..], newSize) <==> PaddingClear(old(mData[..]), newSize)
    {
      ghost var was, inUse := mData[..], NumBytes(mNumBits);
      var newBytes := NumBytes(newSize);
      if mAllocBytes < newBytes {
        var tmp := new Byte[newBytes](_ => 0);
        mAllocBytes := newBytes;
        var used := NumBytes(mNumBits);
        forall i | 0 <= i < used {
          tmp[i] := mData[i];
        }
        mData := tmp;
      }
      mNumBits := newSize;
      hide BitAt, NumBytes;
      forall i: nat | newSize <= i < 8 * NumBytes(newSize) ensures BitAt(mData[..], i) == BitAt(was, i) {
        ResizedBits(was, mData[..], inUse, newSize, i);
      }
    }

    /** All bits are zero afterwards, the padding included. */
    method Reset(newBits: nat)
      requires Valid()
      modifies this, mData
      ensures Valid() && mNumBits == newBits && (mData == old(mData) || fresh(mData))
      ensures Bits() == seq(newBits, _ => false) && PaddingClear(mData[..], newBits)
    {
      var newSize := NumBytes(newBits);
      if newSize > mAllocBytes {
        mData := new Byte[newSize](_ => 0);
        mAllocBytes := newSize;
      } else {
        forall i | 0 <= i < newSize {
          mData[i] := 0;
        }
      }
      mNumBits := newBits;
      ZeroBytesZeroBits(mData[..], newBits);
    }

    /** Assignment through operator[]. */
    method SetBit(idx: nat, v: bool) returns (thrown: bool)
      requires Valid()
      modifies mData
      ensures thrown <==> mNumBits <= idx
      ensures thrown ==> mData[..] == old(mData[..])
      ensures forall i: nat :: BitAt(mData[..], i) == if !thrown && i == idx then v else old(BitAt(mData[..], i))
    {
      hide BitAt;
      if idx >= mNumBits {
        return true;
      }
      ghost var before := mData[..];
      InsideBytes(idx, mData.Length);
      mData[idx / 8] := WithBit(mData[idx / 8], idx % 8, v);
      assert mData[..] == before[idx / 8 := WithBit(before[idx / 8], idx % 8, v)];
      forall i: nat ensures BitAt(mData[..], i) == if i == idx then v else BitAt(before, i) {
        OneBitWritten(before, idx, v, i);
      }
      thrown := false;
    }

    /** Whatever the alignment of the two ends, the bits of data from offset on follow the old bits.
        Moving bytes brings the bits of data behind the last one along as padding; moving bits leaves
        what the allocation held there. */
    method Append(data: seq<Byte>, length: nat, offset: nat)
      requires Valid() && offset + length <= 8 * |data|
      modifies this, mData
      ensures Valid() && (mData == old(mData) || fresh(mData))
      ensures Bits() == old(Bits()) + BitsOf(data, offset, length)
      ensures PaddingClear(mData[..], mNumBits)
         <==> if offset % 8 != 0 || old(mNumBits) % 8 != 0 then PaddingClear(old(mData[..]), mNumBits)
              else PaddingClear(data, offset + length)
    {
      ghost var n, was := mNumBits, mData[..];
      var bitIdx := mNumBits;
      var destOffset, destIdx := mNumBits % 8, mNumBits / 8;
      var srcOffset, srcIdx := offset % 8, offset / 8;
      Resize(mNumBits + length);
      BitsKept(mData[..], was, n);
      hide BitAt, BitsOf, PaddingClear, NumBytes;
      if srcOffset != 0 || destOffset != 0 {
        CopyBits(data, length, offset, bitIdx);
      } else {
        CopyBytes(data, srcIdx, destIdx, length);
      }
    }

    /** The loop of append that moves single bits. */
    method CopyBits(data: seq<Byte>, length: nat, offset: nat, bitIdx: nat)
      requires Valid() && offset + length <= 8 * |data| && bitIdx + length == mNumBits
      modifies mData
      ensures Bits() == BitsOf(old(mData[..]), 0, bitIdx) + BitsOf(data, offset, length)
      ensures PaddingClear(mData[..], mNumBits) <==> PaddingClear(old(mData[..]), mNumBits)
    {
      hide BitAt;
      ghost var before := mData[..];
      for i := 0 to length
        invariant forall j: nat :: j < bitIdx ==> BitAt(mData[..], j) == BitAt(before, j)
        invariant forall j: nat :: bitIdx <= j < bitIdx + i ==> BitAt(mData[..], j) == BitAt(data, offset + (j - bitIdx))
        invariant forall j: nat :: bitIdx + i <= j ==> BitAt(mData[..], j) == BitAt(before, j)
      {
        var thrown := SetBit(bitIdx + i, BitAt(data, offset + i));
      }
      BitsJoin(mData[..], before, bitIdx, data, offset, length);
      SamePadding(mData[..], before, mNumBits, mNumBits);
    }

    /** The memcpy of append. */
    method CopyBytes(data: seq<Byte>, srcIdx: nat, destIdx: nat, length: nat)
      requires Valid() && 8 * srcIdx + length <= 8 * |data| && 8 * destIdx + length == mNumBits
      modifies mData
      ensures Bits() == BitsOf(old(mData[..]), 0, 8 * destIdx) + BitsOf(data, 8 * srcIdx, length)
      ensures PaddingClear(mData[..], mNumBits) <==> PaddingClear(data, 8 * srcIdx + length)
    {
      hide BitAt;
      ghost var before := mData[..];
      var byteLength := NumBytes(length);
      BytesOfSum(srcIdx, length);
      BytesOfSum(destIdx, length);
      forall i | 0 <= i < byteLength {
        mData[destIdx + i] := data[srcIdx + i];
      }
      assert mData[..][destIdx..destIdx + byteLength] == data[srcIdx..srcIdx + byteLength];
      forall i: nat | i < 8 * destIdx ensures BitAt(mData[..], i) == BitAt(before, i) {
        SameBytesSameBits(mData[..], before, destIdx, i);
      }
      BytesAppended(mData[..], destIdx, data, srcIdx, length);
      BitsJoin(mData[..], before, 8 * destIdx, data, 8 * srcIdx, length);
    }

    /** The bits of src from idx on, in place of what was there.  A vector copied into itself reads
        ahead of what it writes, except that moving whole bytes may overlap; what memcpy then does is
        undefined, and that is reported. */
    method Copy(src: BitVector, idx: nat, length: nat) returns (overlaps: bool)
      requires Valid() && src.Valid() && (src == this || src.mData != mData) && idx + length <= 8 * src.mData.Length
      modifies this, mData
      ensures Valid() && (mData == old(mData) || fresh(mData))
      ensures overlaps <==> src == this && idx % 8 == 0 && idx / 8 < NumBytes(length)
      ensures !overlaps ==> Bits() == BitsOf(old(src.mData[..]), idx, length)
      ensures !overlaps && idx + length <= old(src.mNumBits) ==> Bits() == old(src.Bits())[idx..idx + length]
      ensures !overlaps ==> (PaddingClear(mData[..], length) <==>
                if idx % 8 != 0 then PaddingClear(old(mData[..]), length) else PaddingClear(old(src.mData[..]), idx + length))
    {
      if idx + length <= src.mNumBits {
        BitsSlice(src.mData[..], idx, length, src.mNumBits);
      }
      hide BitAt, PaddingClear, BitsOf;
      if src == this {
        overlaps := CopySelf(idx, length);
      } else {
        Resize(0);
        NoBits(mData[..]);
        Append(src.mData[..], length, idx);
        overlaps := false;
      }
    }

    method CopySelf(idx: nat, length: nat) returns (overlaps: bool)
      requires Valid() && idx + length <= 8 * mData.Length
      modifies this, mData
      ensures Valid() && mData == old(mData) && mNumBits == length
      ensures overlaps <==> idx % 8 == 0 && idx / 8 < NumBytes(length)
      ensures !overlaps ==> Bits() == BitsOf(old(mData[..]), idx, length)
      ensures !overlaps ==> (PaddingClear(mData[..], length) <==>
                if idx % 8 != 0 then PaddingClear(old(mData[..]), length) else PaddingClear(old(mData[..]), idx + length))
    {
      hide BitAt, PaddingClear;
      ghost var before := mData[..];
      Resize(0);
      Resize(length);
      if idx % 8 != 0 {
        MoveBits(idx, length);
        overlaps := false;
      } else if idx / 8 < NumBytes(length) {
        overlaps := true;
      } else {
        CopyBytes(mData[..], idx / 8, 0, length);
        assert BitsOf(before, 0, 0) == [];
        overlaps := false;
      }
    }

    /** The single bits of the vector's own bytes, moved down. */
    method MoveBits(idx: nat, length: nat)
      requires Valid() && 0 < idx && idx + length <= 8 * mData.Length && mNumBits == length
      modifies mData
      ensures Bits() == BitsOf(old(mData[..]), idx, length)
      ensures PaddingClear(mData[..], length) <==> PaddingClear(old(mData[..]), length)
    {
      hide BitAt;
      ghost var before := mData[..];
      for i := 0 to length
        invariant forall j: nat :: j < i ==> BitAt(mData[..], j) == BitAt(before, idx + j)
        invariant forall j: nat :: i <= j ==> BitAt(mData[..], j) == BitAt(before, j)
      {
        var thrown := SetBit(i, BitAt(mData[..], idx + i));
      }
      SamePadding(mData[..], before, length, length);
    }

    /** Counts the set bits of every byte in use. */
    method HammingWeight() returns (ham: nat)
      requires Valid()
      ensures ham == Weight(mData[..], 8 * NumBytes(mNumBits))
      ensures ham == Weight(mData[..], mNumBits) <==> PaddingClear(mData[..], mNumBits)
    {
      hide BitAt, BitCount, Weight;
      ham := 0;
      NoWeight(mData[..]);
      for i := 0 to NumBytes(mNumBits)
        invariant ham == Weight(mData[..], 8 * i)
      {
        var b := mData[i];
        WeightOfByte(mData[..], i, 8);
        while b != 0
          invariant ham + BitCount(b, 8) == Weight(mData[..], 8 * (i + 1))
          decreases BitCount(b, 8)
        {
          ClearCounts(b);
          ham := ham + 1;
          b := b & (b - 1);
        }
        ZeroCounts(8);
      }
      WholeBytesCountIff(mData[..], mNumBits);
    }

    /** The parity of the bits of the vector, never of its padding. */
    method Parity() returns (bit: Byte)
      requires Valid()
      ensures bit == Parity2(Weight(mData[..], mNumBits))
    {
      hide BitAt, BitCount, Weight;
      bit := 0;
      NoWeight(mData[..]);
      var lastByte := mNumBits / 8;
      for i := 0 to lastByte
        invariant bit == Parity2(Weight(mData[..], 8 * i))
      {
        for k := 0 to 8
          invariant bit == Parity2(Weight(mData[..], 8 * i + k))
        {
          NextBit(mData[..], i, k, bit);
          bit := bit ^ ShiftedBit(mData[i], k);
        }
      }
      var lastBits := mNumBits - lastByte * 8;
      for i := 0 to lastBits
        invariant bit == Parity2(Weight(mData[..], 8 * lastByte + i))
      {
        NextBit(mData[..], lastByte, i, bit);
        bit := bit ^ ShiftedBit(mData[lastByte], i);
      }
    }
  }

  function Parity2(n: nat): Byte {
    if n % 2 == 0 then 0 else 1
  }

  /** (b >> k) & 1 */
  function ShiftedBit(b: Byte, k: nat): Byte
    requires k < 8
  {
    (b >> k) & 1
  }

  lemma ShiftedIsTest(b: Byte, k: nat)
    requires k < 8
    ensures ShiftedBit(b, k) == if TestBit(b, k) then 1 else 0
  {
    if k == 0 {
    } else if k == 1 {
    } else if k == 2 {
    } else if k == 3 {
    } else if k == 4 {
    } else if k == 5 {
    } else if k == 6 {
    } else {
    }
  }

  lemma NextBit(bytes: seq<Byte>, q: nat, k: nat, bit: Byte)
    requires q < |bytes| && k < 8 && bit == Parity2(Weight(bytes, 8 * q + k))
    ensures bit ^ ShiftedBit(bytes[q], k) == Parity2(Weight(bytes, 8 * q + k + 1))
  {
    hide TestBit, ShiftedBit;
    ShiftedIsTest(bytes[q], k);
    assert (8 * q + k) / 8 == q && (8 * q + k) % 8 == k;
    var w := Weight(bytes, 8 * q + k);
    assert Weight(bytes, 8 * q + k + 1) == w + Unit(TestBit(bytes[q], k));
    NextParity(w, TestBit(bytes[q], k));
  }

  lemma NextParity(w: nat, b: bool)
    ensures Parity2(w) ^ (if b then 1 else 0) == Parity2(w + Unit(b))
  {}

  lemma NoWeight(bytes: seq<Byte>)
    ensures Weight(bytes, 0) == 0
  {}

  /** With clear padding both look at the same bits: the parity is the weight modulo two. */
  method ParityIsWeight(v: BitVector) returns (bit: Byte, ham: nat)
    requires v.Valid() && PaddingClear(v.mData[..], v.mNumBits)
    ensures ham == Weight(v.mData[..], v.mNumBits) && bit == Parity2(ham)
  {
    bit := v.Parity();
    ham := v.HammingWeight();
  }
}
