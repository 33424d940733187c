/** The buffered counter-mode generator: cryptoTools/Crypto/PRNG.h and PRNG.cpp. */
module Prng {
  import opened Blocks
  import opened Aes
  import opened LittleEndian

  const BUFFER_BLOCKS: nat := 64
  const BUFFER_BYTES: nat := 1024
  const U64: nat := 0x1_0000_0000_0000_0000

  /** Two u64 stores: the counter in the low half, zero in the high half. */
  function CounterBlock(n: nat): Block {
    Stored(n, 8) + Stored(0, 8)
  }

  lemma EightBytes()
    ensures Pow256(8) == U64
  {
    assert Pow256(4) == 0x1_0000_0000;
  }

  lemma {:induction false} StoredZero(k: nat)
    ensures forall i :: 0 <= i < k ==> Stored(0, k)[i] == 0
  {
    if k > 0 {
      StoredZero(k - 1);
    }
  }

  /** The bytes of a counter block: the digits of the counter in base 256, lowest first, and eight zeros. */
  lemma CounterBytes(n: nat, k: nat)
    requires n < U64 && k < BLOCK_SIZE
    ensures k < 8 ==> Number(CounterBlock(n)[k]) == n / Pow256(k) % 256
    ensures k >= 8 ==> CounterBlock(n)[k] == 0
    ensures Loaded(CounterBlock(n)[..8]) == n
  {
    hide Number, Stored, Loaded, Pow256;
    StoredZero(8);
    if k < 8 {
      StoredAt(n, 8, k);
    }
    assert CounterBlock(n)[..8] == Stored(n, 8);
    LoadedStored(n, 8);
    EightBytes();
  }

  /** A u64 wraps at 2^64. */
  function Wrap(n: nat): nat {
    n % U64
  }

  lemma WrapStep(n: nat)
    ensures Wrap(Wrap(n) + 1) == Wrap(n + 1) && Wrap(0) == 0
  {}

  /** Block n of the key stream; the counter wraps. */
  function KeyBlock(seed: Block, n: nat): Block {
    Encrypt(Schedule(seed), CounterBlock(Wrap(n)))
  }

  /** No block of the key stream comes back before the counter has wrapped: the cipher is a permutation
      and the counters in between differ. */
  lemma KeyBlockRepeatsIff(seed: Block, m: nat, n: nat)
    ensures KeyBlock(seed, m) == KeyBlock(seed, n) <==> m % U64 == n % U64
  {
    hide Encrypt, Decrypt, Schedule, DecSchedule, CounterBlock, Loaded;
    if KeyBlock(seed, m) == KeyBlock(seed, n) {
      DecryptEncrypt(Schedule(seed), CounterBlock(Wrap(m)));
      DecryptEncrypt(Schedule(seed), CounterBlock(Wrap(n)));
      CounterBytes(Wrap(m), 0);
      CounterBytes(Wrap(n), 0);
    }
  }

  /** The key stream as bytes. */
  function KeyByte(seed: Block, n: nat): Byte {
    KeyBlock(seed, n / BLOCK_SIZE)[n % BLOCK_SIZE]
  }

  /** Byte 16 * i + j of the stream is byte j of the encryption of counter i. */
  lemma KeyBytes(seed: Block, i: nat, j: nat)
    requires j < BLOCK_SIZE
    ensures KeyByte(seed, BLOCK_SIZE * i + j) == Encrypt(Schedule(seed), CounterBlock(i % U64))[j]
  {
    hide Encrypt, Schedule, CounterBlock;
    assert (BLOCK_SIZE * i + j) / BLOCK_SIZE == i && (BLOCK_SIZE * i + j) % BLOCK_SIZE == j;
  }

  // ----- what a generator is going to return -----

  /** The state of a generator: seed, buffer contents, blocks produced since seeding, read position. */
  datatype State = State(seed: Block, buffer: seq<Block>, produced: nat, bytesIdx: nat) {
    ghost predicate Valid() {
      |buffer| == BUFFER_BLOCKS && bytesIdx < BUFFER_BYTES
    }

    /** The byte returned after n others: the rest of the buffer first, then the blocks still to come. */
    ghost function Output(n: nat): Byte
      requires |buffer| == BUFFER_BLOCKS
    {
      var i := bytesIdx + n;
      if i < BUFFER_BYTES then BufferByte(buffer, i) else KeyByte(seed, BLOCK_SIZE * produced + (i - BUFFER_BYTES))
    }

    /** The state in which the first n of the bytes to come have been returned. */
    ghost predicate After(n: nat, was: State)
      requires |buffer| == BUFFER_BLOCKS && |was.buffer| == BUFFER_BLOCKS
    {
      forall k: nat :: Output(k) == was.Output(n + k)
    }
  }

  function BufferByte(buffer: seq<Block>, i: nat): Byte
    requires i < BLOCK_SIZE * |buffer|
  {
    buffer[i / BLOCK_SIZE][i % BLOCK_SIZE]
  }

  /** memcpy out of the buffer. */
  function CopyBytes(buffer: seq<Block>, from: nat, step: nat): (r: seq<Byte>)
    requires from + step <= BLOCK_SIZE * |buffer|
    ensures |r| == step && forall i :: 0 <= i < step ==> r[i] == BufferByte(buffer, from + i)
  {
    seq(step, i requires 0 <= i < step => BufferByte(buffer, from + i))
  }

  /** The buffer holds the blocks from `first` on. */
  ghost predicate Holds(buffer: seq<Block>, seed: Block, first: nat) {
    forall i :: 0 <= i < |buffer| ==> buffer[i] == KeyBlock(seed, first + i)
  }

  lemma HeldByte(buffer: seq<Block>, seed: Block, first: nat, i: nat)
    requires Holds(buffer, seed, first) && i < BLOCK_SIZE * |buffer|
    ensures BufferByte(buffer, i) == KeyByte(seed, BLOCK_SIZE * first + i)
  {
    hide KeyBlock;
    assert (BLOCK_SIZE * first + i) / BLOCK_SIZE == first + i / BLOCK_SIZE;
    assert (BLOCK_SIZE * first + i) % BLOCK_SIZE == i % BLOCK_SIZE;
  }

  /** Refilling an exhausted buffer changes nothing in what is still to come. */
  lemma RefillIsSeamless(was: State, now: State)
    requires |was.buffer| == |now.buffer| == BUFFER_BLOCKS && was.bytesIdx == BUFFER_BYTES && now.bytesIdx == 0
    requires now.seed == was.seed && now.produced == was.produced + BUFFER_BLOCKS
    requires Holds(now.buffer, was.seed, was.produced)
    ensures now.After(0, was)
  {
    hide KeyByte, BufferByte;
    forall k: nat ensures now.Output(k) == was.Output(0 + k) {
      if k < BUFFER_BYTES {
        HeldByte(now.buffer, was.seed, was.produced, k);
      }
    }
  }

  lemma ReadingAdvances(was: State, now: State, step: nat)
    requires |was.buffer| == BUFFER_BLOCKS && was.bytesIdx + step <= BUFFER_BYTES
    requires now == was.(bytesIdx := was.bytesIdx + step)
    ensures now.After(step, was)
  {
    hide KeyByte, BufferByte;
  }

  lemma StartsHere(s: State)
    requires |s.buffer| == BUFFER_BLOCKS
    ensures s.After(0, s)
  {}

  lemma AfterAfter(s: State, t: State, u: State, m: nat, n: nat)
    requires |s.buffer| == |t.buffer| == |u.buffer| == BUFFER_BLOCKS && t.After(m, s) && u.After(n, t)
    ensures u.After(m + n, s)
  {
    forall k: nat ensures u.Output(k) == s.Output(m + n + k) {
      assert u.Output(k) == t.Output(n + k) == s.Output(m + (n + k));
    }
  }

  /** One request of m bytes and then one of n bytes return what a single request of m + n would. */
  lemma SplitRequests(s: State, t: State, first: seq<Byte>, second: seq<Byte>)
    requires |s.buffer| == |t.buffer| == BUFFER_BLOCKS && t.After(|first|, s)
    requires forall i :: 0 <= i < |first| ==> first[i] == s.Output(i)
    requires forall i :: 0 <= i < |second| ==> second[i] == t.Output(i)
    ensures forall i :: 0 <= i < |first + second| ==> (first + second)[i] == s.Output(i)
  {
    forall i | |first| <= i < |first + second| ensures (first + second)[i] == s.Output(i) {
      assert second[i - |first|] == t.Output(i - |first|) == s.Output(|first| + (i - |first|));
    }
  }

  /** A freshly seeded generator returns the key stream of its seed from the start. */
  lemma SeededStreams(s: State, n: nat)
    requires |s.buffer| == BUFFER_BLOCKS && s.bytesIdx == 0 && s.produced == BUFFER_BLOCKS && Holds(s.buffer, s.seed, 0)
    ensures s.Output(n) == KeyByte(s.seed, n)
  {
    hide KeyByte, BufferByte;
    if n < BUFFER_BYTES {
      HeldByte(s.buffer, s.seed, 0, n);
    }
  }

  class PRNG {
    var mSeed: Block
    var mBuffer: array<Block>
    var mIndexArray: array<Block>
    const mAes: AES
    var mBytesIdx: nat
    var mBlockIdx: nat
    var mBufferByteCapacity: nat
    /** How many blocks were produced since the seed was set, without wrap-around. */
    ghost var produced: nat

    /** Either a buffer of 64 blocks with something left to read, or no buffer at all, as a
        moved-from object has. */
    ghost predicate Valid()
      reads this, mBuffer, mIndexArray, mAes, mAes.mRoundKey
    {
      && mAes.Valid() && mBuffer != mIndexArray && mAes.mRoundKey != mBuffer && mAes.mRoundKey != mIndexArray
      && mBuffer.Length == mIndexArray.Length && mBufferByteCapacity == BLOCK_SIZE * mBuffer.Length
      && mBlockIdx == Wrap(produced)
      && ((mBuffer.Length == 0 && mBytesIdx == 0) || (mBuffer.Length == BUFFER_BLOCKS && mBytesIdx < BUFFER_BYTES && mAes.Keys() == Schedule(mSeed)))
    }

    ghost predicate Live()
      reads this, mBuffer, mIndexArray, mAes, mAes.mRoundKey
    {
      Valid() && mBuffer.Length == BUFFER_BLOCKS
    }

    ghost function Now(): State
      reads this, mBuffer
    {
      State(mSeed, mBuffer[..], produced, mBytesIdx)
    }

    /** The default constructor does not fill the buffer: the first 1024 bytes are zero, and then the
        key stream of the zero seed begins. */
    constructor ()
      ensures Live() && fresh(mBuffer) && fresh(mIndexArray) && fresh(mAes) && fresh(mAes.mRoundKey)
      ensures mSeed == ZeroBlock
      ensures forall n: nat :: Now().Output(n) == if n < BUFFER_BYTES then 0 else KeyByte(ZeroBlock, n - BUFFER_BYTES)
    {
      hide KeyByte, Schedule;
      mSeed := ZeroBlock;
      mBuffer := new Block[64](_ => ZeroBlock);
      mIndexArray := new Block[64](_ => ZeroBlock);
      mAes := new AES(ZeroBlock);
      mBytesIdx := 0;
      mBlockIdx := 0;
      mBufferByteCapacity := 1024;
      produced := 0;
    }

    constructor Seeded(seed: Block)
      ensures Live() && fresh(mBuffer) && fresh(mIndexArray) && fresh(mAes) && fresh(mAes.mRoundKey)
      ensures mSeed == seed && forall n: nat :: Now().Output(n) == KeyByte(seed, n)
    {
      hide KeyByte, KeyBlock, Schedule;
      mSeed := seed;
      mBuffer := new Block[64](_ => ZeroBlock);
      mIndexArray := new Block[64](_ => ZeroBlock);
      mAes := new AES(seed);
      mBytesIdx := 0;
      mBlockIdx := 0;
      mBufferByteCapacity := 1024;
      produced := 0;
      new;
      RefillBuffer();
      forall n: nat ensures Now().Output(n) == KeyByte(seed, n) {
        SeededStreams(Now(), n);
      }
    }

    /** The new object continues the stream; the old one is left without a buffer. */
    constructor Move(s: PRNG)
      requires s.Valid()
      modifies s, s.mAes.mRoundKey
      ensures Valid() && Now() == old(s.Now()) && (old(s.Live()) ==> Live())
      ensures mBuffer == old(s.mBuffer) && mIndexArray == old(s.mIndexArray) && fresh(mAes) && fresh(mAes.mRoundKey)
      ensures s.Valid() && s.mBuffer.Length == 0 && fresh(s.mBuffer) && fresh(s.mIndexArray)
    {
      hide Schedule, Wrap;
      mSeed := s.mSeed;
      mBuffer := s.mBuffer;
      mIndexArray := s.mIndexArray;
      mAes := new AES.Copy(s.mAes);
      mBytesIdx := s.mBytesIdx;
      mBlockIdx := s.mBlockIdx;
      mBufferByteCapacity := s.mBufferByteCapacity;
      produced := s.produced;
      new;
      s.Forget();
    }

    /** What the move leaves behind. */
    method Forget()
      requires mAes.Valid()
      modifies this, mAes.mRoundKey
      ensures Valid() && mBuffer.Length == 0 && fresh(mBuffer) && fresh(mIndexArray)
    {
      hide Schedule, Wrap;
      mSeed := ZeroBlock;
      mBuffer := new Block[0](_ => ZeroBlock);
      mIndexArray := new Block[0](_ => ZeroBlock);
      mAes.Clear();
      mBytesIdx := 0;
      mBlockIdx := 0;
      mBufferByteCapacity := 0;
      produced := 0;
      WrapStep(0);
    }

    /** Whatever state the object was in, also after a move, the stream of the new seed starts again. */
    method SetSeed(seed: Block)
      requires Valid()
      modifies this, mBuffer, mIndexArray, mAes.mRoundKey
      ensures Live() && (mBuffer == old(mBuffer) || fresh(mBuffer)) && (mIndexArray == old(mIndexArray) || fresh(mIndexArray))
      ensures mSeed == seed && forall n: nat :: Now().Output(n) == KeyByte(seed, n)
    {
      hide KeyByte, KeyBlock, Schedule;
      mSeed := seed;
      mAes.SetKey(seed);
      mBlockIdx := 0;
      produced := 0;
      if mBuffer.Length == 0 {
        mBuffer := new Block[64](_ => ZeroBlock);
        mIndexArray := new Block[64](_ => ZeroBlock);
        mBufferByteCapacity := 1024;
      }
      RefillBuffer();
      forall n: nat ensures Now().Output(n) == KeyByte(seed, n) {
        SeededStreams(Now(), n);
      }
    }

    method RefillBuffer()
      requires mAes.Valid() && mBuffer != mIndexArray && mAes.mRoundKey != mBuffer && mAes.mRoundKey != mIndexArray
      requires mBuffer.Length == mIndexArray.Length == BUFFER_BLOCKS && mBufferByteCapacity == BUFFER_BYTES
      requires mBlockIdx == Wrap(produced) && mAes.Keys() == Schedule(mSeed)
      modifies this, mBuffer, mIndexArray
      ensures Live() && mBytesIdx == 0 && produced == old(produced) + BUFFER_BLOCKS
      ensures mSeed == old(mSeed) && mBuffer == old(mBuffer) && mIndexArray == old(mIndexArray)
      ensures Holds(mBuffer[..], mSeed, old(produced))
    {
      hide CounterBlock, Encrypt, Schedule, Wrap;
      ghost var first := produced;
      for i := 0 to mBuffer.Length
        invariant mAes.Valid() && mAes.Keys() == Schedule(mSeed) && mBufferByteCapacity == BUFFER_BYTES
        invariant mSeed == old(mSeed) && mBuffer == old(mBuffer) && mIndexArray == old(mIndexArray)
        invariant produced == first + i && mBlockIdx == Wrap(produced)
        invariant forall k :: 0 <= k < i ==> mIndexArray[k] == CounterBlock(Wrap(first + k))
      {
        mIndexArray[i] := CounterBlock(mBlockIdx);
        mBlockIdx := Wrap(mBlockIdx + 1);
        WrapStep(produced);
        produced := produced + 1;
      }
      mAes.EcbEncBlocks(mIndexArray, mBuffer.Length, mBuffer);
      mBytesIdx := 0;
    }

    /** One round of the loop in get: copy what is there, refill when that was all. */
    method ReadSome(step: nat) returns (copied: seq<Byte>)
      requires Live() && mBytesIdx + step <= mBufferByteCapacity
      modifies this, mBuffer, mIndexArray
      ensures Live() && mSeed == old(mSeed) && mBuffer == old(mBuffer) && mIndexArray == old(mIndexArray)
      ensures |copied| == step && forall i :: 0 <= i < step ==> copied[i] == old(Now()).Output(i)
      ensures Now().After(step, old(Now()))
    {
      hide KeyByte, KeyBlock, Schedule, BufferByte;
      ghost var before := Now();
      copied := CopyBytes(mBuffer[..], mBytesIdx, step);
      mBytesIdx := mBytesIdx + step;
      ReadingAdvances(before, Now(), step);
      if mBytesIdx == mBufferByteCapacity {
        ghost var exhausted := Now();
        RefillBuffer();
        RefillIsSeamless(exhausted, Now());
        AfterAfter(before, exhausted, Now(), step, 0);
      }
    }

    /** The next `length` bytes of the stream, however earlier requests were split.  A moved-from object
        has no buffer: a round of the loop copies nothing and leaves everything as it is, so the code
        repeats it for ever, which is reported. */
    method Get(length: nat) returns (hangs: bool, dest: seq<Byte>)
      requires Valid()
      modifies this, mBuffer, mIndexArray
      ensures Valid() && mSeed == old(mSeed) && mBuffer == old(mBuffer) && mIndexArray == old(mIndexArray)
      ensures hangs <==> 0 < length && !old(Live())
      ensures !old(Live()) ==> dest == [] && Now() == old(Now())
      ensures old(Live()) ==>
                && Live() && |dest| == length && (forall i :: 0 <= i < length ==> dest[i] == old(Now()).Output(i))
                && Now().After(length, old(Now()))
    {
      hide Schedule, State.Output, State.After;
      ghost var start := Now();
      hangs, dest := false, [];
      if mBuffer.Length == BUFFER_BLOCKS { StartsHere(start); }
      while |dest| < length
        invariant Valid() && mSeed == old(mSeed) && mBuffer == old(mBuffer) && mIndexArray == old(mIndexArray)
        invariant !old(Live()) ==> dest == [] && Now() == start
        invariant old(Live()) ==>
                    && Live() && |dest| <= length && |start.buffer| == BUFFER_BLOCKS
                    && (forall i :: 0 <= i < |dest| ==> dest[i] == start.Output(i)) && Now().After(|dest|, start)
      {
        ghost var before := Now();
        var left := mBufferByteCapacity - mBytesIdx;
        var step := if length - |dest| < left then length - |dest| else left;
        if step == 0 {
          return true, dest;
        }
        var copied := ReadSome(step);
        SplitRequests(start, before, dest, copied);
        AfterAfter(start, before, Now(), |dest|, step);
        dest := dest + copied;
      }
    }
  }
}
