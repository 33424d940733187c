/** TableBased of libOPRF/Hashing/Hints.cpp: bit positions at which the OPRF values of one bin
    differ, and the masks that the bits at those positions form.

    std::rand() is a finite tape of results; a routine whose tape runs out reports that it has not
    finished, so every statement about finished runs holds for all runs that terminate. */
module TableHints {
  import opened BitTests
  import opened Blocks
  import opened Sequences

  // ----- bits and masks -----

  lemma ShiftPow(i: nat)
    ensures Double(Pow(i)) == Pow(i + 1)
  {}

  lemma DifferingBit(a: Block, b: Block, n: nat)
    ensures TestBit(Xor(a, b), n) <==> TestBit(a, n) != TestBit(b, n)
  {
    if n < BLOCK_BITS {
      var k := n % 8;
      assert Pow(k) in {1, 2, 4, 8, 16, 32, 64, 128};
      BitOfXor(a[n / 8], b[n / 8], Pow(k));
    }
  }

  lemma BitOfXor(x: Byte, y: Byte, p: Byte)
    requires p in {1, 2, 4, 8, 16, 32, 64, 128}
    ensures (x ^ y) & p != 0 <==> (x & p != 0) != (y & p != 0)
  {}

  predicate BitPositions(pos: seq<nat>) {
    forall i :: 0 <= i < |pos| ==> pos[i] < BLOCK_BITS
  }

  /** mask ^ (1 << i) when the bit is set */
  function WithBit(mask: Byte, i: nat, bit: bool): Byte {
    if bit then mask ^ Pow(i) else mask
  }

  /** The mask after the first n positions. */
  function MaskUpTo(pos: seq<nat>, n: nat, codeword: Block): Byte
    requires n <= |pos|
  {
    if n == 0 then 0 else
    WithBit(MaskUpTo(pos, n - 1, codeword), n - 1, TestBit(codeword, pos[n - 1]))
  }

  /** The mask that getMask and getMasks build: bit i is the codeword's bit at position i. */
  function MaskOf(pos: seq<nat>, codeword: Block): Byte
  {
    MaskUpTo(pos, |pos|, codeword)
  }

  lemma FreshBit(m: Byte, k: Byte, i: nat, x: bool, y: bool)
    requires i < 8 && Below(m, i) && Below(k, i)
    ensures WithBit(m, i, x) == WithBit(k, i, y) <==> m == k && x == y
  {}

  predicate Below(m: Byte, i: nat) {
    m < Pow(i)
  }

  lemma BelowStep(m: Byte, i: nat, x: bool)
    requires i < 7 && Below(m, i)
    ensures Below(WithBit(m, i, x), i + 1)
  {}

  lemma {:induction false} MaskBelow(pos: seq<nat>, n: nat, codeword: Block)
    requires n <= |pos| && n < 8
    ensures Below(MaskUpTo(pos, n, codeword), n)
  {
    assert Below(0, 0);
    hide Pow, TestBit, WithBit, Below;
    if n > 0 {
      MaskBelow(pos, n - 1, codeword);
      BelowStep(MaskUpTo(pos, n - 1, codeword), n - 1, TestBit(codeword, pos[n - 1]));
    }
  }

  ghost predicate Agree(pos: seq<nat>, n: nat, a: Block, b: Block)
    requires n <= |pos|
  {
    forall i :: 0 <= i < n && i < 8 ==> TestBit(a, pos[i]) == TestBit(b, pos[i])
  }

  lemma {:induction false} MasksAgree(pos: seq<nat>, n: nat, a: Block, b: Block)
    requires n <= |pos|
    ensures MaskUpTo(pos, n, a) == MaskUpTo(pos, n, b) <==> Agree(pos, n, a, b)
  {
    hide Pow, TestBit, WithBit, Below;
    if n > 0 {
      MasksAgree(pos, n - 1, a, b);
      var m, k := MaskUpTo(pos, n - 1, a), MaskUpTo(pos, n - 1, b);
      if n <= 8 {
        MaskBelow(pos, n - 1, a);
        MaskBelow(pos, n - 1, b);
        FreshBit(m, k, n - 1, TestBit(a, pos[n - 1]), TestBit(b, pos[n - 1]));
        assert Agree(pos, n, a, b) <==> Agree(pos, n - 1, a, b) && TestBit(a, pos[n - 1]) == TestBit(b, pos[n - 1]);
      } else {
        NoBit(m, n - 1, TestBit(a, pos[n - 1]));
        NoBit(k, n - 1, TestBit(b, pos[n - 1]));
      }
    }
  }

  /** Bits of a byte that the mask of n positions has: only those below n, and those as the codeword has them. */
  ghost predicate MaskBitsUpTo(mask: Byte, pos: seq<nat>, n: nat, codeword: Block)
    requires n <= |pos|
  {
    forall i: nat :: i < 8 ==> (BitSet(mask, i) <==> i < n && TestBit(codeword, pos[i]))
  }

  lemma FlippedBit(mask: Byte, k: nat, bit: bool, i: nat)
    requires i < 8
    ensures BitSet(WithBit(mask, k, bit), i) <==> if k == i && bit then !BitSet(mask, i) else BitSet(mask, i)
  {
    var p, q := Pow(k), Pow(i);
    assert q in {1, 2, 4, 8, 16, 32, 64, 128} && p in {0, 1, 2, 4, 8, 16, 32, 64, 128} && (p == q <==> k == i);
    BitOfXor(mask, p, q);
    PowersMeet(p, q);
  }

  lemma PowersMeet(p: Byte, q: Byte)
    requires p in {0, 1, 2, 4, 8, 16, 32, 64, 128} && q in {1, 2, 4, 8, 16, 32, 64, 128}
    ensures p & q != 0 <==> p == q
  {}

  lemma {:induction false} MaskBitsStep(pos: seq<nat>, n: nat, codeword: Block)
    requires n <= |pos|
    ensures MaskBitsUpTo(MaskUpTo(pos, n, codeword), pos, n, codeword)
  {
    assert forall i: nat :: !BitSet(0, i);
    hide Pow, TestBit, WithBit, BitSet;
    if n > 0 {
      MaskBitsStep(pos, n - 1, codeword);
      var mask := MaskUpTo(pos, n - 1, codeword);
      forall i: nat | i < 8 ensures BitSet(MaskUpTo(pos, n, codeword), i) <==> i < n && TestBit(codeword, pos[i]) {
        FlippedBit(mask, n - 1, TestBit(codeword, pos[n - 1]), i);
      }
    }
  }

  /** Bit i of a mask is the codeword's bit at position i; bits for which there is no position are clear. */
  lemma MaskBits(pos: seq<nat>, codeword: Block, i: nat)
    requires i < 8
    ensures BitSet(MaskOf(pos, codeword), i) <==> i < |pos| && TestBit(codeword, pos[i])
  {
    hide Pow, TestBit, WithBit, BitSet;
    MaskBitsStep(pos, |pos|, codeword);
  }

  /** Two codewords have the same mask exactly when they agree at the first eight positions. */
  lemma MaskEqIff(pos: seq<nat>, a: Block, b: Block)
    ensures MaskOf(pos, a) == MaskOf(pos, b) <==> Agree(pos, |pos|, a, b)
  {
    MasksAgree(pos, |pos|, a, b);
  }

  lemma FlipsBit(m: Byte, i: nat, x: bool)
    ensures WithBit(m, i, x) == if x then Flip(m, Pow(i)) else m
  {}

  lemma FirstPow()
    ensures Pow(0) == 1
  {}

  /** mask ^ idx */
  function Flip(mask: Byte, idx: Byte): Byte {
    mask ^ idx
  }

  /** idx << 1 */
  function Double(idx: Byte): Byte {
    idx << 1
  }

  lemma NoBit(m: Byte, i: nat, x: bool)
    requires i >= 8 || !x
    ensures WithBit(m, i, x) == m
  {
    assert m ^ 0 == m;
  }

  function PowNat(n: nat): nat {
    if n == 0 then 1 else 2 * PowNat(n - 1)
  }

  /** With at most eight positions a mask is an index below 2^positions. */
  lemma MaskIndex(pos: seq<nat>, codeword: Block)
    requires |pos| <= 8
    ensures Number(MaskOf(pos, codeword)) < PowNat(|pos|)
  {
    assert PowNat(8) == 256;
    if |pos| < 8 {
      MaskBelow(pos, |pos|, codeword);
      assert Pow(|pos|) as nat == PowNat(|pos|);
    }
  }

  /** The mask as the slot number it selects. */
  function MaskSlot(pos: seq<nat>, codeword: Block): (slot: nat)
    requires |pos| <= 8
    ensures slot < PowNat(|pos|)
  {
    MaskIndex(pos, codeword);
    Number(MaskOf(pos, codeword))
  }

  lemma SlotIsMask(pos: seq<nat>, codeword: Block)
    requires |pos| <= 8
    ensures MaskSlot(pos, codeword) == Number(MaskOf(pos, codeword))
  {}

  /** Distinct masks select distinct slots. */
  lemma SlotsDiffer(pos: seq<nat>, codewords: seq<Block>)
    requires |pos| <= 8 && NoDup(MasksOf(pos, codewords))
    ensures forall i, j :: 0 <= i < j < |codewords| ==> MaskSlot(pos, codewords[i]) != MaskSlot(pos, codewords[j])
  {
    forall i, j | 0 <= i < j < |codewords| ensures MaskSlot(pos, codewords[i]) != MaskSlot(pos, codewords[j]) {
      assert MasksOf(pos, codewords)[i] != MasksOf(pos, codewords)[j];
    }
  }

  /** How many masks there are; positions from the ninth on do not reach a u8. */
  function MaskCount(positions: nat): nat {
    PowNat(if positions < 8 then positions else 8)
  }

  lemma MaskInRange(pos: seq<nat>, codeword: Block)
    ensures Number(MaskOf(pos, codeword)) < MaskCount(|pos|)
  {
    assert PowNat(8) == 256;
    if |pos| < 8 {
      MaskIndex(pos, codeword);
    }
  }

  /** Codewords with masks of their own are at most as many as there are masks. */
  lemma MasksRunOut(pos: seq<nat>, codewords: seq<Block>)
    requires NoDup(MasksOf(pos, codewords))
    ensures |codewords| <= MaskCount(|pos|)
  {
    hide Number, MaskOf, MaskCount;
    var masks := MasksOf(pos, codewords);
    var slots := seq(|masks|, i requires 0 <= i < |masks| => Number(masks[i]));
    forall i | 0 <= i < |slots| ensures slots[i] < MaskCount(|pos|) {
      MaskInRange(pos, codewords[i]);
    }
    forall i, j | 0 <= i < j < |slots| ensures slots[i] != slots[j] {
      if slots[i] == slots[j] {
        SameNumber(masks[i], masks[j]);
      }
    }
    Pigeonhole(slots, MaskCount(|pos|));
  }

  function MasksOf(pos: seq<nat>, codewords: seq<Block>): (r: seq<Byte>)
    ensures |r| == |codewords| && forall i :: 0 <= i < |r| ==> r[i] == MaskOf(pos, codewords[i])
  {
    seq(|codewords|, i requires 0 <= i < |codewords| => MaskOf(pos, codewords[i]))
  }

  /** The masks stay distinct until one is already there. */
  lemma NextMask(all: seq<Byte>, n: nat)
    requires n < |all| && NoDup(all[..n])
    ensures all[..n + 1] == all[..n] + [all[n]]
    ensures all[n] !in all[..n] ==> NoDup(all[..n + 1])
    ensures all[n] in all[..n] ==> !NoDup(all)
  {
    if all[n] in all[..n] {
      var k :| 0 <= k < n && all[..n][k] == all[n];
      assert all[k] == all[n];
    }
  }

  // ----- which bins have hints, and which draws find them -----

  /** Vector j of diff: neighbours XORed, the last one alone if the number is odd. */
  function DiffAt(codewords: seq<Block>, j: nat): Block
    requires 2 * j < |codewords|
  {
    if 2 * j + 1 < |codewords| then Xor(codewords[2 * j], codewords[2 * j + 1]) else codewords[2 * j]
  }

  function DiffCount(n: nat): nat {
    (n + 1) / 2
  }

  /** A position that the general case may choose. */
  ghost predicate Pickable(codewords: seq<Block>, length: nat, p: nat) {
    p < length && exists j: nat :: 2 * j < |codewords| && TestBit(DiffAt(codewords, j), p)
  }

  /** Positions with which the general case ends. */
  ghost predicate Separates(codewords: seq<Block>, length: nat, size: nat, pos: seq<nat>) {
    && |pos| == size && NoDup(pos) && NoDup(MasksOf(pos, codewords))
    && forall k :: 0 <= k < |pos| ==> Pickable(codewords, length, pos[k])
  }

  predicate FirstPair(c: seq<Block>, length: nat, p: nat) {
    |c| >= 2 && p < length && TestBit(Xor(c[0], c[1]), p)
  }

  predicate SecondPair(c: seq<Block>, length: nat, q: nat) {
    |c| == 3 && q < length && TestBit(Xor(c[0], c[2]), q) && !TestBit(Xor(c[0], c[1]), q)
  }

  /** The bins for which the search can end. */
  ghost predicate CanEnd(c: seq<Block>, length: nat, size: nat) {
    if |c| == 2 then size <= BLOCK_BITS && exists p: nat :: FirstPair(c, length, p)
    else if |c| == 3 then
      size <= BLOCK_BITS && (exists p: nat :: FirstPair(c, length, p)) && exists q: nat :: SecondPair(c, length, q)
    else exists pos: seq<nat> :: Separates(c, length, size, pos)
  }

  function Needed(size: nat, had: nat): nat {
    if had < size then size - had else 0
  }

  function Residues(tape: seq<nat>, start: nat, n: nat): (r: seq<nat>)
    requires start + n <= |tape|
    ensures |r| == n && forall k :: 0 <= k < n ==> r[k] == tape[start + k] % 128
  {
    seq(n, k requires 0 <= k < n => tape[start + k] % 128)
  }

  lemma NextIsNew(had: seq<nat>, more: seq<nat>, k: nat)
    requires NoDup(had + more) && k < |more|
    ensures more[k] !in had + more[..k] && had + more[..k] + [more[k]] == had + more[..k + 1]
  {
    forall i | 0 <= i < |had| + k ensures (had + more[..k])[i] != more[k] {
      assert (had + more)[i] != (had + more)[|had| + k];
    }
  }

  /** The next draws are as many new positions as getRandPos wants. */
  ghost predicate FreshDraws(tape: seq<nat>, start: nat, had: seq<nat>, n: nat) {
    start + n <= |tape| && NoDup(had + Residues(tape, start, n))
  }

  /** The next draws choose exactly these positions in the general case. */
  ghost predicate RetryDraws(tape: seq<nat>, start: nat, codewords: seq<Block>, length: nat, want: seq<nat>) {
    && start + 2 * |want| <= |tape| && codewords != [] && 0 < length
    && forall k :: 0 <= k < |want| ==> RetryDraw(codewords, length, tape[start + 2 * k], tape[start + 2 * k + 1], want[k])
  }

  predicate RetryDraw(codewords: seq<Block>, length: nat, r: nat, d: nat, p: nat)
    requires codewords != [] && 0 < length
  {
    r % length == p && TestBit(DiffAt(codewords, d % DiffCount(|codewords|)), p)
  }

  lemma RoomForDraws(tape: seq<nat>, start: nat, codewords: seq<Block>, length: nat, want: seq<nat>)
    ensures RetryDraws(tape, start, codewords, length, want) ==> start + 2 * |want| <= |tape|
  {}

  /** The next two draws choose the next position that is wanted. */
  lemma NextDraw(tape: seq<nat>, start: nat, codewords: seq<Block>, length: nat, want: seq<nat>, k: nat)
    requires NoDup(want) && RetryDraws(tape, start, codewords, length, want) && k < |want|
    ensures var r, d := tape[start + 2 * k] % length, tape[start + 2 * k + 1] % DiffCount(|codewords|);
            r == want[k] && TestBit(DiffAt(codewords, d), r) && r !in want[..k] && want[..k + 1] == want[..k] + [r]
  {
    hide TestBit, DiffAt;
    assert RetryDraw(codewords, length, tape[start + 2 * k], tape[start + 2 * k + 1], want[k]);
  }

  /** Draws with which the search ends at once. */
  ghost predicate Leads(tape: seq<nat>, want: seq<nat>, c: seq<Block>, length: nat, size: nat)
    requires 0 < length
  {
    if |c| == 2 then
      1 <= |tape| && FirstPair(c, length, tape[0] % length) && FreshDraws(tape, 1, [tape[0] % length], Needed(size, 1))
    else if |c| == 3 then
      && 2 <= |tape| && FirstPair(c, length, tape[0] % length) && SecondPair(c, length, tape[1] % length)
      && FreshDraws(tape, 2, [tape[0] % length, tape[1] % length], Needed(size, 2))
    else
      && (|c| == 1 ==> FreshDraws(tape, 0, [], size)) && Separates(c, length, size, want)
      && RetryDraws(tape, if |c| == 1 then size else 0, c, length, want)
  }

  // ----- the class -----

  class TableBased {
    var mMaxBitSize: nat
    var mPos: seq<nat>
    var mMaps: seq<Byte>

    constructor (numMaxBitSize: nat)
      ensures mMaxBitSize == numMaxBitSize && mPos == [] && mMaps == []
    {
      mMaxBitSize, mPos, mMaps := numMaxBitSize, [], [];
    }

    method GetMask(codeword: Block) returns (mask: Byte)
      ensures mask == MaskOf(mPos, codeword)
    {
      hide Pow, TestBit, WithBit, Flip, Double;
      mask := 0;
      var idx: Byte := 1;
      FirstPow();
      for i := 0 to |mPos|
        invariant mask == MaskUpTo(mPos, i, codeword) && idx == Pow(i)
      {
        FlipsBit(mask, i, TestBit(codeword, mPos[i]));
        if TestBit(codeword, mPos[i]) {
          mask := Flip(mask, idx);
        }
        ShiftPow(i);
        idx := Double(idx);
      }
    }

    /** Appends the masks of the codewords; on the first repetition it clears all masks and fails. */
    method GetMasks(codewords: seq<Block>) returns (ok: bool)
      requires NoDup(mMaps)
      modifies this`mMaps
      ensures ok <==> NoDup(old(mMaps) + MasksOf(mPos, codewords))
      ensures mMaps == if ok then old(mMaps) + MasksOf(mPos, codewords) else []
    {
      hide MaskOf, NoDup;
      ghost var all := old(mMaps) + MasksOf(mPos, codewords);
      for i := 0 to |codewords|
        invariant mPos == old(mPos)
        invariant mMaps == all[..|old(mMaps)| + i] && NoDup(mMaps)
      {
        var rs := GetMask(codewords[i]);
        NextMask(all, |old(mMaps)| + i);
        if rs !in mMaps {
          mMaps := mMaps + [rs];
        } else {
          mMaps := [];
          return false;
        }
      }
      assert all[..|all|] == all;
      return true;
    }

    /** Random positions until there are mMaxBitSize of them. */
    method GetRandPos(tape: seq<nat>, start: nat) returns (finished: bool, used: nat)
      requires BitPositions(mPos) && NoDup(mPos) && start <= |tape|
      modifies this`mPos
      ensures BitPositions(mPos) && NoDup(mPos) && start <= used <= |tape|
      ensures old(mPos) <= mPos
      ensures finished ==> |mPos| == if |old(mPos)| < mMaxBitSize then mMaxBitSize else |old(mPos)|
      ensures !finished ==> used == |tape|
      ensures finished ==> |old(mPos)| < mMaxBitSize ==> mMaxBitSize <= BLOCK_BITS
      ensures FreshDraws(tape, start, old(mPos), Needed(mMaxBitSize, |old(mPos)|)) ==>
                finished && used == start + Needed(mMaxBitSize, |old(mPos)|)
    {
      used := start;
      ghost var n := Needed(mMaxBitSize, |mPos|);
      ghost var allNew := FreshDraws(tape, start, mPos, n);
      while |mPos| < mMaxBitSize && used < |tape|
        invariant allNew ==> used <= start + n && mPos == old(mPos) + Residues(tape, start, n)[..used - start]
        invariant BitPositions(mPos) && NoDup(mPos) && start <= used <= |tape|
        invariant old(mPos) <= mPos && (|mPos| <= mMaxBitSize || mPos == old(mPos))
        decreases |tape| - used
      {
        var rand := tape[used] % 128;
        if allNew {
          NextIsNew(old(mPos), Residues(tape, start, n), used - start);
        }
        used := used + 1;
        if rand !in mPos {
          mPos := mPos + [rand];
        }
      }
      finished := |mPos| >= mMaxBitSize;
      Pigeonhole(mPos, BLOCK_BITS);
    }

    /** Appends a random position at which the bit of `differ` is set and, when asked, that of `same` is not. */
    method PushDiffering(differ: Block, same: Block, checkSame: bool, length: nat, tape: seq<nat>, start: nat)
      returns (finished: bool, used: nat)
      requires BitPositions(mPos) && NoDup(mPos) && start <= |tape| && 0 < length <= BLOCK_BITS
      requires !checkSame ==> mPos == []
      modifies this`mPos
      ensures start <= used <= |tape|
      ensures BitPositions(mPos) && NoDup(mPos)
      ensures finished ==> |mPos| == |old(mPos)| + 1 && old(mPos) <= mPos && TestBit(differ, mPos[|mPos| - 1])
      ensures finished && checkSame ==> !TestBit(same, mPos[|mPos| - 1])
      ensures finished ==> mPos[|mPos| - 1] < length
      ensures !finished ==> used == |tape|
      ensures start < |tape| && Hits(differ, same, checkSame, old(mPos), tape[start] % length) ==>
                finished && used == start + 1 && mPos == old(mPos) + [tape[start] % length]
    {
      used := start;
      while used < |tape|
        invariant start <= used <= |tape| && mPos == old(mPos)
        invariant start < used ==> !Hits(differ, same, checkSame, mPos, tape[start] % length)
        decreases |tape| - used
      {
        var rand := tape[used] % length;
        used := used + 1;
        if Hits(differ, same, checkSame, mPos, rand) {
          mPos := mPos + [rand];
          return true, used;
        }
      }
      finished := false;
    }

    static predicate Hits(differ: Block, same: Block, checkSame: bool, pos: seq<nat>, rand: nat) {
      TestBit(differ, rand) && (checkSame ==> !TestBit(same, rand) && rand !in pos)
    }

    static method Differences(codewords: seq<Block>) returns (diff: seq<Block>)
      requires codewords != []
      ensures |diff| == DiffCount(|codewords|)
      ensures forall i :: 0 <= i < |diff| ==> diff[i] == DiffAt(codewords, i)
    {
      diff := [];
      var i := 0;
      while i + 1 < |codewords|
        invariant i % 2 == 0 && i <= |codewords| && |diff| == i / 2
        invariant forall j :: 0 <= j < |diff| ==> 2 * j + 1 < |codewords| && diff[j] == DiffAt(codewords, j)
      {
        diff := diff + [Xor(codewords[i], codewords[i + 1])];
        i := i + 2;
      }
      if |codewords| % 2 == 1 {
        diff := diff + [codewords[|codewords| - 1]];
      }
    }

    /** One try of the general case: fresh random positions at set bits of the differences.  `want` are
        positions that the draws may lead to. */
    method TryPositions(codewords: seq<Block>, diff: seq<Block>, length: nat, tape: seq<nat>, start: nat, ghost want: seq<nat>)
      returns (used: nat)
      requires codewords != [] && 0 < length <= BLOCK_BITS && start <= |tape| && mPos == []
      requires |diff| == DiffCount(|codewords|) && forall i :: 0 <= i < |diff| ==> diff[i] == DiffAt(codewords, i)
      modifies this`mPos
      ensures BitPositions(mPos) && NoDup(mPos) && |mPos| <= mMaxBitSize && start <= used <= |tape|
      ensures forall k :: 0 <= k < |mPos| ==> Pickable(codewords, length, mPos[k])
      ensures mPos != [] ==> start < used
      ensures |mPos| < mMaxBitSize ==> |tape| <= used + 1
      ensures |want| == mMaxBitSize && NoDup(want) && RetryDraws(tape, start, codewords, length, want) ==> mPos == want
    {
      hide DiffAt, TestBit, RetryDraws;
      used := start;
      RoomForDraws(tape, start, codewords, length, want);
      ghost var leads := |want| == mMaxBitSize && NoDup(want) && RetryDraws(tape, start, codewords, length, want);
      while |mPos| < mMaxBitSize && used + 1 < |tape|
        invariant BitPositions(mPos) && NoDup(mPos) && |mPos| <= mMaxBitSize
        invariant forall k :: 0 <= k < |mPos| ==> Pickable(codewords, length, mPos[k])
        invariant start <= used <= |tape| && (mPos != [] ==> start < used)
        invariant leads ==> used == start + 2 * |mPos| && mPos == want[..|mPos|]
        decreases |tape| - used
      {
        var rIdx := tape[used] % length;
        var rDiffIdx := tape[used + 1] % |diff|;
        if leads {
          NextDraw(tape, start, codewords, length, want, |mPos|);
        }
        used := used + 2;
        if TestBit(diff[rDiffIdx], rIdx) && rIdx !in mPos {
          assert 2 * rDiffIdx < |codewords| && TestBit(DiffAt(codewords, rDiffIdx), rIdx);
          mPos := mPos + [rIdx];
        }
      }
    }

    /** The general case: retried until the masks of all codewords differ. */
    method Retry(codewords: seq<Block>, length: nat, tape: seq<nat>, start: nat, ghost want: seq<nat>)
      returns (finished: bool, used: nat)
      requires codewords != [] && 0 < length <= BLOCK_BITS && start <= |tape|
      modifies this`mPos, this`mMaps
      ensures finished ==> BitPositions(mPos) && Separates(codewords, length, mMaxBitSize, mPos)
      ensures finished ==> mMaps == MasksOf(mPos, codewords)
      ensures !finished ==> |tape| <= used + 1 || mMaxBitSize == 0
      ensures Separates(codewords, length, mMaxBitSize, want) && RetryDraws(tape, start, codewords, length, want) ==> finished
    {
      hide DiffAt, TestBit, MaskOf, Pickable, RetryDraws, DiffCount;
      var diff := Differences(codewords);
      used := start;
      var isFind := false;
      ghost var leads := Separates(codewords, length, mMaxBitSize, want) && RetryDraws(tape, start, codewords, length, want);
      while !isFind && used <= |tape|
        invariant used <= |tape| + 1
        invariant isFind ==> BitPositions(mPos) && Separates(codewords, length, mMaxBitSize, mPos)
        invariant isFind ==> mMaps == MasksOf(mPos, codewords)
        invariant leads ==> isFind || used == start
        decreases |tape| + 1 - used, !isFind
      {
        mMaps, mPos := [], [];
        used := TryPositions(codewords, diff, length, tape, used, want);
        if |mPos| < mMaxBitSize {
          return false, used;
        }
        assert [] + MasksOf(mPos, codewords) == MasksOf(mPos, codewords);
        isFind := GetMasks(codewords);
        if !isFind && mMaxBitSize == 0 {
          return false, used;      // no positions to choose: the code would retry for ever
        }
      }
      finished := isFind;
    }

    /** The case of two codewords.  It leaves isFind set, so the general case is not entered. */
    method TwoCodewords(codewords: seq<Block>, length: nat, tape: seq<nat>) returns (finished: bool, used: nat)
      requires |codewords| == 2 && 0 < length <= BLOCK_BITS && mPos == [] && mMaps == []
      modifies this`mPos, this`mMaps
      ensures finished ==> BitPositions(mPos) && NoDup(mPos) && |mPos| == if mMaxBitSize < 1 then 1 else mMaxBitSize
      ensures finished ==> mMaps == MasksOf(mPos, codewords) && NoDup(mMaps)
      ensures finished ==> CanEnd(codewords, length, mMaxBitSize)
      ensures Leads(tape, [], codewords, length, mMaxBitSize) ==> finished
      ensures !finished ==> used == |tape|
    {
      hide TestBit, Xor, MaskOf, FreshDraws, BitPositions;
      finished, used := PushDiffering(Xor(codewords[0], codewords[1]), ZeroBlock, false, length, tape, 0);
      if !finished { return; }
      assert FirstPair(codewords, length, mPos[0]) && mPos == [mPos[0]];
      finished, used := GetRandPos(tape, used);
      if !finished { return; }
      TwoMasksDiffer(mPos, codewords);
      assert [] + MasksOf(mPos, codewords) == MasksOf(mPos, codewords);
      var _ := GetMasks(codewords);
    }

    method ThreeCodewords(codewords: seq<Block>, length: nat, tape: seq<nat>) returns (finished: bool, used: nat)
      requires |codewords| == 3 && 0 < length <= BLOCK_BITS && mPos == [] && mMaps == []
      modifies this`mPos, this`mMaps
      ensures finished ==> BitPositions(mPos) && NoDup(mPos) && |mPos| == if mMaxBitSize < 2 then 2 else mMaxBitSize
      ensures finished ==> mMaps == MasksOf(mPos, codewords) && NoDup(mMaps)
      ensures finished ==> CanEnd(codewords, length, mMaxBitSize)
      ensures Leads(tape, [], codewords, length, mMaxBitSize) ==> finished
      ensures !finished ==> used == |tape|
    {
      hide TestBit, Xor, MaskOf, FreshDraws, BitPositions;
      var diff := Xor(codewords[0], codewords[1]);
      finished, used := PushDiffering(diff, ZeroBlock, false, length, tape, 0);
      if !finished { return; }
      var diff2 := Xor(codewords[0], codewords[2]);
      assert FirstPair(codewords, length, mPos[0]) && mPos == [mPos[0]];
      finished, used := PushDiffering(diff2, diff, true, length, tape, used);
      if !finished { return; }
      assert SecondPair(codewords, length, mPos[1]) && mPos == [mPos[0], mPos[1]];
      finished, used := GetRandPos(tape, used);
      if !finished { return; }
      ThreeMasksDiffer(mPos, codewords);
      assert [] + MasksOf(mPos, codewords) == MasksOf(mPos, codewords);
      var _ := GetMasks(codewords);
    }

    /** getPos1 on fresh fields.  Whenever it returns, the positions are distinct, there are as many as
        asked for (but at least the one or two that two or three codewords need), every codeword has its
        own mask, and the bin is one for which the search can end; for such a bin some draws let it end,
        see SomeDrawsLead.  It fails to return only when the draws are used up, or when no position is
        asked for and the masks of several codewords can never differ. */
    method GetPos1(codewords: seq<Block>, length: nat, tape: seq<nat>, ghost want: seq<nat>) returns (finished: bool, used: nat)
      requires codewords != [] && 0 < length <= BLOCK_BITS && mPos == [] && mMaps == []
      modifies this`mPos, this`mMaps
      ensures finished ==> BitPositions(mPos) && NoDup(mPos)
      ensures finished ==> |mPos| == PositionCount(|codewords|, mMaxBitSize)
      ensures finished ==> mMaps == MasksOf(mPos, codewords) && NoDup(mMaps)
      ensures finished ==> |codewords| <= MaskCount(|mPos|)
      ensures finished ==> CanEnd(codewords, length, mMaxBitSize)
      ensures Leads(tape, want, codewords, length, mMaxBitSize) ==> finished
      ensures !finished ==> |tape| <= used + 1 || mMaxBitSize == 0
    {
      hide TestBit, Xor, MaskOf, MaskCount, Separates, RetryDraws, FreshDraws, FirstPair, SecondPair;
      used := 0;
      if |codewords| == 1 {
        finished, used := GetRandPos(tape, used);
        if !finished { return; }
        var _ := GetMasks(codewords);
      }
      if |codewords| == 2 {
        finished, used := TwoCodewords(codewords, length, tape);
      } else if |codewords| == 3 {
        finished, used := ThreeCodewords(codewords, length, tape);
      } else {
        finished, used := Retry(codewords, length, tape, used, want);
      }
      if finished {
        SeparatesFacts(codewords, length, mMaxBitSize, mPos);
        MasksRunOut(mPos, codewords);
      }
    }
  }

  // ----- some draws let the search end -----

  /** A list of different numbers that is shorter than m misses one below m. */
  lemma {:induction false} SomeMissing(s: seq<nat>, m: nat) returns (x: nat)
    requires NoDup(s) && |s| < m
    ensures x < m && x !in s
    decreases m
  {
    if m - 1 !in s {
      x := m - 1;
    } else {
      var k :| 0 <= k < |s| && s[k] == m - 1;
      var rest := s[..k] + s[k + 1..];
      forall i | 0 <= i < |s| && i != k ensures s[i] in rest {
        assert rest[if i < k then i else i - 1] == s[i];
      }
      x := SomeMissing(rest, m - 1);
    }
  }

  lemma {:induction false} SomeFresh(had: seq<nat>, n: nat) returns (more: seq<nat>)
    requires NoDup(had) && |had| + n <= BLOCK_BITS
    ensures |more| == n && NoDup(had + more) && forall i :: 0 <= i < n ==> more[i] < BLOCK_BITS
  {
    if n == 0 {
      more := [];
      assert had + [] == had;
    } else {
      var shorter := SomeFresh(had, n - 1);
      var x := SomeMissing(had + shorter, BLOCK_BITS);
      more := shorter + [x];
      assert had + more == had + shorter + [x];
    }
  }

  /** Draws for fresh positions, after some others and before some others. */
  lemma TapeOfFresh(before: seq<nat>, had: seq<nat>, n: nat, behind: seq<nat>) returns (more: seq<nat>)
    requires NoDup(had) && |had| + n <= BLOCK_BITS
    ensures |more| == n && FreshDraws(before + more + behind, |before|, had, n)
  {
    more := SomeFresh(had, n);
    var tape := before + more + behind;
    assert Residues(tape, |before|, n) == more;
  }

  lemma {:induction false} TapeOfRetry(before: seq<nat>, c: seq<Block>, length: nat, want: seq<nat>) returns (more: seq<nat>)
    requires c != [] && 0 < length && forall k :: 0 <= k < |want| ==> Pickable(c, length, want[k])
    ensures |more| == 2 * |want| && RetryDraws(before + more, |before|, c, length, want)
  {
    hide DiffAt, TestBit;
    if want == [] {
      more := [];
    } else {
      var n := |want| - 1;
      var shorter := TapeOfRetry(before, c, length, want[..n]);
      assert Pickable(c, length, want[n]);
      var j: nat :| 2 * j < |c| && TestBit(DiffAt(c, j), want[n]);
      more := shorter + [want[n], j];
      var tape := before + more;
      forall k | 0 <= k < |want|
        ensures RetryDraw(c, length, tape[|before| + 2 * k], tape[|before| + 2 * k + 1], want[k])
      {
        if k < n {
          assert RetryDraw(c, length, (before + shorter)[|before| + 2 * k], (before + shorter)[|before| + 2 * k + 1], want[..n][k]);
        } else {
          SmallModulus(want[n], length);
          SmallModulus(j, DiffCount(|c|));
        }
      }
    }
  }

  lemma SmallModulus(x: nat, m: nat)
    requires x < m
    ensures x % m == x
  {}

  /** A bin for which the search can end has draws with which it does: with CanEnd being what every
      finished search shows, that is exactly when. */
  lemma SomeDrawsLead(c: seq<Block>, length: nat, size: nat) returns (tape: seq<nat>, want: seq<nat>)
    requires c != [] && 0 < length <= BLOCK_BITS && CanEnd(c, length, size)
    ensures Leads(tape, want, c, length, size)
  {
    hide TestBit, Xor, MaskOf, Pickable, FreshDraws, RetryDraws;
    want := [];
    if |c| == 2 {
      var p: nat :| FirstPair(c, length, p);
      SmallModulus(p, length);
      var more := TapeOfFresh([p], [p], Needed(size, 1), []);
      tape := [p] + more + [];
    } else if |c| == 3 {
      var p: nat :| FirstPair(c, length, p);
      var q: nat :| SecondPair(c, length, q);
      SmallModulus(p, length);
      SmallModulus(q, length);
      var more := TapeOfFresh([p, q], [p, q], Needed(size, 2), []);
      tape := [p, q] + more + [];
    } else {
      want :| Separates(c, length, size, want);
      PickableBelow(c, length, want);
      Pigeonhole(want, BLOCK_BITS);
      var first := if |c| == 1 then size else 0;
      var drawn := SomeFresh([], first);
      var more := TapeOfRetry(drawn, c, length, want);
      tape := drawn + more;
      if |c| == 1 {
        FreshPrefix(drawn, more);
      }
    }
  }

  lemma FreshPrefix(drawn: seq<nat>, more: seq<nat>)
    requires NoDup([] + drawn) && forall i :: 0 <= i < |drawn| ==> drawn[i] < BLOCK_BITS
    ensures FreshDraws(drawn + more, 0, [], |drawn|)
  {
    assert Residues(drawn + more, 0, |drawn|) == drawn;
  }

  lemma PickableBelow(c: seq<Block>, length: nat, want: seq<nat>)
    requires length <= BLOCK_BITS && forall k :: 0 <= k < |want| ==> Pickable(c, length, want[k])
    ensures forall k :: 0 <= k < |want| ==> want[k] < BLOCK_BITS
  {}

  ghost predicate SetBits(c: Block, length: nat, size: nat, pos: seq<nat>) {
    |pos| == size && NoDup(pos) && forall k :: 0 <= k < |pos| ==> pos[k] < length && TestBit(c, pos[k])
  }

  /** A single codeword goes through the general case as well, so it needs as many set bits as there are
      positions; in particular the search never ends for the zero block. */
  lemma SingleBinEnds(c: Block, length: nat, size: nat)
    ensures CanEnd([c], length, size) <==> exists pos: seq<nat> :: SetBits(c, length, size, pos)
    ensures 0 < size ==> !CanEnd([ZeroBlock], length, size)
  {
    hide Xor, MaskOf;
    forall b: Block, pos: seq<nat> ensures Separates([b], length, size, pos) <==> SetBits(b, length, size, pos) {
      assert DiffAt([b], 0) == b;
      forall p: nat ensures Pickable([b], length, p) <==> p < length && TestBit(b, p) {
        if p < length && TestBit(b, p) {
          assert 2 * 0 < |[b]| && TestBit(DiffAt([b], 0), p);
        }
      }
    }
    if 0 < size {
      forall pos: seq<nat> ensures !SetBits(ZeroBlock, length, size, pos) {
        NoSetBits(length, size, pos);
      }
    }
  }

  lemma NoSetBits(length: nat, size: nat, pos: seq<nat>)
    requires 0 < size
    ensures !SetBits(ZeroBlock, length, size, pos)
  {
    if pos != [] {
      assert !TestBit(ZeroBlock, pos[0]);
    }
  }

  /** How many positions a finished search has chosen. */
  function PositionCount(codewords: nat, size: nat): nat {
    if codewords == 2 && size < 1 then 1 else if codewords == 3 && size < 2 then 2 else size
  }

  lemma SeparatesFacts(codewords: seq<Block>, length: nat, size: nat, pos: seq<nat>)
    ensures Separates(codewords, length, size, pos) ==> |pos| == size && NoDup(pos) && NoDup(MasksOf(pos, codewords))
  {}

  /** The position chosen first for two codewords separates them. */
  lemma TwoMasksDiffer(pos: seq<nat>, c: seq<Block>)
    requires |c| == 2 && pos != [] && TestBit(Xor(c[0], c[1]), pos[0])
    ensures NoDup([] + MasksOf(pos, c))
  {
    DifferingBit(c[0], c[1], pos[0]);
    MaskEqIff(pos, c[0], c[1]);
  }

  /** The first two positions chosen for three codewords separate all of them, so the result of
      getMasks need not be looked at there. */
  lemma ThreeMasksDiffer(pos: seq<nat>, c: seq<Block>)
    requires |c| == 3 && |pos| >= 2
    requires TestBit(Xor(c[0], c[1]), pos[0]) && TestBit(Xor(c[0], c[2]), pos[1]) && !TestBit(Xor(c[0], c[1]), pos[1])
    ensures NoDup([] + MasksOf(pos, c))
  {
    DifferingBit(c[0], c[1], pos[0]);
    DifferingBit(c[0], c[1], pos[1]);
    DifferingBit(c[0], c[2], pos[1]);
    MaskEqIff(pos, c[0], c[1]);
    MaskEqIff(pos, c[0], c[2]);
    MaskEqIff(pos, c[1], c[2]);
  }
}
