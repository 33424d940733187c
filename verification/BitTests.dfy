/** TestBitN of libOPRF/Hashing/Hints.cpp: a bit test by a lane shift and a move mask. */
module BitTests {
  import opened Blocks

  const BLOCK_BITS: nat := 128

  /** 1 << i in a u8 */
  function Pow(i: nat): Byte {
    match i
    case 0 => 1 case 1 => 2 case 2 => 4 case 3 => 8
    case 4 => 16 case 5 => 32 case 6 => 64 case 7 => 128
    case _ => 0
  }

  predicate BitSet(b: Byte, r: nat) {
    b & Pow(r) != 0
  }

  /** Bit n of a block, counted from the low bit of the first byte. */
  predicate TestBit(b: Block, n: nat) {
    n < BLOCK_BITS && BitSet(b[n / 8], n % 8)
  }

  // ----- the two lanes -----

  /** Eight bytes as a 64-bit lane, low byte first. */
  function Join(b0: Byte, b1: Byte, b2: Byte, b3: Byte, b4: Byte, b5: Byte, b6: Byte, b7: Byte): bv64 {
    (b0 as bv64) | ((b1 as bv64) << 8) | ((b2 as bv64) << 16) | ((b3 as bv64) << 24)
    | ((b4 as bv64) << 32) | ((b5 as bv64) << 40) | ((b6 as bv64) << 48) | ((b7 as bv64) << 56)
  }

  function Lane(b: Block, h: nat): bv64
    requires h < 2
  {
    Join(b[8 * h], b[8 * h + 1], b[8 * h + 2], b[8 * h + 3], b[8 * h + 4], b[8 * h + 5], b[8 * h + 6], b[8 * h + 7])
  }

  /** A number below eight as a shift amount. */
  function Small(n: nat): (v: bv64)
    ensures v < 8
  {
    match n
    case 0 => 0 case 1 => 1 case 2 => 2 case 3 => 3
    case 4 => 4 case 5 => 5 case 6 => 6 case _ => 7
  }

  function BitOfLane(lane: bv64, k: bv64, r: bv64): bv64
    requires k < 8 && r < 8
  {
    (lane >> ((8 * k + r) as bv7)) & 1
  }

  function BitOfByte(b: Byte, r: bv64): Byte
    requires r < 8
  {
    (b >> (r as bv4)) & 1
  }

  function Pick(b0: Byte, b1: Byte, b2: Byte, b3: Byte, b4: Byte, b5: Byte, b6: Byte, b7: Byte, k: bv64): Byte {
    if k == 0 then b0 else if k == 1 then b1 else if k == 2 then b2 else if k == 3 then b3 else
    if k == 4 then b4 else if k == 5 then b5 else if k == 6 then b6 else b7
  }

  lemma JoinBit(b0: Byte, b1: Byte, b2: Byte, b3: Byte, b4: Byte, b5: Byte, b6: Byte, b7: Byte, k: bv64, r: bv64)
    requires k < 8 && r < 8
    ensures BitOfLane(Join(b0, b1, b2, b3, b4, b5, b6, b7), k, r) == 1
       <==> BitOfByte(Pick(b0, b1, b2, b3, b4, b5, b6, b7, k), r) == 1
  {}

  /** _mm_slli_epi64(value, 7 - r) on one lane */
  function ShiftLeft(lane: bv64, r: nat): bv64 {
    lane << ((7 - Small(r)) as bv7)
  }

  /** The top bit of byte k. */
  predicate TopBit(lane: bv64, k: nat) {
    BitOfLane(lane, Small(k), 7) == 1
  }

  lemma ShiftedBit(lane: bv64, k: bv64, r: bv64)
    requires k < 8 && r < 8
    ensures BitOfLane(lane << ((7 - r) as bv7), k, 7) == BitOfLane(lane, k, r)
  {}

  lemma TopBitShifted(lane: bv64, k: nat, r: nat)
    ensures TopBit(ShiftLeft(lane, r), k) <==> BitOfLane(lane, Small(k), Small(r)) == 1
  {
    ShiftedBit(lane, Small(k), Small(r));
    hide BitOfLane, Small;
  }

  lemma ByteBit(b: Byte, r: nat)
    requires r < 8
    ensures BitOfByte(b, Small(r)) == 1 <==> BitSet(b, r)
  {}

  lemma PickOne(b: Block, h: nat, k: nat)
    requires h < 2 && k < 8
    ensures Pick(b[8 * h], b[8 * h + 1], b[8 * h + 2], b[8 * h + 3], b[8 * h + 4], b[8 * h + 5], b[8 * h + 6], b[8 * h + 7], Small(k))
         == b[8 * h + k]
  {}

  /** After the shift the top bit of byte k of a lane is bit r of that byte. */
  lemma LaneBit(b: Block, h: nat, k: nat, r: nat)
    requires h < 2 && k < 8 && r < 8
    ensures TopBit(ShiftLeft(Lane(b, h), r), k) <==> BitSet(b[8 * h + k], r)
  {
    hide BitOfLane, BitOfByte, ShiftLeft, Join, BitSet, Pick, TopBit, Small;
    TopBitShifted(Lane(b, h), k, r);
    PickOne(b, h, k);
    JoinBit(b[8 * h], b[8 * h + 1], b[8 * h + 2], b[8 * h + 3], b[8 * h + 4], b[8 * h + 5], b[8 * h + 6], b[8 * h + 7], Small(k), Small(r));
    ByteBit(b[8 * h + k], r);
  }

  // ----- the move mask -----

  /** 1 << i in an int */
  function OneAt(i: nat): bv32
    requires i < 32
  {
    1 << (i as bv6)
  }

  function Or(a: bv32, b: bv32): bv32 {
    a | b
  }

  predicate Meet(a: bv32, b: bv32) {
    a & b != 0
  }

  /** The top bit of byte i of the two lanes. */
  predicate Top(low: bv64, high: bv64, i: nat) {
    if i < 8 then TopBit(low, i) else TopBit(high, i - 8)
  }

  /** The first k bits of _mm_movemask_epi8: bit i is the top bit of byte i. */
  function MoveMask(low: bv64, high: bv64, k: nat): bv32
    requires k <= 16
  {
    if k == 0 then 0 else
    Or(MoveMask(low, high, k - 1), if Top(low, high, k - 1) then OneAt(k - 1) else 0)
  }

  /** TestBitN as the code writes it; n is a byte of a row. */
  predicate TestBitN(value: Block, n: nat)
    requires n < 256
  {
    Meet(MoveMask(ShiftLeft(Lane(value, 0), n % 8), ShiftLeft(Lane(value, 1), n % 8), 16), OneAt(n / 8))
  }

  lemma SixBits(i: nat)
    requires i < 32
    ensures (i as bv6) as nat == i && (i as bv6) < 32
  {}

  lemma BitsDiffer(x: bv6, y: bv6)
    requires x < 32 && y < 32
    ensures (1 as bv32 << x) & (1 as bv32 << y) != 0 <==> x == y
  {}

  lemma OnesDiffer(i: nat, j: nat)
    requires i < 32 && j < 32
    ensures Meet(OneAt(i), OneAt(j)) <==> i == j
  {
    SixBits(i);
    SixBits(j);
    BitsDiffer(i as bv6, j as bv6);
  }

  lemma MeetOr(m: bv32, x: bv32, y: bv32)
    ensures Meet(Or(m, x), y) <==> Meet(m, y) || Meet(x, y)
    ensures !Meet(0, y)
  {
    assert (m | x) & y == (m & y) | (x & y);
    OrZero(m & y, x & y);
  }

  lemma OrZero(a: bv32, b: bv32)
    ensures a | b == 0 <==> a == 0 && b == 0
  {
    assert a | (a | b) == a | b;
  }

  lemma {:induction false} MoveMaskBit(low: bv64, high: bv64, k: nat, i: nat)
    requires k <= 16 && i < 32
    ensures Meet(MoveMask(low, high, k), OneAt(i)) <==> i < k && Top(low, high, i)
  {
    hide Top, OneAt, Meet, Or;
    MeetOr(0, 0, OneAt(i));
    if k > 0 {
      MoveMaskBit(low, high, k - 1, i);
      OnesDiffer(k - 1, i);
      MeetOr(MoveMask(low, high, k - 1), if Top(low, high, k - 1) then OneAt(k - 1) else 0, OneAt(i));
    }
  }

  /** Main result: the expression tests bit n of the block; a position beyond the block, which a byte of
      a received row can hold, selects none of the sixteen mask bits. */
  lemma TestBitNIsTestBit(value: Block, n: nat)
    requires n < 256
    ensures TestBitN(value, n) <==> TestBit(value, n)
  {
    hide TopBit, OneAt, ShiftLeft, BitSet, Lane, MoveMask, Meet;
    MoveMaskBit(ShiftLeft(Lane(value, 0), n % 8), ShiftLeft(Lane(value, 1), n % 8), 16, n / 8);
    if n < 64 {
      LaneBit(value, 0, n / 8, n % 8);
    } else if n < 128 {
      LaneBit(value, 1, n / 8 - 8, n % 8);
    }
  }
}
