/** The pair OPPRFSender::sendBFBased and OPPRFReceiver::recvBFBased, which compute all positions of an
    element from one hash value; insertion and fill are those of GarbledBloom. */
module DoubleHash {
  import opened Blocks
  import L = LittleEndian
  import opened GarbledBloom

  const U64: nat := 0x1_0000_0000_0000_0000

  // ----- the two indices -----

  /** The two 64-bit lanes of a block, as numbers. */
  datatype Lanes = Lanes(low: nat, high: nat)

  function LaneNumber(b: Block, h: nat): nat
    requires h < 2
  {
    L.Loaded(b[8 * h..8 * h + 8])
  }

  /** A shift to the right by n bits. */
  function Halved(lane: nat, n: nat): nat {
    if n == 0 then lane else Halved(lane / 2, n - 1)
  }

  /** One lane of _mm_srli_epi64: a count above 63 leaves nothing. */
  function ShiftLane(lane: nat, count: nat): nat {
    if count > 63 then 0 else Halved(lane, count)
  }

  /** operator>> of a block: each lane is shifted on its own. */
  function ShiftRight(v: Lanes, count: nat): Lanes {
    Lanes(ShiftLane(v.low, count), ShiftLane(v.high, count))
  }

  function Idx1(hashOut: Block, size: nat): (idx: nat)
    requires 0 < size
    ensures idx < size
  {
    LaneNumber(hashOut, 0) % size
  }

  /** The first index is the little-endian number in the first eight bytes, reduced; the other bytes do
      not matter, and every number below 2^64 occurs. */
  lemma Idx1Reads(hashOut: Block, size: nat, n: nat)
    requires 0 < size && n < U64
    ensures Prefix(hashOut, 8) == L.Stored(n, 8) ==> Idx1(hashOut, size) == n % size
    ensures exists m: nat :: m < U64 && Prefix(hashOut, 8) == L.Stored(m, 8)
  {
    hide L.Stored, L.Loaded, L.Pow256;
    assert hashOut[8 * 0..8 * 0 + 8] == Prefix(hashOut, 8);
    L.LoadedStored(n, 8);
    L.StoredLoaded(Prefix(hashOut, 8));
    EightBytes();
  }

  lemma EightBytes()
    ensures L.Pow256(8) == U64
  {
    assert L.Pow256(4) == 0x1_0000_0000;
  }

  /** idx1 refers into the hash value, so reducing it overwrites the low lane before idx2 is taken. */
  function Reduced(hashOut: Block, size: nat): Lanes
    requires 0 < size
  {
    Lanes(Idx1(hashOut, size), LaneNumber(hashOut, 1))
  }

  function Idx2(hashOut: Block, size: nat): (idx: nat)
    requires 0 < size
    ensures idx < size
  {
    ShiftRight(Reduced(hashOut, size), 64).low % size
  }

  /** The shift by 64 does not bring the high lane down. */
  lemma SecondIndexIsZero(hashOut: Block, size: nat)
    requires 0 < size
    ensures Idx2(hashOut, size) == 0
  {
    hide LaneNumber, Halved;
  }

  // ----- the positions -----

  /** Position k: h1, h2, and h1 + k*h2 in 64 bits from k = 2 on. */
  function Position(h1: nat, h2: nat, k: nat, size: nat): (idx: nat)
    requires h1 < size && h2 < size
    ensures idx < size
  {
    if k == 0 then h1 else if k == 1 then h2 else (h1 + k * h2) % U64 % size
  }

  /** The encoder takes the first two positions whatever the number of hashes is. */
  function EncoderList(h1: nat, h2: nat, numHashes: nat, size: nat): (r: seq<nat>)
    requires h1 < size && h2 < size
    ensures InRange(r, size)
  {
    seq(if numHashes < 2 then 2 else numHashes, k requires 0 <= k => Position(h1, h2, k, size))
  }

  /** The decoder starts at the third. */
  function DecoderList(h1: nat, h2: nat, numHashes: nat, size: nat): (r: seq<nat>)
    requires h1 < size && h2 < size
    ensures InRange(r, size) && |r| == Visits(numHashes)
  {
    seq(Visits(numHashes), k requires 0 <= k => Position(h1, h2, k + 2, size))
  }

  function Visits(numHashes: nat): nat {
    if numHashes < 2 then 0 else numHashes - 2
  }

  /** The encoder's set of one element. */
  method Idxs(hashOut: Block, numHashes: nat, size: nat) returns (idxs: seq<nat>)
    requires 0 < size < U64
    ensures idxs == ToSet(EncoderList(Idx1(hashOut, size), Idx2(hashOut, size), numHashes, size))
  {
    hide Idx1, Idx2, Position, Emplace;
    var idx1 := Idx1(hashOut, size);
    var idx2 := Idx2(hashOut, size);
    ghost var list := EncoderList(idx1, idx2, numHashes, size);
    FirstTwo(idx1, idx2, size);
    assert list[..0] == [] && list[..1][..0] == [] && list[..2][..1] == list[..1];
    idxs := Emplace([], idx1);
    assert idxs == ToSet(list[..1]);
    idxs := Emplace(idxs, idx2);
    assert idxs == ToSet(list[..2]);
    var bfHashIdx := 2;
    while bfHashIdx < numHashes
      invariant 2 <= bfHashIdx <= |list| && idxs == ToSet(list[..bfHashIdx])
    {
      assert list[..bfHashIdx + 1][..bfHashIdx] == list[..bfHashIdx];
      var idx := Position(idx1, idx2, bfHashIdx, size);
      idxs := Emplace(idxs, idx);
      bfHashIdx := bfHashIdx + 1;
    }
    assert list[..bfHashIdx] == list;
  }

  lemma FirstTwo(h1: nat, h2: nat, size: nat)
    requires h1 < size && h2 < size
    ensures Position(h1, h2, 0, size) == h1 && Position(h1, h2, 1, size) == h2
  {}

  /** The decoder's loop for one element. */
  method Decode2(rows: seq<seq<Byte>>, hashOut: Block, numHashes: nat, oprf: Block) returns (payload: Block)
    requires 0 < |rows| < U64
    ensures payload == Decoded(rows, DecoderList(Idx1(hashOut, |rows|), Idx2(hashOut, |rows|), numHashes, |rows|), oprf)
  {
    hide Idx1, Idx2, Position, Xor, Padded;
    var idx1 := Idx1(hashOut, |rows|);
    var idx2 := Idx2(hashOut, |rows|);
    ghost var list := DecoderList(idx1, idx2, numHashes, |rows|);
    EmptyList(PaddedRows(rows));
    var blkY: Block := ZeroBlock;
    assert list[..0] == [];
    var hashIdx := 2;
    while hashIdx < numHashes
      invariant 2 <= hashIdx <= |list| + 2 && blkY == XorList(PaddedRows(rows), list[..hashIdx - 2])
    {
      XorListStep(PaddedRows(rows), list, hashIdx - 2);
      var idx := Position(idx1, idx2, hashIdx, |rows|);
      blkY := Xor(blkY, Padded(rows[idx]));
      hashIdx := hashIdx + 1;
    }
    assert list[..hashIdx - 2] == list;
    payload := Xor(oprf, blkY);
  }

  // ----- what the decoder gets -----

  lemma SmallMod(x: nat, m: nat)
    requires x < m
    ensures x % m == x
  {}

  lemma PositionZero(h1: nat, k: nat, size: nat)
    requires h1 < size < U64 && k != 1
    ensures Position(h1, 0, k, size) == h1
  {
    assert k * 0 == 0;
    SmallMod(h1, U64);
    SmallMod(h1, size);
  }

  /** With idx2 == 0 every visit is to the first position. */
  lemma EveryVisit(h1: nat, numHashes: nat, size: nat)
    requires h1 < size < U64
    ensures DecoderList(h1, 0, numHashes, size) == seq(Visits(numHashes), _ => h1)
  {
    var list := DecoderList(h1, 0, numHashes, size);
    forall k | 0 <= k < |list| ensures list[k] == h1 {
      PositionZero(h1, k + 2, size);
    }
  }

  lemma {:induction false} VisitsCancel(cells: seq<Block>, c: nat, n: nat)
    requires c < |cells|
    ensures XorList(cells, seq(n, _ => c)) == if n % 2 == 0 then ZeroBlock else cells[c]
  {
    hide Xor;
    var list := seq(n, _ => c);
    if n > 0 {
      VisitsCancel(cells, c, n - 1);
      assert list[..n - 1] == seq(n - 1, _ => c);
      XorZero(cells[c]);
    }
  }

  /** Whatever the filter is, an even number of visits cancels and an odd number leaves one cell. */
  lemma DecoderGets(rows: seq<seq<Byte>>, hashOut: Block, numHashes: nat, oprf: Block)
    requires 0 < |rows| < U64
    ensures var h1 := Idx1(hashOut, |rows|);
            Decoded(rows, DecoderList(h1, Idx2(hashOut, |rows|), numHashes, |rows|), oprf)
            == if Visits(numHashes) % 2 == 0 then oprf else Xor(oprf, Padded(rows[h1]))
  {
    var h1 := Idx1(hashOut, |rows|);
    SecondIndexIsZero(hashOut, |rows|);
    EveryVisit(h1, numHashes, |rows|);
    VisitsCancel(PaddedRows(rows), h1, Visits(numHashes));
    XorZero(oprf);
    hide Idx1, Idx2, Xor, Padded, DecoderList, Visits;
  }

  // ----- encoder and decoder together -----

  /** The k-th position of the encoder for element x. */
  function HashOf(hash: Block -> Block, size: nat, x: Block, k: nat): nat
    requires 0 < size
  {
    Position(Idx1(hash(x), size), Idx2(hash(x), size), k, size)
  }

  /** The encoder's input as one of GarbledBloom's; hash is mBFHasher[0]. */
  ghost predicate Doubled(inp: Input, hash: Block -> Block, numHashes: nat) {
    && inp.Valid() && inp.size < U64 && inp.numHashes == (if numHashes < 2 then 2 else numHashes)
    && forall x: Block, k: nat :: inp.hashes(x, k) == HashOf(hash, inp.size, x, k)
  }

  function First(inp: Input, hash: Block -> Block, j: nat): (c: nat)
    requires inp.Valid() && j < |inp.xs|
    ensures c < inp.size
  {
    Idx1(hash(inp.xs[j]), inp.size)
  }

  lemma ListIsEncoders(inp: Input, hash: Block -> Block, numHashes: nat, j: nat)
    requires Doubled(inp, hash, numHashes) && j < |inp.xs|
    ensures inp.List(j) == EncoderList(First(inp, hash, j), 0, numHashes, inp.size)
  {
    var h1 := First(inp, hash, j);
    var list := EncoderList(h1, 0, numHashes, inp.size);
    SecondIndexIsZero(hash(inp.xs[j]), inp.size);
    hide Idx1, Idx2;
    forall k | 0 <= k < |list| ensures inp.List(j)[k] == list[k] {
      assert inp.hashes(inp.xs[j], k) == HashOf(hash, inp.size, inp.xs[j], k) == Position(h1, 0, k, inp.size);
      hide Position;
      SmallMod(list[k], inp.size);
    }
  }

  /** A set is listed in increasing order in one way. */
  lemma {:induction false} SameMembers(s: seq<nat>, t: seq<nat>)
    requires Increasing(s) && Increasing(t) && forall x :: x in s <==> x in t
    ensures s == t
  {
    assert |s| > 0 ==> s[0] in t;
    assert |t| > 0 ==> t[0] in s;
    if s != [] {
      var m, n := |s| - 1, |t| - 1;
      WithoutLast(s, t[n]);
      WithoutLast(t, s[m]);
      assert s[m] == t[n];
      forall x ensures x in s[..m] <==> x in t[..n] {
        WithoutLast(s, x);
        WithoutLast(t, x);
      }
      SameMembers(s[..m], t[..n]);
    }
  }

  lemma WithoutLast(s: seq<nat>, x: nat)
    requires Increasing(s) && s != []
    ensures var m := |s| - 1;
            && s == s[..m] + [s[m]] && s[m] in s && Increasing(s[..m])
            && (x in s ==> x <= s[m]) && (x in s[..m] <==> x in s && x != s[m])
  {
    var m := |s| - 1;
    if x in s {
      var k :| 0 <= k < |s| && s[k] == x;
      if k < m {
        assert s[..m][k] == x;
      }
    }
  }

  /** Every element sits in its first cell and in cell 0. */
  lemma SetOfElement(inp: Input, hash: Block -> Block, numHashes: nat, j: nat)
    requires Doubled(inp, hash, numHashes) && j < |inp.xs|
    ensures inp.Set(j) == if First(inp, hash, j) == 0 then [0] else [0, First(inp, hash, j)]
  {
    var h1 := First(inp, hash, j);
    var list := EncoderList(h1, 0, numHashes, inp.size);
    ListIsEncoders(inp, hash, numHashes, j);
    hide Idx1, Idx2, First, Doubled;
    FirstTwo(h1, 0, inp.size);
    assert list[0] == h1 && list[1] == 0;
    forall k | 0 <= k < |list| ensures list[k] == h1 || list[k] == 0 {
      if k != 1 { PositionZero(h1, k, inp.size); }
    }
    hide Position, EncoderList;
    forall x ensures x in inp.Set(j) <==> x == 0 || x == h1 {}
    SameMembers(inp.Set(j), if h1 == 0 then [0] else [0, h1]);
  }

  lemma InEarlierIff(inp: Input, hash: Block -> Block, numHashes: nat, j: nat, c: nat)
    requires Doubled(inp, hash, numHashes) && j <= |inp.xs|
    ensures InEarlier(inp, j, c) <==> (j > 0 && c == 0) || exists i: nat :: i < j && First(inp, hash, i) == c
  {
    forall i: nat | i < j ensures c in inp.Set(i) <==> c == 0 || First(inp, hash, i) == c {
      SetOfElement(inp, hash, numHashes, i);
    }
    hide First, Input.Set, Doubled;
    if j > 0 && c == 0 {
      assert c in inp.Set(0);
    }
  }

  /** So an element after the first has cells of its own unless its first cell is cell 0 or that of an
      earlier element. */
  lemma CoveredIff(inp: Input, hash: Block -> Block, numHashes: nat, j: nat)
    requires Doubled(inp, hash, numHashes) && j < |inp.xs|
    ensures Covered(inp, j) <==>
            j > 0 && (First(inp, hash, j) == 0 || exists i: nat :: i < j && First(inp, hash, i) == First(inp, hash, j))
  {
    SetOfElement(inp, hash, numHashes, j);
    InEarlierIff(inp, hash, numHashes, j, 0);
    InEarlierIff(inp, hash, numHashes, j, First(inp, hash, j));
    hide First, Input.Set, Doubled, InEarlier;
    var own := inp.Set(j);
    assert own[0] == 0;
    if |own| == 2 {
      assert own[1] == First(inp, hash, j);
    }
  }

  /** Cell c is taken after m insertions, and n insertions leave it as it is. */
  ghost predicate Stays(inp: Input, c: nat, m: nat, n: nat)
    requires inp.Valid() && m <= |inp.xs| && n <= |inp.xs|
  {
    c < inp.size && Inserted(inp, m).cells[c] != ZeroBlock && Inserted(inp, n).cells[c] == Inserted(inp, m).cells[c]
  }

  lemma StaysStep(inp: Input, c: nat, m: nat, n: nat)
    requires inp.Valid() && m <= |inp.xs| && n < |inp.xs| && Stays(inp, c, m, n)
    ensures Stays(inp, c, m, n + 1)
  {
    hide Inserted, XorList, Input.Set, Input.Valid;
    InsertedStep(inp, n);
  }

  /** A cell that is taken is not written again. */
  lemma {:induction false} TakenStays(inp: Input, c: nat, m: nat, n: nat)
    requires inp.Valid() && m <= n <= |inp.xs| && Stays(inp, c, m, m)
    ensures Stays(inp, c, m, n)
    decreases n
  {
    hide *;
    if m != n {
      TakenStays(inp, c, m, n - 1);
      StaysStep(inp, c, m, n - 1);
    }
  }

  lemma TakenIsSent(inp: Input, c: nat, m: nat)
    requires inp.Valid() && c < inp.size && m <= |inp.xs| && Inserted(inp, m).cells[c] != ZeroBlock
    ensures Encode(inp)[c] == Inserted(inp, m).cells[c]
  {
    TakenStays(inp, c, m, |inp.xs|);
    var p := Inserted(inp, |inp.xs|);
    FillFacts(p.cells, inp.size, inp.prng, p.drawn);
    hide Inserted;
  }

  /** One element in the empty filter: cell 0 makes up for what is drawn for the other cell. */
  lemma FirstInsertion(cells: seq<Block>, c: nat, value: Block, prng: Draws)
    requires c < |cells| && (forall i :: 0 <= i < |cells| ==> cells[i] == ZeroBlock)
    ensures Insertion(cells, if c == 0 then [0] else [0, c], value, prng, 0).cells[0]
            == Xor(if c == 0 then ZeroBlock else prng(0), value)
  {
    hide Xor;
    var idxs := if c == 0 then [0] else [0, c];
    assert ScanTo(cells, idxs, 0, prng, 0) == Scanned(cells, ZeroBlock, false, 0, 0);
    assert ScanTo(cells, idxs, 1, prng, 0) == Scanned(cells, ZeroBlock, true, 0, 0);
    if c > 0 {
      XorZero(prng(0));
      assert ScanTo(cells, idxs, 2, prng, 0) == Scanned(cells[c := prng(0)], prng(0), true, 0, 1);
    }
  }

  /** What cell 0 holds once there is an element. */
  function CellZero(inp: Input, hash: Block -> Block): Block
    requires inp.Valid() && inp.xs != []
  {
    Xor(if First(inp, hash, 0) == 0 then ZeroBlock else inp.prng(0), inp.Value(0))
  }

  lemma CellZeroIsSent(inp: Input, hash: Block -> Block, numHashes: nat)
    requires Doubled(inp, hash, numHashes) && inp.xs != [] && NothingZero(inp)
    ensures Encode(inp)[0] == CellZero(inp, hash)
  {
    var p := Inserted(inp, 0);
    SetOfElement(inp, hash, numHashes, 0);
    assert inp.Set(0)[0] == 0 && p.cells[0] == ZeroBlock && FindsEmpty(inp, 0);
    FirstInsertion(p.cells, First(inp, hash, 0), inp.Value(0), inp.prng);
    assert Inserted(inp, 1).cells[0] == CellZero(inp, hash);
    assert Inserted(inp, 0 + 1).cells[inp.Set(0)[0]] != ZeroBlock;
    hide Inserted, Insertion;
    TakenIsSent(inp, 0, 1);
  }

  /** What the decoder of this pair returns for element j. */
  function Returned2(inp: Input, hash: Block -> Block, numHashes: nat, j: nat, maskSize: nat): Block
    requires inp.Valid() && j < |inp.xs| && maskSize <= BLOCK_SIZE
  {
    var h := hash(inp.xs[j]);
    Decoded(RowsOf(Encode(inp), maskSize), DecoderList(Idx1(h, inp.size), Idx2(h, inp.size), numHashes, inp.size), inp.oprfs[j])
  }

  /** Main result for an even number of hashes, the default of 40 among them: the decoder returns its
      own OPRF value, so the payload comes back if and only if it agrees with that on the mask. */
  lemma EvenHashes(inp: Input, hash: Block -> Block, numHashes: nat, j: nat, maskSize: nat)
    requires Doubled(inp, hash, numHashes) && j < |inp.xs| && maskSize <= BLOCK_SIZE && Visits(numHashes) % 2 == 0
    ensures Returned2(inp, hash, numHashes, j, maskSize) == inp.oprfs[j]
    ensures Prefix(Returned2(inp, hash, numHashes, j, maskSize), maskSize) == Prefix(inp.payloads[j], maskSize)
       <==> Prefix(inp.oprfs[j], maskSize) == Prefix(inp.payloads[j], maskSize)
  {
    DecoderGets(RowsOf(Encode(inp), maskSize), hash(inp.xs[j]), numHashes, inp.oprfs[j]);
    hide Encode, Idx1, Idx2, Decoded, DecoderList;
  }

  lemma ValueOfCells(cells: seq<Block>, c: nat, value: Block)
    requires c < |cells| && Holds(cells, Item(if c == 0 then [0] else [0, c], value))
    ensures Xor(if c == 0 then ZeroBlock else cells[0], cells[c]) == value
  {
    hide Xor;
    EmptyList(cells);
    XorZero(cells[0]);
    if c == 0 {
      assert [0][..0] == [];
    } else {
      assert [0, c][..0] == [] && [0, c][..1] == [0] && [0, c][..2] == [0, c];
      XorListStep(cells, [0, c], 0);
      XorListStep(cells, [0, c], 1);
    }
  }

  /** oprf ^ cell comes to payload ^ rest when rest ^ cell is payload ^ oprf. */
  lemma OddVisit(oprf: Block, payload: Block, rest: Block, cell: Block, maskSize: nat)
    requires maskSize <= BLOCK_SIZE && Xor(rest, cell) == Xor(payload, oprf)
    ensures Prefix(Xor(oprf, Padded(Prefix(cell, maskSize))), maskSize) == Prefix(payload, maskSize)
       <==> Prefix(rest, maskSize) == Prefix(ZeroBlock, maskSize)
  {
    var padded := Padded(Prefix(cell, maskSize));
    assert Prefix(padded, maskSize) == Prefix(cell, maskSize);
    hide Xor, Prefix, Padded;
    PrefixXor(oprf, padded, oprf, cell, maskSize);
    assert Xor(oprf, cell) == Xor(payload, rest) by {
      XorComm(rest, cell);
      XorCancel(rest, cell);
      XorComm(payload, oprf);
      XorAssoc(oprf, payload, rest);
      XorAssoc(oprf, cell, rest);
      assert cell == Xor(Xor(cell, rest), rest) by { XorCancel(rest, cell); }
      XorCancel(oprf, Xor(payload, rest));
    }
    XorCancel(payload, rest);
    XorZero(payload);
    if Prefix(rest, maskSize) == Prefix(ZeroBlock, maskSize) {
      PrefixXor(payload, rest, payload, ZeroBlock, maskSize);
    }
    if Prefix(Xor(payload, rest), maskSize) == Prefix(payload, maskSize) {
      PrefixXor(payload, Xor(payload, rest), payload, payload, maskSize);
    }
  }

  /** Main result for an odd number of hashes: an element that is not covered by earlier ones comes back
      on the mask if and only if its first cell is cell 0, or cell 0, which the first element fixes, is
      zero there. */
  lemma OddHashes(inp: Input, hash: Block -> Block, numHashes: nat, j: nat, maskSize: nat)
    requires Doubled(inp, hash, numHashes) && j < |inp.xs| && maskSize <= BLOCK_SIZE && Visits(numHashes) % 2 == 1
    requires NothingZero(inp) && !Covered(inp, j)
    ensures Prefix(Returned2(inp, hash, numHashes, j, maskSize), maskSize) == Prefix(inp.payloads[j], maskSize)
       <==> First(inp, hash, j) == 0 || Prefix(CellZero(inp, hash), maskSize) == Prefix(ZeroBlock, maskSize)
  {
    var c, cells := First(inp, hash, j), Encode(inp);
    DecoderGets(RowsOf(cells, maskSize), hash(inp.xs[j]), numHashes, inp.oprfs[j]);
    CellZeroIsSent(inp, hash, numHashes);
    SetOfElement(inp, hash, numHashes, j);
    ElementIsSent(inp, j);
    hide Encode, Idx1, Idx2, Decoded, DecoderList, NothingZero, Covered, CellZero, Holds, Xor, Padded, Prefix, Input.Set;
    ValueOfCells(cells, c, inp.Value(j));
    OddVisit(inp.oprfs[j], inp.payloads[j], if c == 0 then ZeroBlock else cells[0], cells[c], maskSize);
  }
}
