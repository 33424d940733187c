/** The table encoding of one bin: OPPRFSender::sendSSTableBased and OPPRFReceiver::recvSSTableBased. */
module TableOpprf {
  import opened Blocks
  import opened Sequences
  import opened BitTests
  import opened TableHints

  /** Parameters of one type of bins: mNumBits, mMaxBinSize and mMaskSize. */
  datatype Params = Params(numBits: nat, maxBinSize: nat, maskSize: nat) {
    /** What SimpleHash::init sets up: masks are u8 values and every mask is a slot. */
    predicate Valid() {
      numBits <= 8 && PowNat(numBits) <= maxBinSize && 0 < maskSize <= BLOCK_SIZE
    }

    function RowLength(): nat {
      maxBinSize * maskSize + numBits
    }

    /** Byte offset of the slot of a mask. */
    function Slot(v: nat): nat {
      v * maskSize + numBits
    }
  }

  lemma HeaderInside(p: Params)
    ensures p.numBits <= p.RowLength()
  {
    assert 0 <= p.maxBinSize * p.maskSize;
  }

  lemma SlotInside(p: Params, v: nat)
    requires v < p.maxBinSize
    ensures p.Slot(v) + p.maskSize <= p.RowLength()
  {
    assert (v + 1) * p.maskSize <= p.maxBinSize * p.maskSize;
  }

  lemma SlotsDisjoint(p: Params, v: nat, w: nat)
    requires v < w
    ensures p.Slot(v) + p.maskSize <= p.Slot(w)
  {
    assert (v + 1) * p.maskSize <= w * p.maskSize;
  }

  function SlotOf(row: seq<Byte>, p: Params, v: nat): (r: seq<Byte>)
    requires |row| == p.RowLength() && v < p.maxBinSize
    ensures |r| == p.maskSize
  {
    SlotInside(p, v);
    row[p.Slot(v)..p.Slot(v) + p.maskSize]
  }

  method MemCpy(row: array<Byte>, at: nat, src: seq<Byte>)
    requires at + |src| <= row.Length
    modifies row
    ensures row[..] == old(row[..at]) + src + old(row[at + |src|..])
  {
    forall i | 0 <= i < |src| {
      row[at + i] := src[i];
    }
  }

  /** Writing one slot changes neither the header nor any other slot. */
  lemma OneSlotWritten(before: seq<Byte>, after: seq<Byte>, p: Params, v: nat, src: seq<Byte>)
    requires |before| == p.RowLength() && v < p.maxBinSize && |src| == p.maskSize
    requires p.Slot(v) + p.maskSize <= |before|
    requires after == before[..p.Slot(v)] + src + before[p.Slot(v) + p.maskSize..]
    ensures |after| == |before| && after[..p.numBits] == before[..p.numBits]
    ensures SlotOf(after, p, v) == src
    ensures forall w: nat :: w < p.maxBinSize && w != v ==> SlotOf(after, p, w) == SlotOf(before, p, w)
  {
    forall w: nat | w < p.maxBinSize && w != v ensures SlotOf(after, p, w) == SlotOf(before, p, w) {
      SlotInside(p, w);
      if w < v { SlotsDisjoint(p, w, v); } else { SlotsDisjoint(p, v, w); }
    }
  }

  datatype Status = Sent | WrongNumberOfPositions

  ghost predicate HeaderOk(row: seq<Byte>, p: Params, pos: seq<nat>) {
    && |row| == p.RowLength() && |pos| == p.numBits
    && BitPositions(pos) && forall k :: 0 <= k < p.numBits ==> row[k] == HeaderByte(pos, k)
  }

  function HeaderByte(pos: seq<nat>, k: nat): Byte
    requires BitPositions(pos) && k < |pos|
  {
    pos[k] as Byte
  }

  /** The first k values sit in the slots of their masks. */
  ghost predicate ValuesOk(row: seq<Byte>, p: Params, slots: seq<nat>, values: seq<Block>, k: nat) {
    && |row| == p.RowLength() && k <= |slots| == |values| && p.maskSize <= BLOCK_SIZE
    && forall i :: 0 <= i < k ==> slots[i] < p.maxBinSize && SlotOf(row, p, slots[i]) == Prefix(values[i], p.maskSize)
  }

  /** Of the slots below v, those that no mask selects are zero. */
  ghost predicate DummiesOk(row: seq<Byte>, p: Params, slots: seq<nat>, v: nat) {
    && |row| == p.RowLength() && v <= p.maxBinSize && p.maskSize <= BLOCK_SIZE
    && forall w: nat :: w < v && w !in slots ==> SlotOf(row, p, w) == Prefix(ZeroBlock, p.maskSize)
  }

  /** The row of a bin: the positions, then the slots; value i sits in the slot of its mask and the
      slots that no mask selects are zero. */
  ghost predicate RowHolds(row: seq<Byte>, p: Params, pos: seq<nat>, slots: seq<nat>, values: seq<Block>) {
    HeaderOk(row, p, pos) && ValuesOk(row, p, slots, values, |slots|) && DummiesOk(row, p, slots, p.maxBinSize)
  }

  /** The layout in plain offsets: the positions one byte each, then for every mask v the maskSize bytes
      from numBits + v * maskSize on, which hold the value of the element with that mask, or zeros. */
  lemma RowLayout(row: seq<Byte>, p: Params, pos: seq<nat>, slots: seq<nat>, values: seq<Block>, v: nat, b: nat)
    requires RowHolds(row, p, pos, slots, values) && v < p.maxBinSize && b < p.maskSize
    ensures |row| == p.numBits + p.maxBinSize * p.maskSize
    ensures forall k :: 0 <= k < p.numBits ==> k < |row| && Number(row[k]) == pos[k]
    ensures var at := p.numBits + v * p.maskSize + b;
            && at < |row| && (v !in slots ==> row[at] == 0)
            && forall i :: 0 <= i < |slots| && slots[i] == v ==> row[at] == values[i][b]
  {
    hide HeaderByte, Number, BitPositions;
    HeaderInside(p);
    forall k | 0 <= k < p.numBits ensures Number(row[k]) == pos[k] {
      HeaderByteValue(pos, k);
    }
    SlotByte(row, p, v, b);
    hide SlotOf;
    assert Prefix(ZeroBlock, p.maskSize)[b] == 0;
    forall i | 0 <= i < |slots| && slots[i] == v ensures SlotOf(row, p, v)[b] == values[i][b] {
      assert SlotOf(row, p, slots[i]) == Prefix(values[i], p.maskSize);
    }
  }

  lemma SlotByte(row: seq<Byte>, p: Params, v: nat, b: nat)
    requires |row| == p.RowLength() && v < p.maxBinSize && b < p.maskSize
    ensures p.numBits + v * p.maskSize + b < |row|
    ensures SlotOf(row, p, v)[b] == row[p.numBits + v * p.maskSize + b]
  {
    SlotInside(p, v);
  }

  method WriteSlot(row: array<Byte>, p: Params, v: nat, src: seq<Byte>)
    requires row.Length == p.RowLength() && v < p.maxBinSize && |src| == p.maskSize
    modifies row
    ensures row[..p.numBits] == old(row[..p.numBits])
    ensures SlotOf(row[..], p, v) == src
    ensures forall w: nat :: w < p.maxBinSize && w != v ==> SlotOf(row[..], p, w) == old(SlotOf(row[..], p, w))
  {
    SlotInside(p, v);
    ghost var before := row[..];
    MemCpy(row, p.Slot(v), src);
    OneSlotWritten(before, row[..], p, v, src);
  }

  method WriteHeader(row: array<Byte>, p: Params, pos: seq<nat>)
    requires row.Length == p.RowLength() && |pos| == p.numBits && BitPositions(pos)
    modifies row
    ensures HeaderOk(row[..], p, pos)
  {
    hide HeaderByte;
    HeaderInside(p);
    for k := 0 to p.numBits
      invariant forall j :: 0 <= j < k ==> row[j] == HeaderByte(pos, j)
    {
      row[k] := HeaderByte(pos, k);
    }
  }

  method WriteValues(row: array<Byte>, p: Params, pos: seq<nat>, slots: seq<nat>, values: seq<Block>)
    requires p.maskSize <= BLOCK_SIZE && HeaderOk(row[..], p, pos) && |slots| == |values| && NoDup(slots)
    requires forall i :: 0 <= i < |slots| ==> slots[i] < p.maxBinSize
    modifies row
    ensures HeaderOk(row[..], p, pos) && ValuesOk(row[..], p, slots, values, |slots|)
  {
    hide SlotOf;
    ghost var header := row[..p.numBits];
    for i := 0 to |slots|
      invariant row[..p.numBits] == header && ValuesOk(row[..], p, slots, values, i)
    {
      WriteSlot(row, p, slots[i], Prefix(values[i], p.maskSize));
    }
    assert forall k :: 0 <= k < p.numBits ==> row[k] == header[k];
  }

  method WriteDummies(row: array<Byte>, p: Params, pos: seq<nat>, slots: seq<nat>, values: seq<Block>)
    requires p.maskSize <= BLOCK_SIZE && HeaderOk(row[..], p, pos) && ValuesOk(row[..], p, slots, values, |slots|)
    modifies row
    ensures RowHolds(row[..], p, pos, slots, values)
  {
    hide SlotOf;
    ghost var header := row[..p.numBits];
    for v := 0 to p.maxBinSize
      invariant row[..p.numBits] == header
      invariant ValuesOk(row[..], p, slots, values, |slots|) && DummiesOk(row[..], p, slots, v)
    {
      if v !in slots {
        WriteSlot(row, p, v, Prefix(ZeroBlock, p.maskSize));
      }
    }
    assert forall k :: 0 <= k < p.numBits ==> row[k] == header[k];
  }

  /** The sender's part for a bin with elements, writing its row of the mask buffer.  The buffer is
      not initialised, so every byte has to be written. */
  method SendBin(row: array<Byte>, p: Params, pos: seq<nat>, slots: seq<nat>, oprfs: seq<Block>, payloads: seq<Block>) returns (status: Status)
    requires p.maskSize <= BLOCK_SIZE && row.Length == p.RowLength()
    requires BitPositions(pos) && NoDup(slots) && |slots| == |oprfs| == |payloads|
    requires |pos| == p.numBits ==> forall i :: 0 <= i < |slots| ==> slots[i] < p.maxBinSize
    modifies row
    ensures status == if |pos| == p.numBits then Sent else WrongNumberOfPositions
    ensures status.Sent? ==> RowHolds(row[..], p, pos, slots, Masked(oprfs, payloads))
  {
    if |pos| != p.numBits {
      return WrongNumberOfPositions;
    }
    WriteHeader(row, p, pos);
    WriteValues(row, p, pos, slots, Masked(oprfs, payloads));
    WriteDummies(row, p, pos, slots, Masked(oprfs, payloads));
    status := Sent;
  }

  function Masked(oprfs: seq<Block>, payloads: seq<Block>): (r: seq<Block>)
    requires |oprfs| == |payloads|
    ensures |r| == |oprfs| && forall i :: 0 <= i < |r| ==> r[i] == Xor(oprfs[i], payloads[i])
  {
    seq(|oprfs|, i requires 0 <= i < |oprfs| => Xor(oprfs[i], payloads[i]))
  }

  function Header(row: seq<Byte>, numBits: nat): (r: seq<nat>)
    requires numBits <= |row|
    ensures |r| == numBits
  {
    seq(numBits, k requires 0 <= k < numBits => Number(row[k]))
  }

  /** What the receiver gets from a row with its own OPRF value. */
  function Received(row: seq<Byte>, p: Params, myMask: Block): Block
    requires p.Valid() && |row| == p.RowLength()
  {
    HeaderInside(p);
    Xor(myMask, TheirMask(row, p, MaskSlot(Header(row, p.numBits), myMask)))
  }

  function TheirMask(row: seq<Byte>, p: Params, v: nat): Block
    requires v < p.maxBinSize && p.maskSize <= BLOCK_SIZE && |row| == p.RowLength()
  {
    Padded(SlotOf(row, p, v))
  }

  /** The receiver's part for a non-empty bin; it never reads past the row. */
  method RecvBin(row: seq<Byte>, p: Params, myMask: Block) returns (plaintext: Block)
    requires p.Valid() && |row| == p.RowLength()
    ensures plaintext == Received(row, p, myMask)
  {
    hide Xor, MaskOf, MaskSlot, Padded, Number, SlotOf, PowNat;
    HeaderInside(p);
    var b := new TableBased(p.numBits);
    for i := 0 to p.numBits
      invariant b.mPos == Header(row, p.numBits)[..i]
    {
      b.mPos := b.mPos + [Number(row[i])];
    }
    assert b.mPos == Header(row, p.numBits);
    var valMap := b.GetMask(myMask);
    SlotIsMask(b.mPos, myMask);
    var theirMask := ReadSlot(row, p, Number(valMap));
    plaintext := Xor(myMask, theirMask);
  }

  method ReadSlot(row: seq<Byte>, p: Params, v: nat) returns (theirMask: Block)
    requires v < p.maxBinSize && p.maskSize <= BLOCK_SIZE && |row| == p.RowLength()
    ensures theirMask == TheirMask(row, p, v)
  {
    SlotInside(p, v);
    var maskIdx := v * p.maskSize + p.numBits;
    theirMask := Padded(row[maskIdx..maskIdx + p.maskSize]);
  }

  lemma HeaderByteValue(pos: seq<nat>, k: nat)
    requires BitPositions(pos) && k < |pos|
    ensures Number(HeaderByte(pos, k)) == pos[k]
  {
    ByteOfNat(pos[k]);
  }

  lemma HeaderIsPos(row: seq<Byte>, p: Params, pos: seq<nat>)
    requires HeaderOk(row, p, pos) && p.numBits <= |row|
    ensures Header(row, p.numBits) == pos
  {
    hide HeaderByte, BitPositions, Number;
    forall k | 0 <= k < p.numBits ensures Header(row, p.numBits)[k] == pos[k] {
      assert row[k] == HeaderByte(pos, k);
      HeaderByteValue(pos, k);
    }
  }

  function SlotsFor(pos: seq<nat>, oprfs: seq<Block>): (r: seq<nat>)
    requires |pos| <= 8
    ensures |r| == |oprfs| && forall i :: 0 <= i < |r| ==> r[i] == MaskSlot(pos, oprfs[i])
  {
    seq(|oprfs|, i requires 0 <= i < |oprfs| => MaskSlot(pos, oprfs[i]))
  }

  lemma PaddedPrefix(src: seq<Byte>, b: Block, k: nat)
    requires k <= BLOCK_SIZE && src == Prefix(b, k)
    ensures Prefix(Padded(src), k) == Prefix(b, k)
  {}

  /** Main result: with the hints of getPos1, a receiver whose OPRF value is the i-th value of the bin
      recovers the i-th payload on the mask prefix. */
  lemma RoundTrip(row: seq<Byte>, p: Params, pos: seq<nat>, oprfs: seq<Block>, payloads: seq<Block>, i: nat)
    requires p.Valid() && |pos| == p.numBits && |oprfs| == |payloads| && i < |oprfs|
    requires RowHolds(row, p, pos, SlotsFor(pos, oprfs), Masked(oprfs, payloads))
    ensures Prefix(Received(row, p, oprfs[i]), p.maskSize) == Prefix(payloads[i], p.maskSize)
  {
    hide Xor, SlotOf, MaskSlot, Padded;
    HeaderIsPos(row, p, pos);
    var sent := Xor(oprfs[i], payloads[i]);
    var stored := SlotOf(row, p, MaskSlot(pos, oprfs[i]));
    assert stored == Prefix(Masked(oprfs, payloads)[i], p.maskSize);
    PaddedPrefix(stored, sent, p.maskSize);
    PrefixXor(oprfs[i], Padded(stored), oprfs[i], sent, p.maskSize);
    XorCancel(oprfs[i], payloads[i]);
  }

  /** A receiver with any other value gets its value plus some slot of the row: a sender's value if the
      masks happen to collide, zero otherwise. */
  lemma OtherValue(row: seq<Byte>, p: Params, pos: seq<nat>, slots: seq<nat>, values: seq<Block>, myMask: Block)
    requires p.Valid() && |pos| == p.numBits && RowHolds(row, p, pos, slots, values)
    ensures var v := MaskSlot(pos, myMask);
            if v in slots then
              exists i :: 0 <= i < |slots| && slots[i] == v
                  && Prefix(Received(row, p, myMask), p.maskSize) == Prefix(Xor(myMask, values[i]), p.maskSize)
            else Prefix(Received(row, p, myMask), p.maskSize) == Prefix(myMask, p.maskSize)
  {
    hide Xor, SlotOf, MaskSlot, Padded;
    HeaderIsPos(row, p, pos);
    var v := MaskSlot(pos, myMask);
    var stored := SlotOf(row, p, v);
    if v in slots {
      var i :| 0 <= i < |slots| && slots[i] == v;
      PaddedPrefix(stored, values[i], p.maskSize);
      PrefixXor(myMask, Padded(stored), myMask, values[i], p.maskSize);
    } else {
      PaddedPrefix(stored, ZeroBlock, p.maskSize);
      PrefixXor(myMask, Padded(stored), myMask, ZeroBlock, p.maskSize);
      XorZero(myMask);
    }
  }

  function AsSlots(maps: seq<Byte>): (r: seq<nat>)
    ensures |r| == |maps| && forall i :: 0 <= i < |r| ==> r[i] == Number(maps[i])
  {
    seq(|maps|, i requires 0 <= i < |maps| => Number(maps[i]))
  }

  lemma MapsAreSlots(pos: seq<nat>, oprfs: seq<Block>)
    requires |pos| <= 8
    ensures AsSlots(MasksOf(pos, oprfs)) == SlotsFor(pos, oprfs)
  {
    hide Number, MaskOf, MaskSlot;
    forall i | 0 <= i < |oprfs| ensures Number(MasksOf(pos, oprfs)[i]) == MaskSlot(pos, oprfs[i]) {
      SlotIsMask(pos, oprfs[i]);
    }
  }

  /** The whole sender side of one bin: choose the hints for the OPRF values, then write the row.  It
      raises exactly for two or three elements with fewer than one or two hint bits.  The search ends
      only for bins that have a mask for every element, it does end when the draws lead to such masks,
      and otherwise fails to end only for want of draws or of positions. */
  method EncodeBin(p: Params, oprfs: seq<Block>, payloads: seq<Block>, tape: seq<nat>, ghost want: seq<nat>)
    returns (finished: bool, status: Status, row: array<Byte>, used: nat)
    requires p.Valid() && oprfs != [] && |oprfs| == |payloads|
    ensures fresh(row) && row.Length == p.RowLength()
    ensures finished ==> (status.WrongNumberOfPositions? <==> (|oprfs| == 2 && p.numBits < 1) || (|oprfs| == 3 && p.numBits < 2))
    ensures finished && status.Sent? ==> forall i: nat :: i < |oprfs| ==>
              Prefix(Received(row[..], p, oprfs[i]), p.maskSize) == Prefix(payloads[i], p.maskSize)
    ensures finished && status.Sent? ==> |oprfs| <= PowNat(p.numBits)
    ensures finished ==> CanEnd(oprfs, BLOCK_BITS, p.numBits)
    ensures Leads(tape, want, oprfs, BLOCK_BITS, p.numBits) ==> finished
    ensures !finished ==> |tape| <= used + 1 || p.numBits == 0
  {
    hide Received, MaskSlot, Leads, CanEnd;
    row := new Byte[p.RowLength()];
    status := WrongNumberOfPositions;
    var hints := new TableBased(p.numBits);
    finished, used := hints.GetPos1(oprfs, BLOCK_BITS, tape, want);
    if finished {
      var pos := hints.mPos;
      var slots := AsSlots(hints.mMaps);
      MapsAreSlots(pos, oprfs);
      SlotsDiffer(pos, oprfs);
      status := SendBin(row, p, pos, slots, oprfs, payloads);
      if status.Sent? {
        forall i: nat | i < |oprfs|
          ensures Prefix(Received(row[..], p, oprfs[i]), p.maskSize) == Prefix(payloads[i], p.maskSize)
        {
          RoundTrip(row[..], p, pos, oprfs, payloads, i);
        }
      }
    }
  }
}
