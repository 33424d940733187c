/** The garbled Bloom filter encoding of OPPRFReceiver::sendBFBased / OPPRFSender::sendBFBased and
    its decoders, for the table of one hash index.  A zero block marks an empty cell. */
module GarbledBloom {
  import opened Blocks
  import opened Sequences

  // ----- XOR over a list of cells -----

  predicate InRange(idxs: seq<nat>, size: nat) {
    forall k :: 0 <= k < |idxs| ==> idxs[k] < size
  }

  function XorList(cells: seq<Block>, idxs: seq<nat>): Block
    requires InRange(idxs, |cells|)
  {
    if idxs == [] then ZeroBlock
    else Xor(XorList(cells, idxs[..|idxs| - 1]), cells[idxs[|idxs| - 1]])
  }

  lemma {:induction false} XorListFrame(c: seq<Block>, d: seq<Block>, idxs: seq<nat>)
    requires |c| == |d| && InRange(idxs, |c|)
    requires forall k :: 0 <= k < |idxs| ==> c[idxs[k]] == d[idxs[k]]
    ensures XorList(c, idxs) == XorList(d, idxs)
  {
    if idxs != [] { XorListFrame(c, d, idxs[..|idxs| - 1]); }
  }

  lemma {:induction false} XorListPrefix(c: seq<Block>, d: seq<Block>, idxs: seq<nat>, k: nat)
    requires |c| == |d| && InRange(idxs, |c|) && k <= BLOCK_SIZE
    requires forall j :: 0 <= j < |idxs| ==> Prefix(c[idxs[j]], k) == Prefix(d[idxs[j]], k)
    ensures Prefix(XorList(c, idxs), k) == Prefix(XorList(d, idxs), k)
  {
    if idxs != [] {
      var n := |idxs| - 1;
      XorListPrefix(c, d, idxs[..n], k);
      PrefixXor(XorList(c, idxs[..n]), c[idxs[n]], XorList(d, idxs[..n]), d[idxs[n]], k);
    }
  }

  /** Filling in one empty cell that the list visits once adds the new value. */
  lemma {:induction false} XorListUpdate(c: seq<Block>, idxs: seq<nat>, at: nat, v: Block)
    requires InRange(idxs, |c|) && at < |c| && c[at] == ZeroBlock
    requires Increasing(idxs) && at in idxs
    ensures XorList(c[at := v], idxs) == Xor(XorList(c, idxs), v)
  {
    var n := |idxs| - 1;
    if idxs[n] == at {
      XorListFrame(c, c[at := v], idxs[..n]);
      XorZero(XorList(c, idxs[..n]));
    } else {
      XorListUpdate(c, idxs[..n], at, v);
      var before := XorList(c, idxs[..n]);
      XorAssoc(before, v, c[idxs[n]]);
      XorComm(v, c[idxs[n]]);
      XorAssoc(before, c[idxs[n]], v);
    }
  }

  // ----- std::set of positions -----

  predicate Increasing(s: seq<nat>) {
    forall i, j :: 0 <= i < j < |s| ==> s[i] < s[j]
  }

  /** std::set::emplace, the set kept as its iteration order. */
  function Emplace(s: seq<nat>, x: nat): (r: seq<nat>)
    requires Increasing(s)
    ensures Increasing(r)
    ensures forall y :: y in r <==> y in s || y == x
  {
    if s == [] || s[|s| - 1] < x then s + [x]
    else if s[|s| - 1] == x then s
    else
      var n := |s| - 1;
      var inner := Emplace(s[..n], x);
      assert forall y :: y in s <==> y in s[..n] || y == s[n];
      assert forall i :: 0 <= i < |inner| ==> inner[i] in inner;
      assert forall y :: y in s[..n] ==> y < s[n];
      inner + [s[n]]
  }

  function ToSet(xs: seq<nat>): (r: seq<nat>)
    ensures Increasing(r)
    ensures forall y :: y in r <==> y in xs
  {
    if xs == [] then [] else Emplace(ToSet(xs[..|xs| - 1]), xs[|xs| - 1])
  }

  lemma ToSetInRange(xs: seq<nat>, size: nat)
    requires InRange(xs, size)
    ensures InRange(ToSet(xs), size)
  {
    var s := ToSet(xs);
    forall k | 0 <= k < |s| ensures s[k] < size {
      assert s[k] in s;
    }
  }

  // ----- the encoder: what each loop computes -----

  /** One inserted element: its positions and payload ^ OPRF value. */
  datatype Item = Item(idxs: seq<nat>, value: Block)

  /** The cells decode to the item's value and none of them can be taken for empty. */
  predicate Holds(cells: seq<Block>, it: Item) {
    && InRange(it.idxs, |cells|)
    && XorList(cells, it.idxs) == it.value
    && (forall k :: 0 <= k < |it.idxs| ==> cells[it.idxs[k]] != ZeroBlock)
  }

  /** Only empty cells at the given positions change. */
  ghost predicate OnlyEmptyChange(before: seq<Block>, after: seq<Block>, idxs: seq<nat>) {
    && |after| == |before|
    && (forall i :: 0 <= i < |before| && (before[i] != ZeroBlock || i !in idxs) ==> after[i] == before[i])
  }

  /** Items survive any change to empty cells. */
  lemma HoldsFrame(c: seq<Block>, d: seq<Block>, it: Item)
    requires |c| == |d| && Holds(c, it)
    requires forall i :: 0 <= i < |c| && c[i] != ZeroBlock ==> d[i] == c[i]
    ensures Holds(d, it)
  {
    XorListFrame(c, d, it.idxs);
  }

  /** The random blocks that mPrng returns, in order. */
  type Draws = nat -> Block

  /** The filter, the sum so far, the first empty cell met, and the number of draws used. */
  datatype Scanned = Scanned(cells: seq<Block>, sum: Block, found: bool, free: nat, drawn: nat)

  /** The scan over the first k positions: the first empty cell is kept for last, the other empty cells
      get random values, and the sum collects all of them. */
  function ScanTo(cells: seq<Block>, idxs: seq<nat>, k: nat, prng: Draws, drawn: nat): (r: Scanned)
    requires k <= |idxs| && InRange(idxs, |cells|)
    ensures |r.cells| == |cells| && (r.found ==> r.free < |cells|)
  {
    if k == 0 then Scanned(cells, ZeroBlock, false, 0, drawn) else
    ScanNext(ScanTo(cells, idxs, k - 1, prng, drawn), idxs[k - 1], prng)
  }

  function ScanNext(p: Scanned, idx: nat, prng: Draws): (r: Scanned)
    requires idx < |p.cells|
    ensures |r.cells| == |p.cells| && ((p.found ==> p.free < |p.cells|) ==> (r.found ==> r.free < |r.cells|))
  {
    if p.cells[idx] != ZeroBlock then p.(sum := Xor(p.sum, p.cells[idx]))
    else if !p.found then p.(found := true, free := idx)
    else p.(cells := p.cells[idx := prng(p.drawn)], sum := Xor(p.sum, prng(p.drawn)), drawn := p.drawn + 1)
  }

  datatype Progress = Progress(cells: seq<Block>, drawn: nat)

  /** The whole insertion; without an empty cell the code would write out of bounds, and the filter is
      taken to stay as it is. */
  function Insertion(cells: seq<Block>, idxs: seq<nat>, value: Block, prng: Draws, drawn: nat): (r: Progress)
    requires InRange(idxs, |cells|)
    ensures |r.cells| == |cells|
  {
    var s := ScanTo(cells, idxs, |idxs|, prng, drawn);
    Progress(if s.found then s.cells[s.free := Xor(s.sum, value)] else s.cells, s.drawn)
  }

  /** The final loop over the first k cells: each empty cell gets the next draw. */
  function FillTo(cells: seq<Block>, k: nat, prng: Draws, drawn: nat): (r: Progress)
    requires k <= |cells|
    ensures |r.cells| == |cells|
  {
    if k == 0 then Progress(cells, drawn) else
    var p := FillTo(cells, k - 1, prng, drawn);
    if p.cells[k - 1] == ZeroBlock then Progress(p.cells[k - 1 := prng(p.drawn)], p.drawn + 1) else p
  }

  ghost predicate HasEmpty(cells: seq<Block>, idxs: seq<nat>, n: nat)
    requires n <= |idxs| && InRange(idxs, |cells|)
  {
    exists k :: 0 <= k < n && cells[idxs[k]] == ZeroBlock
  }

  ghost predicate NonzeroDraws(prng: Draws, from: nat, to: nat) {
    forall d: nat :: from <= d < to ==> prng(d) != ZeroBlock
  }

  /** All of these cells but the free one are taken. */
  ghost predicate TakenBut(cells: seq<Block>, idxs: seq<nat>, n: nat, free: nat)
    requires n <= |idxs| && InRange(idxs, |cells|)
  {
    forall k :: 0 <= k < n && idxs[k] != free ==> cells[idxs[k]] != ZeroBlock
  }

  ghost predicate ScanOk(cells: seq<Block>, idxs: seq<nat>, k: nat, drawn: nat, r: Scanned)
    requires k <= |idxs| && InRange(idxs, |cells|)
  {
    && drawn <= r.drawn && OnlyEmptyChange(cells, r.cells, idxs[..k])
    && (r.found <==> HasEmpty(cells, idxs, k))
    && (if r.found then r.free in idxs[..k] && r.free < |cells| && r.cells[r.free] == ZeroBlock else r.cells == cells)
    && r.sum == XorList(r.cells, idxs[..k])
  }

  lemma XorListStep(cells: seq<Block>, idxs: seq<nat>, k: nat)
    requires k < |idxs| && InRange(idxs, |cells|)
    ensures XorList(cells, idxs[..k + 1]) == Xor(XorList(cells, idxs[..k]), cells[idxs[k]])
  {
    assert idxs[..k + 1][..k] == idxs[..k];
  }

  lemma ScanStep(cells: seq<Block>, idxs: seq<nat>, k: nat, drawn: nat, p: Scanned, prng: Draws)
    requires Increasing(idxs) && InRange(idxs, |cells|) && k < |idxs| && |p.cells| == |cells|
    requires ScanOk(cells, idxs, k, drawn, p)
    ensures ScanOk(cells, idxs, k + 1, drawn, ScanNext(p, idxs[k], prng))
  {
    var r := ScanNext(p, idxs[k], prng);
    var idx := idxs[k];
    Later(idxs, k);
    XorListStep(r.cells, idxs, k);
    hide Xor, XorList, Increasing, InRange;
    HasEmptyStep(cells, idxs, k);
    assert p.cells[idx] == cells[idx];
    XorZero(p.sum);
    if p.found && p.cells[idx] == ZeroBlock {
      assert InRange(idxs, |cells|) && InRange(idxs[..k], |cells|) by { InRangePrefix(idxs, k, |cells|); }
      XorListOther(p.cells, idxs[..k], idx, prng(p.drawn));
    }
  }

  lemma Later(idxs: seq<nat>, k: nat)
    requires Increasing(idxs) && k < |idxs|
    ensures idxs[k] !in idxs[..k] && idxs[..k + 1] == idxs[..k] + [idxs[k]]
  {}

  lemma InRangePrefix(idxs: seq<nat>, k: nat, size: nat)
    requires InRange(idxs, size) && k <= |idxs|
    ensures InRange(idxs[..k], size)
  {}

  lemma HasEmptyStep(cells: seq<Block>, idxs: seq<nat>, k: nat)
    requires InRange(idxs, |cells|) && k < |idxs|
    ensures HasEmpty(cells, idxs, k + 1) <==> HasEmpty(cells, idxs, k) || cells[idxs[k]] == ZeroBlock
  {}

  lemma XorListOther(cells: seq<Block>, idxs: seq<nat>, at: nat, v: Block)
    requires InRange(idxs, |cells|) && at < |cells| && at !in idxs
    ensures XorList(cells[at := v], idxs) == XorList(cells, idxs)
  {
    XorListFrame(cells, cells[at := v], idxs);
  }

  lemma {:induction false} ScanFacts(cells: seq<Block>, idxs: seq<nat>, k: nat, prng: Draws, drawn: nat)
    requires Increasing(idxs) && InRange(idxs, |cells|) && k <= |idxs|
    ensures ScanOk(cells, idxs, k, drawn, ScanTo(cells, idxs, k, prng, drawn))
  {
    if k == 0 {
      assert idxs[..0] == [];
      EmptyList(cells);
    } else {
      ScanFacts(cells, idxs, k - 1, prng, drawn);
      ScanStep(cells, idxs, k - 1, drawn, ScanTo(cells, idxs, k - 1, prng, drawn), prng);
      hide ScanOk, ScanNext;
    }
  }

  lemma EmptyList(cells: seq<Block>)
    ensures XorList(cells, []) == ZeroBlock
  {}

  /** Cells filled from non-zero draws are not zero. */
  lemma {:induction false} ScanTakes(cells: seq<Block>, idxs: seq<nat>, k: nat, prng: Draws, drawn: nat)
    requires Increasing(idxs) && InRange(idxs, |cells|) && k <= |idxs|
    requires NonzeroDraws(prng, drawn, ScanTo(cells, idxs, k, prng, drawn).drawn)
    ensures var r := ScanTo(cells, idxs, k, prng, drawn);
            TakenBut(r.cells, idxs, k, if r.found then r.free else |cells|)
  {
    hide Xor, XorList;
    if k > 0 {
      var p, r := ScanTo(cells, idxs, k - 1, prng, drawn), ScanTo(cells, idxs, k, prng, drawn);
      ScanFacts(cells, idxs, k - 1, prng, drawn);
      assert p.drawn <= r.drawn;
      ScanTakes(cells, idxs, k - 1, prng, drawn);
    }
  }

  /** How many of the first k positions are empty. */
  function EmptyAmong(cells: seq<Block>, idxs: seq<nat>, k: nat): (n: nat)
    requires k <= |idxs| && InRange(idxs, |cells|)
    ensures n <= k
  {
    if k == 0 then 0 else EmptyAmong(cells, idxs, k - 1) + if cells[idxs[k - 1]] == ZeroBlock then 1 else 0
  }

  /** What the scan has drawn: nothing for the first empty position, one block for each later one. */
  function DrawsFor(empty: nat): nat {
    if empty == 0 then 0 else empty - 1
  }

  /** Position j after the scan of the first k: a taken cell and the first empty one are as before, every
      other empty one holds the next block of the generator. */
  ghost predicate ScannedAt(cells: seq<Block>, idxs: seq<nat>, j: nat, prng: Draws, drawn: nat, r: Scanned)
    requires j < |idxs| && InRange(idxs, |cells|) && |r.cells| == |cells|
  {
    var before := EmptyAmong(cells, idxs, j);
    if cells[idxs[j]] != ZeroBlock then r.cells[idxs[j]] == cells[idxs[j]]
    else if before == 0 then r.found && r.free == idxs[j] && r.cells[idxs[j]] == ZeroBlock
    else r.cells[idxs[j]] == prng(drawn + before - 1)
  }

  /** The count, and position j, after the scan of the first k. */
  ghost predicate ScannedTo(cells: seq<Block>, idxs: seq<nat>, k: nat, prng: Draws, drawn: nat, j: nat, r: Scanned)
    requires k <= |idxs| && InRange(idxs, |cells|) && |r.cells| == |cells|
  {
    && r.drawn == drawn + DrawsFor(EmptyAmong(cells, idxs, k))
    && (r.found <==> EmptyAmong(cells, idxs, k) > 0)
    && (j < k ==> ScannedAt(cells, idxs, j, prng, drawn, r))
  }

  lemma ScannedStep(cells: seq<Block>, idxs: seq<nat>, k: nat, prng: Draws, drawn: nat, j: nat, p: Scanned)
    requires Increasing(idxs) && InRange(idxs, |cells|) && k < |idxs| && |p.cells| == |cells|
    requires ScannedTo(cells, idxs, k, prng, drawn, j, p) && p.cells[idxs[k]] == cells[idxs[k]]
    ensures ScannedTo(cells, idxs, k + 1, prng, drawn, j, ScanNext(p, idxs[k], prng))
  {
    hide Xor;
    if j < k {
      assert idxs[j] < idxs[k];
      hide Increasing;
      EmptyGrows(cells, idxs, j, k);
    }
  }

  lemma {:induction false} ScanValues(cells: seq<Block>, idxs: seq<nat>, k: nat, prng: Draws, drawn: nat, j: nat)
    requires Increasing(idxs) && InRange(idxs, |cells|) && k <= |idxs|
    ensures ScannedTo(cells, idxs, k, prng, drawn, j, ScanTo(cells, idxs, k, prng, drawn))
    decreases k
  {
    if k > 0 {
      ScanValues(cells, idxs, k - 1, prng, drawn, j);
      ScanLeaves(cells, idxs, k - 1, prng, drawn);
      hide ScannedTo, ScanNext, Increasing, InRange;
      ScannedStep(cells, idxs, k - 1, prng, drawn, j, ScanTo(cells, idxs, k - 1, prng, drawn));
    }
  }

  /** The next position is as it was. */
  lemma ScanLeaves(cells: seq<Block>, idxs: seq<nat>, k: nat, prng: Draws, drawn: nat)
    requires Increasing(idxs) && InRange(idxs, |cells|) && k < |idxs|
    ensures ScanTo(cells, idxs, k, prng, drawn).cells[idxs[k]] == cells[idxs[k]]
  {
    ScanFacts(cells, idxs, k, prng, drawn);
    Later(idxs, k);
    hide ScanTo, XorList;
  }

  lemma {:induction false} EmptyGrows(cells: seq<Block>, idxs: seq<nat>, j: nat, k: nat)
    requires j < k <= |idxs| && InRange(idxs, |cells|)
    ensures cells[idxs[j]] == ZeroBlock ==> EmptyAmong(cells, idxs, k) > EmptyAmong(cells, idxs, j)
    decreases k
  {
    if j < k - 1 {
      EmptyGrows(cells, idxs, j, k - 1);
    }
  }

  /** An insertion with an empty cell makes the item's cells add up to its value and changes empty cells
      only; without one it changes nothing.  When its draws are not zero, the only cell it can leave
      empty is the free one, and it does exactly when the other cells already add up to the value. */
  lemma InsertionFacts(cells: seq<Block>, idxs: seq<nat>, value: Block, prng: Draws, drawn: nat)
    requires Increasing(idxs) && InRange(idxs, |cells|)
    ensures var r := Insertion(cells, idxs, value, prng, drawn);
            && drawn <= r.drawn && OnlyEmptyChange(cells, r.cells, idxs)
            && (if HasEmpty(cells, idxs, |idxs|) then XorList(r.cells, idxs) == value else r.cells == cells)
            && (NonzeroDraws(prng, drawn, r.drawn) && HasEmpty(cells, idxs, |idxs|) ==>
                  (HasEmpty(r.cells, idxs, |idxs|) <==> ScanTo(cells, idxs, |idxs|, prng, drawn).sum == value))
  {
    hide Xor, XorList;
    var s := ScanTo(cells, idxs, |idxs|, prng, drawn);
    var r := Insertion(cells, idxs, value, prng, drawn);
    ScanFacts(cells, idxs, |idxs|, prng, drawn);
    assert idxs[..|idxs|] == idxs;
    if s.found {
      var stored := Xor(s.sum, value);
      XorListUpdate(s.cells, idxs, s.free, stored);
      XorCancel(s.sum, value);
      if NonzeroDraws(prng, drawn, r.drawn) {
        ScanTakes(cells, idxs, |idxs|, prng, drawn);
        ZeroSum(s.sum, value);
        var k :| 0 <= k < |idxs| && idxs[k] == s.free;
        assert r.cells[idxs[k]] == stored;
        assert TakenBut(r.cells, idxs, |idxs|, s.free);
      }
    }
  }

  lemma ZeroSum(a: Block, b: Block)
    ensures Xor(a, b) == ZeroBlock <==> a == b
  {
    hide Xor;
    XorCancel(a, b);
    XorZero(a);
  }

  lemma {:induction false} FillFacts(cells: seq<Block>, k: nat, prng: Draws, drawn: nat)
    requires k <= |cells|
    ensures var r := FillTo(cells, k, prng, drawn);
            forall i :: 0 <= i < |cells| && (cells[i] != ZeroBlock || k <= i) ==> r.cells[i] == cells[i]
  {
    if k > 0 {
      FillFacts(cells, k - 1, prng, drawn);
    }
  }

  /** How many of the first k cells are empty. */
  function EmptyBelow(cells: seq<Block>, k: nat): (n: nat)
    requires k <= |cells|
    ensures n <= k
  {
    if k == 0 then 0 else EmptyBelow(cells, k - 1) + if cells[k - 1] == ZeroBlock then 1 else 0
  }

  lemma {:induction false} FillCount(cells: seq<Block>, k: nat, prng: Draws, drawn: nat)
    requires k <= |cells|
    ensures FillTo(cells, k, prng, drawn).drawn == drawn + EmptyBelow(cells, k)
  {
    if k > 0 {
      FillCount(cells, k - 1, prng, drawn);
      FillFacts(cells, k - 1, prng, drawn);
    }
  }

  /** The fill gives every empty cell the next block of the generator, in the order of the cells, and no
      block is skipped. */
  lemma {:induction false} FillValues(cells: seq<Block>, k: nat, prng: Draws, drawn: nat, i: nat)
    requires i < k <= |cells| && cells[i] == ZeroBlock
    ensures FillTo(cells, k, prng, drawn).cells[i] == prng(drawn + EmptyBelow(cells, i))
    decreases k
  {
    FillCount(cells, k - 1, prng, drawn);
    FillFacts(cells, k - 1, prng, drawn);
    if i < k - 1 {
      FillValues(cells, k - 1, prng, drawn, i);
    }
  }

  class Filter {
    const size: nat
    const maskSize: nat
    const cells: array<Block>           // GarbleBF[hIdx]
    const sent: array<seq<Byte>>        // its rows of maskBFView

    ghost predicate Valid()
      reads this, cells, sent
    {
      cells.Length == size && sent.Length == size && maskSize <= BLOCK_SIZE && RowsAgree()
    }

    ghost predicate RowsAgree()
      reads this, cells, sent
      requires cells.Length == size && sent.Length == size && maskSize <= BLOCK_SIZE
    {
      forall i :: 0 <= i < size && cells[i] != ZeroBlock ==> sent[i] == Prefix(cells[i], maskSize)
    }

    constructor (size: nat, maskSize: nat)
      requires maskSize <= BLOCK_SIZE
      ensures Valid() && fresh(cells) && fresh(sent) && this.size == size && this.maskSize == maskSize
      ensures cells[..] == seq(size, _ => ZeroBlock)
    {
      this.size, this.maskSize := size, maskSize;
      cells := new Block[size](_ => ZeroBlock);
      sent := new seq<Byte>[size];
    }

    /** Stores a value and the part of it that is sent. */
    method FillCell(idx: nat, v: Block)
      requires Valid() && idx < size
      modifies cells, sent
      ensures Valid() && cells[..] == old(cells[..])[idx := v]
      ensures sent[..] == old(sent[..])[idx := Prefix(v, maskSize)]
    {
      hide Prefix;
      cells[idx] := v;
      sent[idx] := Prefix(v, maskSize);
    }

    /** The loop over the positions. */
    method Scan(idxs: seq<nat>, prng: Draws, drawn: nat) returns (sum: Block, found: bool, firstFreeIdx: nat, used: nat)
      requires Valid() && InRange(idxs, size)
      modifies cells, sent
      ensures Valid()
      ensures Scanned(cells[..], sum, found, firstFreeIdx, used) == ScanTo(old(cells[..]), idxs, |idxs|, prng, drawn)
    {
      hide Xor, Prefix;
      sum, firstFreeIdx, found, used := ZeroBlock, 0, false, drawn;
      for k := 0 to |idxs|
        invariant Valid()
        invariant Scanned(cells[..], sum, found, firstFreeIdx, used) == ScanTo(old(cells[..]), idxs, k, prng, drawn)
      {
        var idx := idxs[k];
        if cells[idx] == ZeroBlock {
          if !found {
            found, firstFreeIdx := true, idx;
          } else {
            FillCell(idx, prng(used));
            used := used + 1;
            sum := Xor(sum, cells[idx]);
          }
        } else {
          sum := Xor(sum, cells[idx]);
        }
      }
    }

    /** Inserts one element.  found is false when every position is taken, where the code would write
        at index -1. */
    method Insert(idxs: seq<nat>, payload: Block, oprf: Block, prng: Draws, drawn: nat) returns (found: bool, used: nat)
      requires Valid() && Increasing(idxs) && InRange(idxs, size)
      modifies cells, sent
      ensures Valid()
      ensures found <==> HasEmpty(old(cells[..]), idxs, |idxs|)
      ensures Progress(cells[..], used) == Insertion(old(cells[..]), idxs, Xor(payload, oprf), prng, drawn)
    {
      hide Xor, XorList, Prefix;
      ScanFacts(cells[..], idxs, |idxs|, prng, drawn);
      var sum, firstFreeIdx;
      sum, found, firstFreeIdx, used := Scan(idxs, prng, drawn);
      if found {
        XorAssoc(sum, payload, oprf);
        FillCell(firstFreeIdx, Xor(Xor(sum, payload), oprf));
      }
    }

    /** The final loop.  Every empty cell gets the next block of the generator, in the order of the cells,
        and afterwards every row sent agrees with its cell. */
    method FillEmpty(prng: Draws, drawn: nat) returns (used: nat)
      requires Valid()
      modifies cells, sent
      ensures Valid() && Progress(cells[..], used) == FillTo(old(cells[..]), size, prng, drawn)
      ensures used == drawn + EmptyBelow(old(cells[..]), size)
      ensures forall i: nat :: i < size ==>
                cells[i] == if old(cells[i]) == ZeroBlock then prng(drawn + EmptyBelow(old(cells[..]), i)) else old(cells[i])
      ensures forall i :: 0 <= i < size ==> sent[i] == Prefix(cells[i], maskSize)
    {
      hide FillTo, EmptyBelow, Prefix;
      ghost var before := cells[..];
      used := FillLoop(prng, drawn);
      FillAll(before, prng, drawn);
      assert forall i: nat :: i < size ==> cells[..][i] == cells[i];
    }

    method FillLoop(prng: Draws, drawn: nat) returns (used: nat)
      requires Valid()
      modifies cells, sent
      ensures Valid() && Progress(cells[..], used) == FillTo(old(cells[..]), size, prng, drawn)
      ensures forall i :: 0 <= i < size ==> sent[i] == Prefix(cells[i], maskSize)
    {
      hide Prefix;
      used := drawn;
      for i := 0 to size
        invariant Valid() && Progress(cells[..], used) == FillTo(old(cells[..]), i, prng, drawn)
        invariant forall j :: 0 <= j < i ==> sent[j] == Prefix(cells[j], maskSize)
      {
        if cells[i] == ZeroBlock {
          FillCell(i, prng(used));
          used := used + 1;
        }
      }
    }
  }

  lemma FillAll(cells: seq<Block>, prng: Draws, drawn: nat)
    ensures var r := FillTo(cells, |cells|, prng, drawn);
            && r.drawn == drawn + EmptyBelow(cells, |cells|)
            && forall i: nat :: i < |cells| ==>
                 r.cells[i] == if cells[i] == ZeroBlock then prng(drawn + EmptyBelow(cells, i)) else cells[i]
  {
    hide FillTo, EmptyBelow;
    var r := FillTo(cells, |cells|, prng, drawn);
    FillFacts(cells, |cells|, prng, drawn);
    forall i: nat | i < |cells|
      ensures r.cells[i] == if cells[i] == ZeroBlock then prng(drawn + EmptyBelow(cells, i)) else cells[i]
    {
      if cells[i] == ZeroBlock { FillValues(cells, |cells|, prng, drawn, i); }
    }
    FillCount(cells, |cells|, prng, drawn);
  }

  // ----- the whole encoder -----

  /** The hash positions of an element: hashes(x, k) is the k-th hash of x. */
  function Positions(hashes: (Block, nat) -> nat, x: Block, numHashes: nat, size: nat): (r: seq<nat>)
    requires 0 < size
    ensures |r| == numHashes && InRange(r, size)
  {
    seq(numHashes, k requires 0 <= k < numHashes => hashes(x, k) % size)
  }

  /** Elements, payloads, OPRF values, the hash functions and the random blocks of one table. */
  datatype Input = Input(xs: seq<Block>, payloads: seq<Block>, oprfs: seq<Block>, hashes: (Block, nat) -> nat,
                         numHashes: nat, size: nat, prng: Draws) {
    predicate Valid() {
      |payloads| == |xs| == |oprfs| && 0 < size
    }

    function List(j: nat): (r: seq<nat>)
      requires Valid() && j < |xs|
      ensures InRange(r, size)
    {
      Positions(hashes, xs[j], numHashes, size)
    }

    function Set(j: nat): (r: seq<nat>)
      requires Valid() && j < |xs|
      ensures Increasing(r) && InRange(r, size)
    {
      ToSetInRange(List(j), size);
      ToSet(List(j))
    }

    function Value(j: nat): Block
      requires Valid() && j < |xs|
    {
      Xor(payloads[j], oprfs[j])
    }
  }

  /** The cells of an element are those that its hashes select, each reduced by the size of the table. */
  lemma CellsOf(inp: Input, j: nat, c: nat)
    requires inp.Valid() && j < |inp.xs|
    ensures c in inp.Set(j) <==> exists k: nat :: k < inp.numHashes && inp.hashes(inp.xs[j], k) % inp.size == c
  {
    var list := inp.List(j);
    assert c in inp.Set(j) <==> c in list;
    if c in list {
      var k :| 0 <= k < |list| && list[k] == c;
      assert inp.hashes(inp.xs[j], k) % inp.size == c;
    }
    if k: nat :| k < inp.numHashes && inp.hashes(inp.xs[j], k) % inp.size == c {
      assert list[k] == c;
    }
  }

  /** The filter after j insertions. */
  function Inserted(inp: Input, j: nat): (r: Progress)
    requires inp.Valid() && j <= |inp.xs|
    ensures |r.cells| == inp.size
  {
    if j == 0 then Progress(seq(inp.size, _ => ZeroBlock), 0) else
    var p := Inserted(inp, j - 1);
    Insertion(p.cells, inp.Set(j - 1), inp.Value(j - 1), inp.prng, p.drawn)
  }

  /** The filter that is sent. */
  function Encode(inp: Input): (cells: seq<Block>)
    requires inp.Valid()
    ensures |cells| == inp.size
  {
    var p := Inserted(inp, |inp.xs|);
    FillTo(p.cells, inp.size, inp.prng, p.drawn).cells
  }

  function RowsOf(cells: seq<Block>, maskSize: nat): (rows: seq<seq<Byte>>)
    requires maskSize <= BLOCK_SIZE
    ensures |rows| == |cells| && forall i :: 0 <= i < |rows| ==> rows[i] == Prefix(cells[i], maskSize)
  {
    seq(|cells|, i requires 0 <= i < |cells| => Prefix(cells[i], maskSize))
  }

  /** sendBFBased for one table: all elements are inserted, then the rest is filled. */
  method SendBF(inp: Input, maskSize: nat) returns (rows: seq<seq<Byte>>)
    requires inp.Valid() && maskSize <= BLOCK_SIZE
    ensures rows == RowsOf(Encode(inp), maskSize)
  {
    hide Xor, Insertion, FillTo, Positions;
    var filter := new Filter(inp.size, maskSize);
    var drawn := 0;
    for j := 0 to |inp.xs|
      invariant fresh(filter.cells) && fresh(filter.sent)
      invariant filter.Valid() && filter.size == inp.size && filter.maskSize == maskSize
      invariant Progress(filter.cells[..], drawn) == Inserted(inp, j)
    {
      var found;
      found, drawn := filter.Insert(inp.Set(j), inp.payloads[j], inp.oprfs[j], inp.prng, drawn);
    }
    drawn := filter.FillEmpty(inp.prng, drawn);
    rows := filter.sent[..];
    assert filter.cells[..] == Encode(inp);
  }

  // ----- which elements the filter holds -----

  /** Insertion j finds an empty cell. */
  ghost predicate FindsEmpty(inp: Input, j: nat)
    requires inp.Valid() && j < |inp.xs|
  {
    HasEmpty(Inserted(inp, j).cells, inp.Set(j), |inp.Set(j)|)
  }

  /** No insertion that finds an empty cell leaves a cell of its element empty; see InsertionFacts for
      when this holds. */
  ghost predicate NothingZero(inp: Input)
    requires inp.Valid()
  {
    forall j: nat :: j < |inp.xs| && FindsEmpty(inp, j) ==>
      !HasEmpty(Inserted(inp, j + 1).cells, inp.Set(j), |inp.Set(j)|)
  }

  /** With random blocks that are not zero, that is so exactly when no value to be stored happens to
      equal the sum of the element's other cells. */
  lemma NothingZeroIff(inp: Input)
    requires inp.Valid() && forall d: nat :: inp.prng(d) != ZeroBlock
    ensures NothingZero(inp) <==> forall j: nat :: j < |inp.xs| && FindsEmpty(inp, j) ==>
              ScanTo(Inserted(inp, j).cells, inp.Set(j), |inp.Set(j)|, inp.prng, Inserted(inp, j).drawn).sum != inp.Value(j)
  {
    hide Xor, XorList, Insertion, ScanTo, HasEmpty;
    forall j: nat | j < |inp.xs| && FindsEmpty(inp, j)
      ensures HasEmpty(Inserted(inp, j + 1).cells, inp.Set(j), |inp.Set(j)|)
          <==> ScanTo(Inserted(inp, j).cells, inp.Set(j), |inp.Set(j)|, inp.prng, Inserted(inp, j).drawn).sum == inp.Value(j)
    {
      var p := Inserted(inp, j);
      InsertionFacts(p.cells, inp.Set(j), inp.Value(j), inp.prng, p.drawn);
    }
  }

  ghost predicate InEarlier(inp: Input, j: nat, c: nat)
    requires inp.Valid() && j <= |inp.xs|
  {
    exists i: nat :: i < j && c in inp.Set(i)
  }

  /** Every position of element j is a position of an earlier element. */
  ghost predicate Covered(inp: Input, j: nat)
    requires inp.Valid() && j < |inp.xs|
  {
    forall k :: 0 <= k < |inp.Set(j)| ==> InEarlier(inp, j, inp.Set(j)[k])
  }

  lemma InsertedStep(inp: Input, j: nat)
    requires inp.Valid() && j < |inp.xs|
    ensures var before, after := Inserted(inp, j).cells, Inserted(inp, j + 1).cells;
            && OnlyEmptyChange(before, after, inp.Set(j))
            && (if FindsEmpty(inp, j) then XorList(after, inp.Set(j)) == inp.Value(j) else after == before)
  {
    hide Xor, XorList, Insertion;
    var p := Inserted(inp, j);
    InsertionFacts(p.cells, inp.Set(j), inp.Value(j), inp.prng, p.drawn);
  }

  /** Cell c is taken after j insertions exactly if it is a position of one of the first j elements. */
  ghost predicate TakenByEarlier(inp: Input, j: nat, c: nat)
    requires inp.Valid() && j <= |inp.xs|
  {
    c < inp.size ==> (Inserted(inp, j).cells[c] != ZeroBlock <==> InEarlier(inp, j, c))
  }

  lemma NoneTaken(inp: Input, c: nat)
    requires inp.Valid()
    ensures TakenByEarlier(inp, 0, c)
  {
    hide Input.Set;
  }

  lemma {:induction false} TakenIsUnion(inp: Input, j: nat, c: nat)
    requires inp.Valid() && j <= |inp.xs| && NothingZero(inp)
    ensures TakenByEarlier(inp, j, c)
    decreases j
  {
    hide *;
    if j == 0 {
      NoneTaken(inp, c);
    } else {
      TakenIsUnion(inp, j - 1, c);
      TakenStep(inp, j - 1, c);
    }
  }

  lemma TakenStep(inp: Input, j: nat, c: nat)
    requires inp.Valid() && j < |inp.xs| && NothingZero(inp) && TakenByEarlier(inp, j, c)
    ensures TakenByEarlier(inp, j + 1, c)
  {
    hide Inserted, Input.Set, Input.Valid, XorList;
    InsertedStep(inp, j);
    if c < inp.size && c in inp.Set(j) {
      var k :| 0 <= k < |inp.Set(j)| && inp.Set(j)[k] == c;
      assert Inserted(inp, j + 1).cells[inp.Set(j)[k]] != ZeroBlock;
    }
  }

  /** Main result on failing insertions: when nothing stored is zero, element j finds an empty cell if
      and only if its positions are not all positions of earlier elements. */
  lemma FindsEmptyIff(inp: Input, j: nat)
    requires inp.Valid() && j < |inp.xs| && NothingZero(inp)
    ensures FindsEmpty(inp, j) <==> !Covered(inp, j)
  {
    hide Inserted, Input.Set, Input.Valid, NothingZero;
    forall k | 0 <= k < |inp.Set(j)|
      ensures Inserted(inp, j).cells[inp.Set(j)[k]] != ZeroBlock <==> InEarlier(inp, j, inp.Set(j)[k])
    {
      TakenIsUnion(inp, j, inp.Set(j)[k]);
    }
  }

  lemma {:induction false} ElementIsKept(inp: Input, j: nat, m: nat)
    requires inp.Valid() && j < m <= |inp.xs| && NothingZero(inp) && FindsEmpty(inp, j)
    ensures Holds(Inserted(inp, m).cells, Item(inp.Set(j), inp.Value(j)))
    decreases m
  {
    hide Xor, XorList, Inserted, Input.Set, Input.Valid, Input.Value;
    InsertedStep(inp, m - 1);
    if m > j + 1 {
      ElementIsKept(inp, j, m - 1);
      hide Holds;
      HoldsFrame(Inserted(inp, m - 1).cells, Inserted(inp, m).cells, Item(inp.Set(j), inp.Value(j)));
    }
  }

  /** And then the filter that is sent holds every such element. */
  lemma ElementIsSent(inp: Input, j: nat)
    requires inp.Valid() && j < |inp.xs| && NothingZero(inp) && !Covered(inp, j)
    ensures Holds(Encode(inp), Item(inp.Set(j), inp.Value(j)))
  {
    hide Xor, XorList, Input.Set, Input.Valid, Input.Value, Inserted, Covered, FindsEmpty;
    var p := Inserted(inp, |inp.xs|);
    FindsEmptyIff(inp, j);
    ElementIsKept(inp, j, |inp.xs|);
    FillFacts(p.cells, inp.size, inp.prng, p.drawn);
    hide Holds;
    HoldsFrame(p.cells, Encode(inp), Item(inp.Set(j), inp.Value(j)));
  }

  /** Cell c is empty after j insertions. */
  ghost predicate StillEmpty(inp: Input, j: nat, c: nat)
    requires inp.Valid() && j <= |inp.xs|
  {
    c < inp.size && Inserted(inp, j).cells[c] == ZeroBlock
  }

  lemma StillEmptyStep(inp: Input, j: nat, c: nat)
    requires inp.Valid() && j < |inp.xs| && StillEmpty(inp, j, c) && c !in inp.Set(j)
    ensures StillEmpty(inp, j + 1, c)
  {
    hide Inserted, Input.Set, Input.Valid, XorList, FindsEmpty;
    InsertedStep(inp, j);
  }

  lemma {:induction false} NeverInserted(inp: Input, j: nat, c: nat)
    requires inp.Valid() && j <= |inp.xs| && c < inp.size && !InEarlier(inp, j, c)
    ensures StillEmpty(inp, j, c)
    decreases j
  {
    hide Input.Set;
    if j > 0 {
      assert !InEarlier(inp, j - 1, c) && c !in inp.Set(j - 1);
      hide *;
      NeverInserted(inp, j - 1, c);
      StillEmptyStep(inp, j - 1, c);
    }
  }

  /** A cell that is no position of any element goes out as a block of the generator: the one after all
      blocks of the insertions and of the empty cells below it. */
  lemma UnusedRowIsRandom(inp: Input, maskSize: nat, c: nat)
    requires inp.Valid() && maskSize <= BLOCK_SIZE && c < inp.size && !InEarlier(inp, |inp.xs|, c)
    ensures var p := Inserted(inp, |inp.xs|);
            RowsOf(Encode(inp), maskSize)[c] == Prefix(inp.prng(p.drawn + EmptyBelow(p.cells, c)), maskSize)
  {
    hide Prefix, Inserted, InEarlier, FillTo, EmptyBelow;
    NeverInserted(inp, |inp.xs|, c);
    var p := Inserted(inp, |inp.xs|);
    FillValues(p.cells, inp.size, inp.prng, p.drawn, c);
  }

  /** With blocks that are not zero, no cell of the filter that is sent is zero. */
  lemma NoZeroIsSent(inp: Input, c: nat)
    requires inp.Valid() && c < inp.size && forall d: nat :: inp.prng(d) != ZeroBlock
    ensures Encode(inp)[c] != ZeroBlock
  {
    hide Inserted;
    var p := Inserted(inp, |inp.xs|);
    if p.cells[c] == ZeroBlock { FillValues(p.cells, inp.size, inp.prng, p.drawn, c); }
    FillFacts(p.cells, inp.size, inp.prng, p.drawn);
  }

  // ----- the decoders -----

  function PaddedRows(rows: seq<seq<Byte>>): (r: seq<Block>)
    ensures |r| == |rows| && forall i :: 0 <= i < |rows| ==> r[i] == Padded(rows[i])
  {
    seq(|rows|, i requires 0 <= i < |rows| => Padded(rows[i]))
  }

  /** The decoding loop over a list of positions, repetitions included. */
  method Decode(rows: seq<seq<Byte>>, positions: seq<nat>, oprf: Block) returns (payload: Block)
    requires InRange(positions, |rows|)
    ensures payload == Xor(oprf, XorList(PaddedRows(rows), positions))
  {
    var blkY: Block := ZeroBlock;
    for k := 0 to |positions|
      invariant blkY == XorList(PaddedRows(rows), positions[..k])
    {
      assert positions[..k + 1][..k] == positions[..k];
      blkY := Xor(blkY, Padded(rows[positions[k]]));
    }
    assert positions[..|positions|] == positions;
    payload := Xor(oprf, blkY);
  }

  /** The cells that a list visits an odd number of times. */
  function OddPart(cells: seq<Block>, xs: seq<nat>, i: nat): Block {
    if i < |cells| && multiset(xs)[i] % 2 == 1 then cells[i] else ZeroBlock
  }

  /** Adding a summand where there was none, or removing it where there was one. */
  lemma FlipOne(n: nat, x: nat, v: Block, odd: bool, before: nat -> Block, after: nat -> Block)
    requires x < n && before(x) == (if odd then v else ZeroBlock) && after(x) == (if odd then ZeroBlock else v)
    requires forall i: nat :: i < n && i != x ==> after(i) == before(i)
    ensures XorSum(n, after) == Xor(XorSum(n, before), v)
  {
    hide Xor, XorSum;
    var rest := (i: nat) => if i == x then ZeroBlock else before(i);
    SumRemove(n, x, before, rest);
    SumRemove(n, x, after, rest);
    var r := XorSum(n, rest);
    XorComm(v, r);
    XorCancel(v, r);
    XorZero(r);
  }

  lemma CountStep(xs: seq<nat>, x: nat, i: nat)
    ensures multiset(xs + [x])[i] == multiset(xs)[i] + if i == x then 1 else 0
  {}

  lemma {:induction false} XorListIsOddPart(cells: seq<Block>, xs: seq<nat>, odd: nat -> Block)
    requires InRange(xs, |cells|) && forall i: nat :: odd(i) == OddPart(cells, xs, i)
    ensures XorList(cells, xs) == XorSum(|cells|, odd)
  {
    hide Xor, XorSum;
    if xs == [] {
      SumZero(|cells|, odd);
    } else {
      var n := |xs| - 1;
      var x := xs[n];
      assert xs == xs[..n] + [x];
      var before := (i: nat) => OddPart(cells, xs[..n], i);
      XorListIsOddPart(cells, xs[..n], before);
      forall i: nat ensures multiset(xs)[i] == multiset(xs[..n])[i] + if i == x then 1 else 0 {
        CountStep(xs[..n], x, i);
      }
      FlipOne(|cells|, x, cells[x], multiset(xs[..n])[x] % 2 == 1, before, odd);
    }
  }

  /** The cells on which a decoder's list and the encoder's set disagree. */
  function Disagreement(cells: seq<Block>, decoder: seq<nat>, encoder: seq<nat>, i: nat): Block {
    if i < |cells| && (multiset(decoder)[i] % 2 == 1) != (i in encoder) then cells[i] else ZeroBlock
  }

  lemma IncreasingCounts(s: seq<nat>, x: nat)
    requires Increasing(s)
    ensures multiset(s)[x] == if x in s then 1 else 0
  {
    if s != [] {
      var n := |s| - 1;
      assert s == s[..n] + [s[n]];
      IncreasingCounts(s[..n], x);
    }
  }

  /** What a decoder that visits a list of positions returns. */
  function Decoded(rows: seq<seq<Byte>>, positions: seq<nat>, oprf: Block): Block
    requires InRange(positions, |rows|)
  {
    Xor(oprf, XorList(PaddedRows(rows), positions))
  }

  /** The rows are the mask prefixes of a filter that holds payload ^ oprf at the encoder's positions. */
  ghost predicate Encoded(cells: seq<Block>, rows: seq<seq<Byte>>, encoder: seq<nat>, payload: Block, oprf: Block, maskSize: nat)
  {
    && maskSize <= BLOCK_SIZE && |rows| == |cells| && Increasing(encoder)
    && (forall i :: 0 <= i < |rows| ==> rows[i] == Prefix(cells[i], maskSize))
    && Holds(cells, Item(encoder, Xor(payload, oprf)))
  }

  lemma ListsDisagree(cells: seq<Block>, encoder: seq<nat>, decoder: seq<nat>, error: nat -> Block)
    requires Increasing(encoder) && InRange(encoder, |cells|) && InRange(decoder, |cells|)
    requires forall i: nat :: error(i) == Disagreement(cells, decoder, encoder, i)
    ensures XorSum(|cells|, error) == Xor(XorList(cells, encoder), XorList(cells, decoder))
  {
    var o := (i: nat) => OddPart(cells, decoder, i);
    var h := (i: nat) => OddPart(cells, encoder, i);
    forall i: nat | i < |cells| ensures error(i) == Xor(h(i), o(i)) {
      IncreasingCounts(encoder, i);
      XorZero(cells[i]);
      XorZero(ZeroBlock);
    }
    SumXor(|cells|, h, o, error);
    XorListIsOddPart(cells, decoder, o);
    XorListIsOddPart(cells, encoder, h);
  }

  /** Main result: a decoder that visits any list of positions of an item gets the payload plus
      exactly the cells on which its list and the item's position set disagree. */
  lemma DecodingError(cells: seq<Block>, rows: seq<seq<Byte>>, encoder: seq<nat>, decoder: seq<nat>,
                      payload: Block, oprf: Block, maskSize: nat, error: nat -> Block)
    requires Encoded(cells, rows, encoder, payload, oprf, maskSize) && InRange(decoder, |cells|)
    requires forall i: nat :: error(i) == Disagreement(cells, decoder, encoder, i)
    ensures Prefix(Decoded(rows, decoder, oprf), maskSize) == Prefix(Xor(payload, XorSum(|cells|, error)), maskSize)
  {
    hide Xor, XorSum, XorList;
    ListsDisagree(cells, encoder, decoder, error);
    var got := XorList(cells, decoder);
    assert Xor(oprf, got) == Xor(payload, XorSum(|cells|, error)) by {
      XorAssoc(payload, Xor(payload, oprf), got);
      XorCancel(payload, oprf);
    }
    XorListPrefix(PaddedRows(rows), cells, decoder, maskSize);
    PrefixXor(oprf, XorList(PaddedRows(rows), decoder), oprf, got, maskSize);
  }

  /** So it is correct on the mask prefix exactly when those cells cancel there. */
  lemma DecodesIff(cells: seq<Block>, rows: seq<seq<Byte>>, encoder: seq<nat>, decoder: seq<nat>,
                   payload: Block, oprf: Block, maskSize: nat, error: nat -> Block)
    requires Encoded(cells, rows, encoder, payload, oprf, maskSize) && InRange(decoder, |cells|)
    requires forall i: nat :: error(i) == Disagreement(cells, decoder, encoder, i)
    ensures Prefix(Decoded(rows, decoder, oprf), maskSize) == Prefix(payload, maskSize)
            <==> Prefix(XorSum(|cells|, error), maskSize) == Prefix(ZeroBlock, maskSize)
  {
    hide Xor, XorSum, Decoded;
    DecodingError(cells, rows, encoder, decoder, payload, oprf, maskSize, error);
    var sum := XorSum(|cells|, error);
    XorCancel(payload, sum);
    XorZero(payload);
    if Prefix(Xor(payload, sum), maskSize) == Prefix(payload, maskSize) {
      PrefixXor(payload, Xor(payload, sum), payload, payload, maskSize);
    } else if Prefix(sum, maskSize) == Prefix(ZeroBlock, maskSize) {
      PrefixXor(payload, sum, payload, ZeroBlock, maskSize);
    }
  }

  lemma NoDupCounts(xs: seq<nat>, x: nat)
    requires NoDup(xs)
    ensures multiset(xs)[x] == if x in xs then 1 else 0
  {
    if xs != [] {
      var n := |xs| - 1;
      assert xs == xs[..n] + [xs[n]];
      NoDupCounts(xs[..n], x);
    }
  }

  /** OPPRFReceiver::sendBFBased with OPPRFSender::recvBFBased: both sides use the same hashes, and an
      element whose positions are pairwise distinct comes back exactly on the mask prefix. */
  lemma RoundTrip(cells: seq<Block>, rows: seq<seq<Byte>>, positions: seq<nat>, payload: Block, oprf: Block, maskSize: nat)
    requires Encoded(cells, rows, ToSet(positions), payload, oprf, maskSize)
    requires InRange(positions, |cells|) && NoDup(positions)
    ensures Prefix(Decoded(rows, positions, oprf), maskSize) == Prefix(payload, maskSize)
  {
    hide Xor, XorSum, Decoded, Encoded, ToSet;
    var e := (i: nat) => Disagreement(cells, positions, ToSet(positions), i);
    DecodesIff(cells, rows, ToSet(positions), positions, payload, oprf, maskSize, e);
    forall i: nat | i < |cells| ensures e(i) == ZeroBlock {
      NoDupCounts(positions, i);
    }
    SumZero(|cells|, e);
  }

  /** The cells that a repeating position list visits an even number of times. */
  function EvenHits(cells: seq<Block>, positions: seq<nat>, i: nat): Block {
    if i < |cells| && i in positions && multiset(positions)[i] % 2 == 0 then cells[i] else ZeroBlock
  }

  lemma EvenIsDisagreement(cells: seq<Block>, positions: seq<nat>, i: nat)
    ensures Disagreement(cells, positions, ToSet(positions), i) == EvenHits(cells, positions, i)
  {
    assert i in ToSet(positions) <==> i in positions;
    assert i in positions <==> multiset(positions)[i] > 0;
  }

  /** In general the same pair of routines is correct exactly when the cells hit an even number of
      times cancel: the encoder removes repeated positions and the decoder does not. */
  lemma RoundTripIff(cells: seq<Block>, rows: seq<seq<Byte>>, positions: seq<nat>, payload: Block, oprf: Block,
                     maskSize: nat, even: nat -> Block)
    requires Encoded(cells, rows, ToSet(positions), payload, oprf, maskSize) && InRange(positions, |cells|)
    requires forall i: nat :: even(i) == EvenHits(cells, positions, i)
    ensures Prefix(Decoded(rows, positions, oprf), maskSize) == Prefix(payload, maskSize)
            <==> Prefix(XorSum(|cells|, even), maskSize) == Prefix(ZeroBlock, maskSize)
  {
    hide Xor, XorSum, Decoded, Encoded, ToSet;
    var e := (i: nat) => Disagreement(cells, positions, ToSet(positions), i);
    DecodesIff(cells, rows, ToSet(positions), positions, payload, oprf, maskSize, e);
    forall i: nat | i < |cells| ensures e(i) == even(i) {
      EvenIsDisagreement(cells, positions, i);
    }
    SumExt(|cells|, e, even);
  }

  // ----- encoder and decoder together -----

  /** What the receiver of the filter decodes for element j. */
  function Returned(inp: Input, j: nat, maskSize: nat): Block
    requires inp.Valid() && j < |inp.xs| && maskSize <= BLOCK_SIZE
  {
    Decoded(RowsOf(Encode(inp), maskSize), inp.List(j), inp.oprfs[j])
  }

  lemma ElementIsEncoded(inp: Input, j: nat, maskSize: nat)
    requires inp.Valid() && j < |inp.xs| && maskSize <= BLOCK_SIZE && NothingZero(inp) && !Covered(inp, j)
    ensures Encoded(Encode(inp), RowsOf(Encode(inp), maskSize), ToSet(inp.List(j)), inp.payloads[j], inp.oprfs[j], maskSize)
  {
    hide Encode, Prefix, ToSet, Xor, XorList, Holds, NothingZero, Covered;
    ElementIsSent(inp, j);
  }

  /** Main result, end to end: when nothing stored is zero, every element whose positions are not all
      positions of earlier elements comes back on the mask if and only if the cells its list hits an even
      number of times cancel there ... */
  lemma EveryElementReturnsIff(inp: Input, j: nat, maskSize: nat, even: nat -> Block)
    requires inp.Valid() && j < |inp.xs| && maskSize <= BLOCK_SIZE && NothingZero(inp) && !Covered(inp, j)
    requires forall i: nat :: even(i) == EvenHits(Encode(inp), inp.List(j), i)
    ensures Prefix(Returned(inp, j, maskSize), maskSize) == Prefix(inp.payloads[j], maskSize)
            <==> Prefix(XorSum(inp.size, even), maskSize) == Prefix(ZeroBlock, maskSize)
  {
    hide Encode, Prefix, ToSet, Xor, XorList, XorSum, Encoded, NothingZero, Covered, EvenHits, Decoded;
    ElementIsEncoded(inp, j, maskSize);
    RoundTripIff(Encode(inp), RowsOf(Encode(inp), maskSize), inp.List(j), inp.payloads[j], inp.oprfs[j], maskSize, even);
  }

  /** ... in particular if its positions are pairwise distinct. */
  lemma EveryElementReturns(inp: Input, j: nat, maskSize: nat)
    requires inp.Valid() && j < |inp.xs| && maskSize <= BLOCK_SIZE && NothingZero(inp) && !Covered(inp, j)
    requires NoDup(inp.List(j))
    ensures Prefix(Returned(inp, j, maskSize), maskSize) == Prefix(inp.payloads[j], maskSize)
  {
    hide Encode, Prefix, ToSet, Xor, XorList, Encoded, NothingZero, Covered, Decoded, NoDup;
    ElementIsEncoded(inp, j, maskSize);
    RoundTrip(Encode(inp), RowsOf(Encode(inp), maskSize), inp.List(j), inp.payloads[j], inp.oprfs[j], maskSize);
  }

  /** Both routines in a row. */
  method SendAndDecode(inp: Input, maskSize: nat, j: nat) returns (rows: seq<seq<Byte>>, payload: Block)
    requires inp.Valid() && j < |inp.xs| && maskSize <= BLOCK_SIZE
    ensures rows == RowsOf(Encode(inp), maskSize) && payload == Returned(inp, j, maskSize)
    ensures NothingZero(inp) && !Covered(inp, j) && NoDup(inp.List(j)) ==>
              Prefix(payload, maskSize) == Prefix(inp.payloads[j], maskSize)
  {
    hide Encode, Prefix, ToSet, Xor, XorList, Encoded, NothingZero, Covered, NoDup;
    rows := SendBF(inp, maskSize);
    payload := Decode(rows, inp.List(j), inp.oprfs[j]);
    if NothingZero(inp) && !Covered(inp, j) && NoDup(inp.List(j)) {
      EveryElementReturns(inp, j, maskSize);
    }
  }

  // ----- runs that do not round-trip -----

  lemma PairCancels(rows: seq<seq<Byte>>, oprf: Block)
    requires rows != []
    ensures Decoded(rows, [0, 0], oprf) == oprf
  {
    hide Xor, Padded;
    var cells := PaddedRows(rows);
    assert [0, 0][..2] == [0, 0] && [0, 0][..0] == [];
    XorListStep(cells, [0, 0], 0);
    XorListStep(cells, [0, 0], 1);
    EmptyList(cells);
    XorZero(cells[0]);
    XorZero(oprf);
  }

  lemma OneElement(inp: Input)
    requires inp.Valid() && inp.xs != [] && inp.Set(0) == [0]
    ensures Inserted(inp, 1).cells[0] == inp.Value(0) && FindsEmpty(inp, 0) && !Covered(inp, 0)
  {
    var p := Inserted(inp, 0);
    assert p.cells[inp.Set(0)[0]] == ZeroBlock;
    assert ScanTo(p.cells, [0], 0, inp.prng, 0) == Scanned(p.cells, ZeroBlock, false, 0, 0);
    assert ScanTo(p.cells, [0], 1, inp.prng, 0) == Scanned(p.cells, ZeroBlock, true, 0, 0);
    hide Xor;
    XorZero(inp.Value(0));
    assert !InEarlier(inp, 0, inp.Set(0)[0]);
  }

  /** Two elements whose only hash is cell 0: nothing is left for the second, in a table of any size. */
  lemma NoCellLeft(inp: Input)
    requires inp.Valid() && |inp.xs| == 2 && inp.numHashes == 1 && inp.payloads[0] != inp.oprfs[0]
    requires inp.hashes(inp.xs[0], 0) % inp.size == inp.hashes(inp.xs[1], 0) % inp.size == 0
    ensures !FindsEmpty(inp, 1)
  {
    forall j | 0 <= j < 2 ensures inp.Set(j) == [0] {
      assert inp.List(j) == [0] && [0][..0] == [];
    }
    hide Xor, Input.Set, Inserted;
    OneElement(inp);
    ZeroSum(inp.payloads[0], inp.oprfs[0]);
  }

  /** The same for any two elements with the same positions, wherever they are in the list: the later
      one finds no cell. */
  lemma SamePositions(inp: Input, i: nat, j: nat)
    requires inp.Valid() && i < j < |inp.xs| && NothingZero(inp) && inp.Set(j) == inp.Set(i)
    ensures !FindsEmpty(inp, j)
  {
    hide NothingZero, FindsEmpty, Input.Set;
    forall k | 0 <= k < |inp.Set(j)| ensures InEarlier(inp, j, inp.Set(j)[k]) {
      assert inp.Set(j)[k] in inp.Set(i);
    }
    FindsEmptyIff(inp, j);
  }

  lemma RepeatedLists(inp: Input)
    requires inp.Valid() && |inp.xs| == 1 && inp.numHashes == 2
    requires inp.hashes(inp.xs[0], 0) % inp.size == inp.hashes(inp.xs[0], 1) % inp.size == 0
    ensures inp.List(0) == [0, 0] && inp.Set(0) == [0]
  {
    assert inp.List(0) == [0, 0];
    assert [0, 0][..1] == [0] && [0][..0] == [];
    assert ToSet([0]) == [0];
  }

  lemma OneElementStored(inp: Input)
    requires inp.Valid() && |inp.xs| == 1 && inp.Set(0) == [0] && inp.Value(0) != ZeroBlock
    ensures NothingZero(inp) && !Covered(inp, 0)
  {
    OneElement(inp);
    hide Inserted, Input.Set, Input.Value, Covered;
  }

  /** One element, inserted into the empty filter, whose two hashes collide: nothing goes wrong in the
      encoder, and the decoder returns the OPRF value in place of the payload. */
  lemma RepeatedPosition(inp: Input, maskSize: nat)
    requires inp.Valid() && |inp.xs| == 1 && inp.numHashes == 2
    requires inp.hashes(inp.xs[0], 0) % inp.size == inp.hashes(inp.xs[0], 1) % inp.size == 0
    requires maskSize <= BLOCK_SIZE && Prefix(inp.payloads[0], maskSize) != Prefix(inp.oprfs[0], maskSize)
    ensures NothingZero(inp) && !Covered(inp, 0)
    ensures Returned(inp, 0, maskSize) == inp.oprfs[0]
    ensures Prefix(Returned(inp, 0, maskSize), maskSize) != Prefix(inp.payloads[0], maskSize)
  {
    RepeatedLists(inp);
    assert inp.payloads[0] != inp.oprfs[0];
    ZeroSum(inp.payloads[0], inp.oprfs[0]);
    OneElementStored(inp);
    hide Xor, Encode, Prefix, Decoded, NothingZero, Covered, Input.List, Input.Set;
    PairCancels(RowsOf(Encode(inp), maskSize), inp.oprfs[0]);
  }
}
