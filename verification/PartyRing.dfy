/** `party` of frontend/OtBinMain.cpp: n parties deal XOR shares to each other in a two-direction
    phase, then pass an accumulated share once round the ring back to party 0. */
module PartyRing {
  import opened Blocks
  import opened PayLoads

  function Succ(i: nat, n: nat): nat
    requires i < n
  {
    (i + 1) % n
  }

  function Prev(i: nat, n: nat): nat
    requires i < n
  {
    (i - 1 + n) % n
  }

  lemma RingStep(i: nat, n: nat)
    requires i < n && 3 <= n
    ensures Succ(i, n) == (if i == n - 1 then 0 else i + 1)
    ensures Prev(i, n) == (if i == 0 then n - 1 else i - 1)
  {
    ModRing(i + 1, n);
    ModRing(i - 1 + n, n);
  }

  // ----- the two-direction phase -----

  datatype Job = Nothing | RecvThenSend | SendThenRecv | SendToPrev | RecvFromNext | SendToLast | RecvFromFirst

  /** The thread that party `me` starts for party p, branch by branch. */
  function Phase1(me: nat, p: nat, n: nat): Job
    requires me < n
  {
    var nextNeighbor, prevNeighbor := Succ(me, n), Prev(me, n);
    if p < me && p != prevNeighbor then RecvThenSend
    else if p > me && p != nextNeighbor then SendThenRecv
    else if p == prevNeighbor && me != 0 then SendToPrev
    else if p == nextNeighbor && me != n - 1 then RecvFromNext
    else if p == n - 1 && me == 0 then SendToLast
    else if p == 0 && me == n - 1 then RecvFromFirst
    else Nothing
  }

  predicate Sends(j: Job) {
    j.RecvThenSend? || j.SendThenRecv? || j.SendToPrev? || j.SendToLast?
  }

  predicate Receives(j: Job) {
    j.RecvThenSend? || j.SendThenRecv? || j.RecvFromNext? || j.RecvFromFirst?
  }

  /** With three or more parties each message of the phase has one sender and one receiver, the lower
      end of a two-way pair sends first and the other one receives first, every directed pair but (i, i+1) is served, and the link from the
      last party to party 0 is served although its share travels round the ring as well. */
  lemma Phase1Matches(a: nat, b: nat, n: nat)
    requires 3 <= n && a < n && b < n
    ensures Sends(Phase1(a, b, n)) == Receives(Phase1(b, a, n))
    ensures Sends(Phase1(a, b, n)) <==> a != b && (b != Succ(a, n) || a == n - 1)
    ensures Phase1(a, b, n).SendThenRecv? <==> Phase1(b, a, n).RecvThenSend?
    ensures Phase1(a, b, n).SendThenRecv? ==> a < b
    ensures !Phase1(a, b, n).SendToLast? && !Phase1(a, b, n).RecvFromFirst?
  {
    RingStep(a, n);
    RingStep(b, n);
  }

  // ----- one party's tables -----

  /** The row that makes the shares add up: the next neighbour's, or party 0's own. */
  function Target(me: nat, n: nat): nat
    requires me < n
  {
    if me == 0 then 0 else Succ(me, n)
  }

  /** The dealing rule, at every index. */
  ghost predicate SharesAddUp(sendPayLoads: Rows, me: nat, n: nat, setSize: nat)
    requires me < n
  {
    forall i: nat :: i < setSize ==>
      At(sendPayLoads, Target(me, n), i) == OthersSum(sendPayLoads, n, me, Target(me, n), i)
  }

  class Party {
    const me: nat
    const n: nat
    const setSize: nat
    var sendPayLoads: Rows
    var recvPayLoads: Rows

    constructor (me: nat, n: nat, setSize: nat)
      ensures this.me == me && this.n == n && this.setSize == setSize
    {
      this.me, this.n, this.setSize := me, n, setSize;
      sendPayLoads, recvPayLoads := [], [];
    }

    /** Random rows, except that the target row is the XOR of the others. */
    method DealShares(random: Rows)
      requires me < n && 3 <= n && Shape(random, n, setSize)
      modifies this
      ensures Shape(sendPayLoads, n, setSize) && Shape(recvPayLoads, n, setSize)
      ensures forall k :: 0 <= k < n && k != Target(me, n) ==> sendPayLoads[k] == random[k]
      ensures SharesAddUp(sendPayLoads, me, n, setSize)
    {
      RingStep(me, n);
      var target := Target(me, n);
      var row: seq<Block> := [];
      for i := 0 to setSize
        invariant |row| == i
        invariant forall j :: 0 <= j < i ==> row[j] == OthersSum(random, n, me, target, j)
      {
        var sum: Block := ZeroBlock;
        for idxP := 0 to n
          invariant sum == OthersSum(random, idxP, me, target, i)
        {
          OthersSumStep(random, idxP, me, target, i);
          if idxP != me && idxP != target {
            sum := Xor(sum, random[idxP][i]);
          }
        }
        row := row + [sum];
      }
      sendPayLoads := random[target := row];
      recvPayLoads := seq(n, _ => seq(setSize, _ => ZeroBlock));
      forall i: nat | i < setSize ensures OthersSum(random, n, me, target, i) == OthersSum(sendPayLoads, n, me, target, i) {
        OthersSumFrame(random, sendPayLoads, n, me, target, i);
      }
    }

    /** The received shares are added to the share for the next neighbour; every party but 0 first
        adds what came round the ring. */
    method AddReceived()
      requires me < n && 3 <= n && Shape(sendPayLoads, n, setSize) && Shape(recvPayLoads, n, setSize)
      modifies this`sendPayLoads
      ensures Shape(sendPayLoads, n, setSize)
      ensures sendPayLoads == old(sendPayLoads)[Succ(me, n) := RowHandedOn(me, n, old(sendPayLoads), recvPayLoads)]
    {
      hide Xor;
      RingStep(me, n);
      ghost var before := sendPayLoads;
      var next, prev := Succ(me, n), Prev(me, n);
      var row: seq<Block> := sendPayLoads[next];
      for i := 0 to setSize
        invariant |row| == setSize && sendPayLoads == before
        invariant forall j :: 0 <= j < i ==> row[j] == Accumulated(me, n, before[next][j], recvPayLoads, j)
        invariant forall j :: i <= j < setSize ==> row[j] == before[next][j]
      {
        if me != 0 {
          row := row[i := Xor(row[i], recvPayLoads[prev][i])];
        }
        var start := row[i];
        XorZero(start);
        for idxP := 0 to n
          invariant |row| == setSize && sendPayLoads == before && row[i] == Xor(start, OthersSum(recvPayLoads, idxP, me, prev, i))
          invariant forall j :: 0 <= j < i ==> row[j] == Accumulated(me, n, before[next][j], recvPayLoads, j)
          invariant forall j :: i < j < setSize ==> row[j] == before[next][j]
        {
          OthersSumStep(recvPayLoads, idxP, me, prev, i);
          if idxP != me && idxP != prev {
            XorAssoc(start, OthersSum(recvPayLoads, idxP, me, prev, i), recvPayLoads[idxP][i]);
            row := row[i := Xor(row[i], recvPayLoads[idxP][i])];
          }
        }
      }
      assert row == RowHandedOn(me, n, before, recvPayLoads);
      sendPayLoads := sendPayLoads[next := row];
    }
  }

  lemma OthersSumFrame(p: Rows, q: Rows, rows: nat, me: nat, skip: nat, i: nat)
    requires forall k: nat :: k < rows && k != me && k != skip ==> At(p, k, i) == At(q, k, i)
    ensures OthersSum(p, rows, me, skip, i) == OthersSum(q, rows, me, skip, i)
  {
    SumExt(rows, k => if k == me || k == skip then ZeroBlock else At(p, k, i),
           k => if k == me || k == skip then ZeroBlock else At(q, k, i));
  }

  /** The share that party `me` hands on round the ring, from its own share and its receive table. */
  function Accumulated(me: nat, n: nat, own: Block, recvPayLoads: Rows, i: nat): Block
    requires me < n
  {
    Xor(if me == 0 then own else Xor(own, At(recvPayLoads, Prev(me, n), i)),
        OthersSum(recvPayLoads, n, me, Prev(me, n), i))
  }

  /** The whole row that party `me` hands on. */
  function RowHandedOn(me: nat, n: nat, sendPayLoads: Rows, recvPayLoads: Rows): (row: seq<Block>)
    requires me < n <= |sendPayLoads|
  {
    var own := sendPayLoads[Succ(me, n)];
    seq(|own|, i requires 0 <= i < |own| => Accumulated(me, n, own[i], recvPayLoads, i))
  }

  /** Party 0's last loop: the indices where its own sum equals what came round the ring. */
  method Intersect(own: seq<Block>, ring: seq<Block>, maskSize: nat) returns (mIntersection: seq<nat>)
    requires |own| == |ring| && maskSize <= BLOCK_SIZE
    ensures forall i: nat :: i in mIntersection <==> i < |own| && Prefix(own[i], maskSize) == Prefix(ring[i], maskSize)
    ensures forall a, b :: 0 <= a < b < |mIntersection| ==> mIntersection[a] < mIntersection[b]
  {
    mIntersection := [];
    for i := 0 to |own|
      invariant forall j: nat :: j in mIntersection <==> j < i && Prefix(own[j], maskSize) == Prefix(ring[j], maskSize)
      invariant forall a :: 0 <= a < |mIntersection| ==> mIntersection[a] < i
      invariant forall a, b :: 0 <= a < b < |mIntersection| ==> mIntersection[a] < mIntersection[b]
    {
      if Prefix(own[i], maskSize) == Prefix(ring[i], maskSize) {
        mIntersection := mIntersection + [i];
      }
    }
  }

  // ----- conservation -----

  /** All parties' tables after dealing, their receive tables when they accumulate, and what party 0
      finally receives from the last party, for one element at its index in each set. */
  datatype Run = Run(dealt: nat -> Rows, received: nat -> Rows, final: Block, position: nat -> nat)

  function Dealt(run: Run, i: nat, j: nat): Block {
    At(run.dealt(i), j, run.position(i))
  }

  function Got(run: Run, i: nat, j: nat): Block {
    At(run.received(i), j, run.position(i))
  }

  function HandedOn(run: Run, i: nat, n: nat): Block
    requires i < n
  {
    Accumulated(i, n, Dealt(run, i, Succ(i, n)), run.received(i), run.position(i))
  }

  /** What arrives at the successor of party i in the ring round. */
  function RingArrival(run: Run, i: nat, n: nat): Block
    requires i < n
  {
    if i == n - 1 then run.final else Got(run, i + 1, i)
  }

  function RingError(run: Run, i: nat, n: nat): Block {
    if i < n then Xor(RingArrival(run, i, n), HandedOn(run, i, n)) else ZeroBlock
  }

  /** The share that party j dealt to party i, when it travels in the two-direction phase. */
  function Direct(run: Run, i: nat, j: nat, n: nat): Block {
    if i < n && j != i && j != Prev(i, n) then Dealt(run, j, i) else ZeroBlock
  }

  function DirectError(run: Run, i: nat, j: nat, n: nat): Block {
    if i < n && j != i && j != Prev(i, n) then Xor(Got(run, i, j), Dealt(run, j, i)) else ZeroBlock
  }

  function OwnAndReceived(run: Run, i: nat, n: nat): Block {
    if i < n then Xor(Dealt(run, i, Succ(i, n)), OthersSum(run.received(i), n, i, Prev(i, n), run.position(i))) else ZeroBlock
  }

  function RingTerm(run: Run, i: nat, n: nat): Block {
    Xor(RingError(run, i, n), OwnAndReceived(run, i, n))
  }

  /** Unrolling the ring round: every party's contribution and every hop's error, once. */
  lemma {:induction false} RingUnrolls(run: Run, i: nat, n: nat)
    requires 3 <= n && i < n
    ensures RingArrival(run, i, n) == XorSum(i + 1, k => RingTerm(run, k, n))
  {
    RingStep(i, n);
    var f := (k: nat) => RingTerm(run, k, n);
    var own, others := Dealt(run, i, Succ(i, n)), OthersSum(run.received(i), n, i, Prev(i, n), run.position(i));
    var arrived, handed := RingArrival(run, i, n), HandedOn(run, i, n);
    XorCancel(handed, arrived);
    if i == 0 {
      assert handed == OwnAndReceived(run, i, n);
      XorZero(f(0));
      assert XorSum(0, f) == ZeroBlock;
    } else {
      RingUnrolls(run, i - 1, n);
      var before := RingArrival(run, i - 1, n);
      assert handed == Xor(Xor(own, before), others);
      assert handed == Xor(before, OwnAndReceived(run, i, n)) by {
        XorComm(own, before);
        XorAssoc(before, own, others);
      }
      assert arrived == Xor(before, f(i)) by {
        XorComm(Xor(arrived, handed), handed);
        XorAssoc(before, OwnAndReceived(run, i, n), Xor(arrived, handed));
        XorComm(OwnAndReceived(run, i, n), Xor(arrived, handed));
      }
      SumExt(i, f, k => RingTerm(run, k, n));
      assert XorSum(i, f) == before;
    }
    SumExt(i + 1, f, k => RingTerm(run, k, n));
  }

  /** The dealing rule seen at the element: each party's shares cancel, party 0's add up to its own row. */
  ghost predicate DealtOk(run: Run, n: nat)
    requires 3 <= n
  {
    && (forall i: nat :: 0 < i < n ==> Dealt(run, i, Succ(i, n)) == OthersSum(run.dealt(i), n, i, Succ(i, n), run.position(i)))
    && Dealt(run, 0, 0) == OthersSum(run.dealt(0), n, 0, 0, run.position(0))
  }

  /** One party's shares in the whole run: the ring share and the direct ones. */
  function PartyShares(run: Run, j: nat, n: nat): Block {
    if j < n then Xor(Dealt(run, j, Succ(j, n)), XorSum(n, i => Direct(run, i, j, n))) else ZeroBlock
  }

  lemma PartySharesCancel(run: Run, j: nat, n: nat)
    requires 3 <= n && j < n && DealtOk(run, n)
    ensures PartyShares(run, j, n) == if j == 0 then Dealt(run, 0, 0) else ZeroBlock
  {
    var next := Succ(j, n);
    RingStep(j, n);
    var direct := (i: nat) => Direct(run, i, j, n);
    var others := (i: nat) => if i == j || i == next then ZeroBlock else Dealt(run, j, i);
    forall i: nat | i < n ensures direct(i) == others(i) {
      RingStep(i, n);
    }
    SumExt(n, direct, others);
    SumExt(n, direct, i => Direct(run, i, j, n));
    var table := (k: nat) => if k == j || k == next then ZeroBlock else At(run.dealt(j), k, run.position(j));
    SumExt(n, others, table);
    if j > 0 {
      SumExt(n, table, k => if k == j || k == next then ZeroBlock else At(run.dealt(j), k, run.position(j)));
      XorZero(Dealt(run, j, next));
    } else {
      var all := (k: nat) => if k == 0 || k == 0 then ZeroBlock else At(run.dealt(0), k, run.position(0));
      SumRemove(n, next, all, table);
      SumExt(n, all, k => if k == 0 || k == 0 then ZeroBlock else At(run.dealt(0), k, run.position(0)));
    }
  }

  /** The sum over all parties of what they dealt and received, in terms of errors. */
  lemma ContributionsAreErrors(run: Run, n: nat)
    requires 3 <= n && DealtOk(run, n)
    ensures XorSum(n, i => OwnAndReceived(run, i, n))
            == Xor(Dealt(run, 0, 0), XorSum(n, i => XorSum(n, j => DirectError(run, i, j, n))))
  {
    var own := (i: nat) => if i < n then Dealt(run, i, Succ(i, n)) else ZeroBlock;
    var direct := (i: nat) => XorSum(n, j => Direct(run, i, j, n));
    var errors := (i: nat) => XorSum(n, j => DirectError(run, i, j, n));
    var arrived := (i: nat) => Xor(direct(i), errors(i));
    var total := (i: nat) => OwnAndReceived(run, i, n);
    forall i: nat | i < n ensures total(i) == Xor(own(i), arrived(i)) {
      ReceivedSplits(run, i, n);
    }
    SumXor(n, own, arrived, total);
    SumXor(n, direct, errors, arrived);
    assert Xor(XorSum(n, own), XorSum(n, direct)) == Dealt(run, 0, 0) by {
      AllShares(run, n, own, direct);
    }
    XorAssoc(XorSum(n, own), XorSum(n, direct), XorSum(n, errors));
    SumExt(n, total, i => OwnAndReceived(run, i, n));
    SumExt(n, errors, i => XorSum(n, j => DirectError(run, i, j, n)));
  }

  lemma ReceivedSplits(run: Run, i: nat, n: nat)
    requires 3 <= n && i < n
    ensures OthersSum(run.received(i), n, i, Prev(i, n), run.position(i))
            == Xor(XorSum(n, j => Direct(run, i, j, n)), XorSum(n, j => DirectError(run, i, j, n)))
  {
    var got := (k: nat) => if k == i || k == Prev(i, n) then ZeroBlock else At(run.received(i), k, run.position(i));
    var direct := (j: nat) => Direct(run, i, j, n);
    var errors := (j: nat) => DirectError(run, i, j, n);
    forall j: nat | j < n ensures got(j) == Xor(direct(j), errors(j)) {
      XorZero(ZeroBlock);
      XorComm(Got(run, i, j), Dealt(run, j, i));
      XorCancel(Dealt(run, j, i), Got(run, i, j));
    }
    SumXor(n, direct, errors, got);
    SumExt(n, got, k => if k == i || k == Prev(i, n) then ZeroBlock else At(run.received(i), k, run.position(i)));
    SumExt(n, direct, j => Direct(run, i, j, n));
    SumExt(n, errors, j => DirectError(run, i, j, n));
  }

  lemma AllShares(run: Run, n: nat, own: nat -> Block, direct: nat -> Block)
    requires 3 <= n && DealtOk(run, n)
    requires forall i: nat :: i < n ==> own(i) == Dealt(run, i, Succ(i, n))
    requires forall i: nat :: i < n ==> direct(i) == XorSum(n, j => Direct(run, i, j, n))
    ensures Xor(XorSum(n, own), XorSum(n, direct)) == Dealt(run, 0, 0)
  {
    var byReceiver := (i: nat) => ((j: nat) => Direct(run, i, j, n));
    var byDealer := (j: nat) => ((i: nat) => Direct(run, i, j, n));
    var dealt := (j: nat) => XorSum(n, i => Direct(run, i, j, n));
    forall i: nat | i < n ensures direct(i) == XorSum(n, byReceiver(i)) {
      SumExt(n, byReceiver(i), j => Direct(run, i, j, n));
    }
    forall j: nat | j < n ensures dealt(j) == XorSum(n, byDealer(j)) {
      SumExt(n, byDealer(j), i => Direct(run, i, j, n));
    }
    SumSwap(n, n, byReceiver, byDealer, direct, dealt);
    var shares := (j: nat) => PartyShares(run, j, n);
    SumXor(n, own, dealt, shares);
    var zero := (k: nat) => ZeroBlock;
    forall j: nat | j < n ensures shares(j) == if j == 0 then Dealt(run, 0, 0) else ZeroBlock {
      PartySharesCancel(run, j, n);
    }
    SumRemove(n, 0, shares, zero);
    SumZero(n, zero);
    XorZero(Dealt(run, 0, 0));
  }

  /** Main result: what comes back to party 0 differs from its own sum by exactly the errors of the
      n hops of the ring and of the direct transfers that are accumulated, each counted once. */
  lemma PartyZeroSeesErrors(run: Run, n: nat)
    requires 3 <= n && DealtOk(run, n)
    ensures Xor(run.final, Dealt(run, 0, 0))
            == Xor(XorSum(n, i => RingError(run, i, n)), XorSum(n, i => XorSum(n, j => DirectError(run, i, j, n))))
  {
    RingUnrolls(run, n - 1, n);
    ContributionsAreErrors(run, n);
    var hops := (i: nat) => RingError(run, i, n);
    var own := (i: nat) => OwnAndReceived(run, i, n);
    var terms := (i: nat) => RingTerm(run, i, n);
    SumXor(n, hops, own, terms);
    SumExt(n, hops, i => RingError(run, i, n));
    SumExt(n, own, i => OwnAndReceived(run, i, n));
    SumExt(n, terms, i => RingTerm(run, i, n));
    var direct := XorSum(n, i => XorSum(n, j => DirectError(run, i, j, n)));
    XorAssoc(XorSum(n, hops), Xor(Dealt(run, 0, 0), direct), Dealt(run, 0, 0));
    XorComm(Dealt(run, 0, 0), direct);
    XorCancel(Dealt(run, 0, 0), direct);
  }

  /** The XOR of the errors of the n hops and of the direct transfers that are accumulated. */
  function Errors(run: Run, n: nat): Block
  {
    Xor(XorSum(n, i => RingError(run, i, n)), XorSum(n, i => XorSum(n, j => DirectError(run, i, j, n))))
  }

  /** Party 0's test on the element: it passes if and only if the errors cancel on the mask. */
  lemma ReportedIff(run: Run, n: nat, maskSize: nat)
    requires 3 <= n && DealtOk(run, n) && maskSize <= BLOCK_SIZE
    ensures Prefix(run.final, maskSize) == Prefix(Dealt(run, 0, 0), maskSize) <==> Prefix(Errors(run, n), maskSize) == Prefix(ZeroBlock, maskSize)
  {
    hide Xor, Prefix, XorSum, DealtOk;
    PartyZeroSeesErrors(run, n);
    AgreeIff(run.final, Dealt(run, 0, 0), maskSize);
  }

  /** What party i hands on arrives unchanged on the mask. */
  ghost predicate HopOk(run: Run, i: nat, n: nat, maskSize: nat)
    requires i < n && maskSize <= BLOCK_SIZE
  {
    Prefix(RingArrival(run, i, n), maskSize) == Prefix(HandedOn(run, i, n), maskSize)
  }

  /** The share that party j dealt to party i, where it is one that is accumulated, arrives unchanged on the mask. */
  ghost predicate DirectOk(run: Run, i: nat, j: nat, n: nat, maskSize: nat)
    requires maskSize <= BLOCK_SIZE
  {
    i < n && j < n && j != i && j != Prev(i, n) ==> Prefix(Got(run, i, j), maskSize) == Prefix(Dealt(run, j, i), maskSize)
  }

  lemma HopErrorIff(run: Run, i: nat, n: nat, maskSize: nat)
    requires i < n && maskSize <= BLOCK_SIZE
    ensures HopOk(run, i, n, maskSize) <==> Prefix(RingError(run, i, n), maskSize) == Prefix(ZeroBlock, maskSize)
  {
    hide Xor, Prefix;
    AgreeIff(RingArrival(run, i, n), HandedOn(run, i, n), maskSize);
  }

  lemma DirectErrorIff(run: Run, i: nat, j: nat, n: nat, maskSize: nat)
    requires i < n && j < n && maskSize <= BLOCK_SIZE
    ensures DirectOk(run, i, j, n, maskSize) <==> Prefix(DirectError(run, i, j, n), maskSize) == Prefix(ZeroBlock, maskSize)
  {
    hide Xor, Prefix;
    AgreeIff(Got(run, i, j), Dealt(run, j, i), maskSize);
  }

  /** The hop errors, when all hops but perhaps one are right. */
  lemma OtherHopsRight(run: Run, i0: nat, n: nat, maskSize: nat)
    requires i0 < n && maskSize <= BLOCK_SIZE
    requires forall i: nat :: i < n && i != i0 ==> HopOk(run, i, n, maskSize)
    ensures Prefix(XorSum(n, i => RingError(run, i, n)), maskSize) == Prefix(RingError(run, i0, n), maskSize)
  {
    hide Xor, Prefix, XorSum, RingError, HopOk;
    var e := (i: nat) => RingError(run, i, n);
    forall i: nat | i < n && i != i0 ensures Prefix(e(i), maskSize) == Prefix(ZeroBlock, maskSize) {
      HopErrorIff(run, i, n, maskSize);
    }
    OneTerm(n, i0, e, maskSize);
    SumExt(n, e, i => RingError(run, i, n));
  }

  /** The errors of the direct transfers, when all of them but perhaps one are right. */
  lemma OtherDirectsRight(run: Run, i0: nat, j0: nat, n: nat, maskSize: nat)
    requires i0 < n && j0 < n && maskSize <= BLOCK_SIZE
    requires forall i: nat, j: nat :: i < n && j < n && (i != i0 || j != j0) ==> DirectOk(run, i, j, n, maskSize)
    ensures Prefix(XorSum(n, i => XorSum(n, j => DirectError(run, i, j, n))), maskSize) == Prefix(DirectError(run, i0, j0, n), maskSize)
  {
    hide Xor, Prefix, XorSum, DirectError, DirectOk;
    var rows := (i: nat) => XorSum(n, j => DirectError(run, i, j, n));
    forall i: nat | i < n && i != i0 ensures Prefix(rows(i), maskSize) == Prefix(ZeroBlock, maskSize) {
      DirectErrorIff(run, i, 0, n, maskSize);
      OtherOfRow(run, i, 0, n, maskSize);
    }
    OneTerm(n, i0, rows, maskSize);
    SumExt(n, rows, i => XorSum(n, j => DirectError(run, i, j, n)));
    OtherOfRow(run, i0, j0, n, maskSize);
  }

  lemma OtherOfRow(run: Run, i: nat, j0: nat, n: nat, maskSize: nat)
    requires i < n && j0 < n && maskSize <= BLOCK_SIZE
    requires forall j: nat :: j < n && j != j0 ==> DirectOk(run, i, j, n, maskSize)
    ensures Prefix(XorSum(n, j => DirectError(run, i, j, n)), maskSize) == Prefix(DirectError(run, i, j0, n), maskSize)
  {
    hide Xor, Prefix, XorSum, DirectError, DirectOk;
    var e := (j: nat) => DirectError(run, i, j, n);
    forall j: nat | j < n && j != j0 ensures Prefix(e(j), maskSize) == Prefix(ZeroBlock, maskSize) {
      DirectErrorIff(run, i, j, n, maskSize);
    }
    OneTerm(n, j0, e, maskSize);
    SumExt(n, e, j => DirectError(run, i, j, n));
  }

  /** When all hops but perhaps hop i and all direct transfers but perhaps the one from party j to party k
      are right, the errors come to the sum of those two. */
  lemma ErrorsOfTwo(run: Run, i: nat, k: nat, j: nat, n: nat, maskSize: nat)
    requires i < n && j < n && k < n && maskSize <= BLOCK_SIZE
    requires forall a: nat :: a < n && a != i ==> HopOk(run, a, n, maskSize)
    requires forall a: nat, b: nat :: a < n && b < n && (a != k || b != j) ==> DirectOk(run, a, b, n, maskSize)
    ensures Prefix(Errors(run, n), maskSize) == Prefix(Xor(RingError(run, i, n), DirectError(run, k, j, n)), maskSize)
  {
    hide Xor, Prefix, XorSum, RingError, DirectError, HopOk, DirectOk;
    OtherHopsRight(run, i, n, maskSize);
    OtherDirectsRight(run, k, j, n, maskSize);
    PrefixXor(XorSum(n, a => RingError(run, a, n)), XorSum(n, a => XorSum(n, b => DirectError(run, a, b, n))),
              RingError(run, i, n), DirectError(run, k, j, n), maskSize);
  }

  /** Exactly one hop that is wrong on the mask: the element is not reported. */
  lemma OneWrongHop(run: Run, i: nat, n: nat, maskSize: nat)
    requires 3 <= n && DealtOk(run, n) && i < n && maskSize <= BLOCK_SIZE && !HopOk(run, i, n, maskSize)
    requires forall a: nat :: a < n && a != i ==> HopOk(run, a, n, maskSize)
    requires forall a: nat, b: nat :: a < n && b < n ==> DirectOk(run, a, b, n, maskSize)
    ensures Prefix(run.final, maskSize) != Prefix(Dealt(run, 0, 0), maskSize)
  {
    hide Xor, Prefix, RingError, DirectError, HopOk, DirectOk, Errors, DealtOk;
    ErrorsOfTwo(run, i, 0, 0, n, maskSize);
    HopErrorIff(run, i, n, maskSize);
    DirectErrorIff(run, 0, 0, n, maskSize);
    PrefixXor(RingError(run, i, n), DirectError(run, 0, 0, n), RingError(run, i, n), ZeroBlock, maskSize);
    XorZero(RingError(run, i, n));
    ReportedIff(run, n, maskSize);
  }

  /** And so for exactly one direct transfer that is wrong. */
  lemma OneWrongShare(run: Run, k: nat, j: nat, n: nat, maskSize: nat)
    requires 3 <= n && DealtOk(run, n) && k < n && j < n && maskSize <= BLOCK_SIZE && !DirectOk(run, k, j, n, maskSize)
    requires forall a: nat :: a < n ==> HopOk(run, a, n, maskSize)
    requires forall a: nat, b: nat :: a < n && b < n && (a != k || b != j) ==> DirectOk(run, a, b, n, maskSize)
    ensures Prefix(run.final, maskSize) != Prefix(Dealt(run, 0, 0), maskSize)
  {
    hide Xor, Prefix, RingError, DirectError, HopOk, DirectOk, Errors, DealtOk;
    ErrorsOfTwo(run, 0, k, j, n, maskSize);
    HopErrorIff(run, 0, n, maskSize);
    DirectErrorIff(run, k, j, n, maskSize);
    PrefixXor(RingError(run, 0, n), DirectError(run, k, j, n), ZeroBlock, DirectError(run, k, j, n), maskSize);
    XorZero(DirectError(run, k, j, n));
    ReportedIff(run, n, maskSize);
  }

  /** An element of every set is reported when all transfers that count decode it correctly on the
      first maskSize bytes, whatever the indices of the element in the sets. */
  lemma CommonElementIsReported(run: Run, n: nat, maskSize: nat)
    requires 3 <= n && DealtOk(run, n) && maskSize <= BLOCK_SIZE
    requires forall i: nat :: i < n ==> Prefix(RingArrival(run, i, n), maskSize) == Prefix(HandedOn(run, i, n), maskSize)
    requires forall i: nat, j: nat :: i < n && j < n && j != i && j != Prev(i, n) ==>
               Prefix(Got(run, i, j), maskSize) == Prefix(Dealt(run, j, i), maskSize)
    ensures Prefix(run.final, maskSize) == Prefix(Dealt(run, 0, 0), maskSize)
  {
    hide Xor, Prefix, RingError, DirectError, Errors, DealtOk, RingArrival, HandedOn, Got, Dealt;
    forall i: nat | i < n ensures HopOk(run, i, n, maskSize) {}
    forall i: nat, j: nat | i < n && j < n ensures DirectOk(run, i, j, n, maskSize) {}
    ErrorsOfTwo(run, 0, 0, 0, n, maskSize);
    HopErrorIff(run, 0, n, maskSize);
    DirectErrorIff(run, 0, 0, n, maskSize);
    PrefixXor(RingError(run, 0, n), DirectError(run, 0, 0, n), ZeroBlock, ZeroBlock, maskSize);
    XorZero(ZeroBlock);
    ReportedIff(run, n, maskSize);
  }
}
