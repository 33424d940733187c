/** `tparty` of frontend/OtBinMain.cpp: n clients and a leader find the common elements by
    XOR shares.  Each client deals shares to its t successors, keeps their sum for the leader,
    adds what it received and sends the total; the leader reports the indices that sum to zero. */
module TParty {
  import opened Blocks
  import opened DualWindow
  import opened PayLoads

  /** A party other than the leader. */
  class Client {
    const t: nat
    const setSize: nat
    var sendPayLoads: Rows
    var recvPayLoads: Rows

    constructor (t: nat, setSize: nat)
      ensures this.t == t && this.setSize == setSize
    {
      this.t, this.setSize := t, setSize;
      sendPayLoads, recvPayLoads := [], [];
    }

    /** Random shares for the t neighbours and their sum for the leader. */
    method DealShares(random: Rows)
      requires Shape(random, t, setSize)
      modifies this
      ensures Shape(sendPayLoads, t + 1, setSize) && Shape(recvPayLoads, t, setSize)
      ensures sendPayLoads[..t] == random
      ensures forall i :: 0 <= i < setSize ==> At(sendPayLoads, t, i) == ColumnSum(random, t, i)
    {
      sendPayLoads := [];
      for idxP := 0 to t
        invariant sendPayLoads == random[..idxP]
      {
        sendPayLoads := sendPayLoads + [random[idxP]];
      }
      assert random[..t] == random;
      var row: seq<Block> := [];
      for i := 0 to setSize
        invariant |row| == i
        invariant forall j :: 0 <= j < i ==> row[j] == ColumnSum(random, t, j)
        invariant sendPayLoads == random
      {
        var sum: Block := ZeroBlock;
        for idxP := 0 to t
          invariant sendPayLoads == random && sum == ColumnSum(random, idxP, i)
        {
          ColumnSumStep(random, idxP, i);
          sum := Xor(sum, sendPayLoads[idxP][i]);
        }
        row := row + [sum];
      }
      sendPayLoads := sendPayLoads + [row];
      recvPayLoads := seq(t, _ => seq(setSize, _ => ZeroBlock));
    }

    /** Every received share is added to the share for the leader. */
    method AddReceived()
      requires Shape(sendPayLoads, t + 1, setSize) && Shape(recvPayLoads, t, setSize)
      modifies this`sendPayLoads
      ensures Shape(sendPayLoads, t + 1, setSize)
      ensures sendPayLoads[..t] == old(sendPayLoads[..t])
      ensures forall i :: 0 <= i < setSize ==>
                At(sendPayLoads, t, i) == Xor(old(At(sendPayLoads, t, i)), ColumnSum(recvPayLoads, t, i))
    {
      ghost var before := sendPayLoads;
      for i := 0 to setSize
        invariant Shape(sendPayLoads, t + 1, setSize) && sendPayLoads[..t] == before[..t]
        invariant forall j :: 0 <= j < i ==> At(sendPayLoads, t, j) == Xor(At(before, t, j), ColumnSum(recvPayLoads, t, j))
        invariant forall j :: i <= j < setSize ==> At(sendPayLoads, t, j) == At(before, t, j)
      {
        XorZero(At(before, t, i));
        for idxP := 0 to t
          invariant Shape(sendPayLoads, t + 1, setSize) && sendPayLoads[..t] == before[..t]
          invariant forall j :: 0 <= j < i ==> At(sendPayLoads, t, j) == Xor(At(before, t, j), ColumnSum(recvPayLoads, t, j))
          invariant forall j :: i < j < setSize ==> At(sendPayLoads, t, j) == At(before, t, j)
          invariant At(sendPayLoads, t, i) == Xor(At(before, t, i), ColumnSum(recvPayLoads, idxP, i))
        {
          ColumnSumStep(recvPayLoads, idxP, i);
          XorAssoc(At(before, t, i), ColumnSum(recvPayLoads, idxP, i), recvPayLoads[idxP][i]);
          var row: seq<Block> := sendPayLoads[t][i := Xor(sendPayLoads[t][i], recvPayLoads[idxP][i])];
          sendPayLoads := sendPayLoads[t := row];
        }
      }
    }
  }

  /** The leader's loop: exactly the indices whose received totals cancel on the first maskSize bytes. */
  method Intersect(recvPayLoads: Rows, n: nat, setSize: nat, maskSize: nat) returns (mIntersection: seq<nat>)
    requires Shape(recvPayLoads, n, setSize) && maskSize <= BLOCK_SIZE
    ensures forall i: nat :: i in mIntersection <==>
              i < setSize && Prefix(ColumnSum(recvPayLoads, n, i), maskSize) == Prefix(ZeroBlock, maskSize)
    ensures forall a, b :: 0 <= a < b < |mIntersection| ==> mIntersection[a] < mIntersection[b]
  {
    mIntersection := [];
    for i := 0 to setSize
      invariant forall j: nat :: j in mIntersection <==>
                  j < i && Prefix(ColumnSum(recvPayLoads, n, j), maskSize) == Prefix(ZeroBlock, maskSize)
      invariant forall a :: 0 <= a < |mIntersection| ==> mIntersection[a] < i
      invariant forall a, b :: 0 <= a < b < |mIntersection| ==> mIntersection[a] < mIntersection[b]
    {
      var sum: Block := ZeroBlock;
      for idxP := 0 to n
        invariant sum == ColumnSum(recvPayLoads, idxP, i)
      {
        ColumnSumStep(recvPayLoads, idxP, i);
        sum := Xor(sum, recvPayLoads[idxP][i]);
      }
      if Prefix(ZeroBlock, maskSize) == Prefix(sum, maskSize) {
        mIntersection := mIntersection + [i];
      }
    }
  }

  // ----- the network -----

  /** Sender and its send row. */
  type Transfer = (nat, nat)

  ghost predicate IsTransfer(m: Transfer, n: nat, t: nat) {
    m.0 < n && m.1 < t
  }

  ghost predicate AllTransfers(order: seq<Transfer>, n: nat, t: nat) {
    forall i :: 0 <= i < |order| ==> IsTransfer(order[i], n, t)
  }

  /** The receive tables of all clients, keyed by client and row. */
  type Received = map<(nat, nat), seq<Block>>

  /** One transfer completes: the receiver's row is overwritten with what it decoded. */
  ghost function Deliver(r: Received, m: Transfer, decoded: seq<Block>, n: nat, t: nat): Received
    requires Valid(n, t) && IsTransfer(m, n, t)
  {
    r[(Succ(m.0, m.1, n), TargetRow(m.1, n, t)) := decoded]
  }

  ghost function DeliverAll(order: seq<Transfer>, decode: Transfer -> seq<Block>, n: nat, t: nat): Received
    requires Valid(n, t) && AllTransfers(order, n, t)
  {
    if order == [] then map[] else
    var last := |order| - 1;
    Deliver(DeliverAll(order[..last], decode, n, t), order[last], decode(order[last]), n, t)
  }

  /** Main result on the sharing phase: whatever the order in which the threads of all clients
      complete their transfers, every receive row ends up with its own source's payload. */
  lemma {:induction false} AnyOrder(order: seq<Transfer>, decode: Transfer -> seq<Block>, n: nat, t: nat, j: nat, s: nat)
    requires Valid(n, t) && j < n && s < t
    requires AllTransfers(order, n, t)
    ensures var m := (Source(j, s, n, t), SourceRow(s, n, t));
      && IsTransfer(m, n, t)
      && ((j, s) in DeliverAll(order, decode, n, t) <==> m in order)
      && (m in order ==> DeliverAll(order, decode, n, t)[(j, s)] == decode(m))
  {
    SourcesMatch(j, s, n, t);
    if order != [] {
      var last := order[|order| - 1];
      var before := order[..|order| - 1];
      assert order == before + [last];
      AnyOrder(before, decode, n, t, j, s);
      TransfersMatch(last.0, last.1, n, t);
    }
  }

  // ----- conservation -----

  /** The tables of all clients after a run: what each dealt and what each received, and the
      index of one element in each client's set. */
  datatype Run = Run(sent: nat -> Rows, received: nat -> Rows, position: nat -> nat)

  /** The share a client passes to the leader after AddReceived. */
  function Total(run: Run, t: nat, c: nat): Block {
    Xor(ColumnSum(run.sent(c), t, run.position(c)), ColumnSum(run.received(c), t, run.position(c)))
  }

  function Sent(run: Run, c: nat, k: nat): Block {
    At(run.sent(c), k, run.position(c))
  }

  /** Decoded minus sent, for receive row s of client j. */
  function ShareError(run: Run, j: nat, s: nat, n: nat, t: nat): Block
    requires 1 <= t < n
  {
    if j < n && s < t then
      Xor(At(run.received(j), s, run.position(j)), Sent(run, Source(j, s, n, t), SourceRow(s, n, t)))
    else ZeroBlock
  }

  function SourceValue(run: Run, j: nat, s: nat, n: nat, t: nat): Block
    requires 1 <= t < n
  {
    if j < n && s < t then Sent(run, Source(j, s, n, t), SourceRow(s, n, t)) else ZeroBlock
  }

  /** All clients' k-th shares. */
  function SentByRow(run: Run, n: nat, k: nat): Block {
    XorSum(n, c => Sent(run, c, k))
  }

  lemma RowArrives(run: Run, s: nat, n: nat, t: nat)
    requires Valid(n, t) && s < t
    ensures XorSum(n, j => SourceValue(run, j, s, n, t)) == SentByRow(run, n, SourceRow(s, n, t))
  {
    var k := SourceRow(s, n, t);
    var f := (c: nat) => Sent(run, c, k);
    var g := (j: nat) => SourceValue(run, j, s, n, t);
    var shift := if n - t <= s + 1 then s + 1 else n - s - 1;
    forall j: nat | j < n ensures g(j) == f((j + shift) % n) {
      SourcesMatch(j, s, n, t);
    }
    SumRotate(n, shift, f, g);
    SumExt(n, f, c => Sent(run, c, k));
    SumExt(n, g, j => SourceValue(run, j, s, n, t));
  }

  lemma TailsReverse(w: nat, m: nat, f: nat -> Block, g: nat -> Block, f': nat -> Block, g': nat -> Block)
    requires forall s: nat :: s < w ==> g(s) == f(s)
    requires forall i: nat :: i < m ==> f'(i) == f(w + i)
    requires forall i: nat :: i < m ==> g'(i) == g(w + i)
    requires forall i: nat :: i < m ==> g'(i) == f'(m - 1 - i)
    ensures XorSum(w + m, g) == XorSum(w + m, f)
  {
    hide *;
    SumSplit(w, m, g, g');
    SumSplit(w, m, f, f');
    SumExt(w, f, g);
    SumReverse(m, f', g');
  }

  /** Mirroring the places from w on does not change a sum. */
  lemma MirroredTail(w: nat, m: nat, f: nat -> Block, g: nat -> Block)
    requires forall s: nat :: s < w + m ==> g(s) == f(if s < w then s else w + (w + m) - 1 - s)
    ensures XorSum(w + m, g) == XorSum(w + m, f)
  {
    hide *;
    var f' := (i: nat) => f(w + i);
    var g' := (i: nat) => g(w + i);
    TailsReverse(w, m, f, g, f', g');
  }

  /** Summed over all receive rows, the sources are all send rows, each once. */
  lemma RowsPermute(t: nat, n: nat, f: nat -> Block, g: nat -> Block)
    requires Valid(n, t)
    requires forall s: nat :: s < t ==> g(s) == f(SourceRow(s, n, t))
    ensures XorSum(t, g) == XorSum(t, f)
  {
    hide XorSum;
    var w := n - t - 1;
    if t <= w {
      SumExt(t, f, g);
    } else {
      MirroredTail(w, t - w, f, g);
    }
  }

  lemma AllSharesArrive(run: Run, n: nat, t: nat)
    requires Valid(n, t)
    ensures XorSum(n, j => XorSum(t, s => SourceValue(run, j, s, n, t))) == XorSum(n, c => ColumnSum(run.sent(c), t, run.position(c)))
  {
    var bySlot := (j: nat) => ((s: nat) => SourceValue(run, j, s, n, t));
    var byParty := (s: nat) => ((j: nat) => SourceValue(run, j, s, n, t));
    var rows := (j: nat) => XorSum(t, s => SourceValue(run, j, s, n, t));
    var columns := (s: nat) => XorSum(n, j => SourceValue(run, j, s, n, t));
    var sentRow := (k: nat) => SentByRow(run, n, k);
    forall j: nat | j < n ensures rows(j) == XorSum(t, bySlot(j)) {
      SumExt(t, s => SourceValue(run, j, s, n, t), bySlot(j));
    }
    forall s: nat | s < t ensures columns(s) == XorSum(n, byParty(s)) && columns(s) == sentRow(SourceRow(s, n, t)) {
      SumExt(n, j => SourceValue(run, j, s, n, t), byParty(s));
      RowArrives(run, s, n, t);
    }
    SumSwap(n, t, bySlot, byParty, rows, columns);
    RowsPermute(t, n, sentRow, columns);
    SentTotals(run, n, t, sentRow);
    SumExt(n, rows, j => XorSum(t, s => SourceValue(run, j, s, n, t)));
  }

  lemma SentTotals(run: Run, n: nat, t: nat, sentRow: nat -> Block)
    requires forall k: nat :: k < t ==> sentRow(k) == SentByRow(run, n, k)
    ensures XorSum(t, sentRow) == XorSum(n, c => ColumnSum(run.sent(c), t, run.position(c)))
  {
    var f := (k: nat) => ((c: nat) => Sent(run, c, k));
    var g := (c: nat) => ((k: nat) => Sent(run, c, k));
    var totals := (c: nat) => ColumnSum(run.sent(c), t, run.position(c));
    forall k: nat | k < t ensures sentRow(k) == XorSum(n, f(k)) {
      SumExt(n, c => Sent(run, c, k), f(k));
    }
    forall c: nat | c < n ensures totals(c) == XorSum(t, g(c)) {
      SumExt(t, k => At(run.sent(c), k, run.position(c)), g(c));
    }
    SumSwap(t, n, f, g, sentRow, totals);
    SumExt(n, totals, c => ColumnSum(run.sent(c), t, run.position(c)));
  }

  /** Conservation: the clients' totals add up to the sum of the share errors alone. */
  lemma TotalsAreErrors(run: Run, n: nat, t: nat)
    requires Valid(n, t)
    ensures XorSum(n, c => Total(run, t, c)) == XorSum(n, j => XorSum(t, s => ShareError(run, j, s, n, t)))
  {
    var sent := (c: nat) => ColumnSum(run.sent(c), t, run.position(c));
    var received := (c: nat) => ColumnSum(run.received(c), t, run.position(c));
    var totals := (c: nat) => Total(run, t, c);
    var errors := (j: nat) => XorSum(t, s => ShareError(run, j, s, n, t));
    var sources := (j: nat) => XorSum(t, s => SourceValue(run, j, s, n, t));
    SumXor(n, sent, received, totals);
    forall j: nat | j < n ensures errors(j) == Xor(received(j), sources(j)) {
      var e := (s: nat) => ShareError(run, j, s, n, t);
      var r := (s: nat) => At(run.received(j), s, run.position(j));
      var v := (s: nat) => SourceValue(run, j, s, n, t);
      SumXor(t, r, v, e);
      SumExt(t, e, s => ShareError(run, j, s, n, t));
      SumExt(t, r, s => At(run.received(j), s, run.position(j)));
      SumExt(t, v, s => SourceValue(run, j, s, n, t));
    }
    SumXor(n, received, sources, errors);
    AllSharesArrive(run, n, t);
    SumExt(n, sources, j => XorSum(t, s => SourceValue(run, j, s, n, t)));
    SumExt(n, sent, c => ColumnSum(run.sent(c), t, run.position(c)));
    SumExt(n, totals, c => Total(run, t, c));
    SumExt(n, errors, j => XorSum(t, s => ShareError(run, j, s, n, t)));
    XorComm(XorSum(n, sent), XorSum(n, received));
  }

  /** Main result: what the leader sees at index i is exactly the sum of the errors of the leader
      transfers and of the share transfers, wherever the clients keep the element. */
  lemma LeaderSeesErrors(run: Run, atLeader: Rows, i: nat, n: nat, t: nat)
    requires Valid(n, t)
    ensures ColumnSum(atLeader, n, i) ==
            Xor(XorSum(n, c => Xor(At(atLeader, c, i), Total(run, t, c))),
                XorSum(n, j => XorSum(t, s => ShareError(run, j, s, n, t))))
  {
    var seen := (c: nat) => At(atLeader, c, i);
    var totals := (c: nat) => Total(run, t, c);
    var errors := (c: nat) => Xor(At(atLeader, c, i), Total(run, t, c));
    SumXor(n, seen, totals, errors);
    TotalsAreErrors(run, n, t);
    SumExt(n, seen, k => At(atLeader, k, i));
    SumExt(n, totals, c => Total(run, t, c));
    SumExt(n, errors, c => Xor(At(atLeader, c, i), Total(run, t, c)));
    XorCancel(XorSum(n, totals), XorSum(n, seen));
  }

  /** The XOR of the errors of all leader transfers and of all share transfers, at the leader's index i. */
  function Errors(run: Run, atLeader: Rows, i: nat, n: nat, t: nat): Block
    requires 1 <= t < n
  {
    Xor(XorSum(n, c => Xor(At(atLeader, c, i), Total(run, t, c))),
        XorSum(n, j => XorSum(t, s => ShareError(run, j, s, n, t))))
  }

  /** The leader's loop on what it received in a run: an index is reported if and only if the errors of
      all transfers cancel on the mask. */
  method IntersectRun(ghost run: Run, recvPayLoads: Rows, n: nat, t: nat, setSize: nat, maskSize: nat) returns (mIntersection: seq<nat>)
    requires Valid(n, t) && Shape(recvPayLoads, n, setSize) && maskSize <= BLOCK_SIZE
    ensures forall i: nat :: i in mIntersection <==>
              i < setSize && Prefix(Errors(run, recvPayLoads, i, n, t), maskSize) == Prefix(ZeroBlock, maskSize)
  {
    hide ColumnSum, Prefix;
    mIntersection := Intersect(recvPayLoads, n, setSize, maskSize);
    forall i: nat ensures ColumnSum(recvPayLoads, n, i) == Errors(run, recvPayLoads, i, n, t) {
      LeaderSeesErrors(run, recvPayLoads, i, n, t);
    }
  }

  /** A client's row at the leader holds its total on the mask. */
  ghost predicate LeaderOk(run: Run, atLeader: Rows, i: nat, t: nat, c: nat, maskSize: nat)
    requires maskSize <= BLOCK_SIZE
  {
    Prefix(At(atLeader, c, i), maskSize) == Prefix(Total(run, t, c), maskSize)
  }

  /** A receive row holds the share it stands for on the mask. */
  ghost predicate ShareOk(run: Run, j: nat, s: nat, n: nat, t: nat, maskSize: nat)
    requires Valid(n, t) && j < n && s < t && maskSize <= BLOCK_SIZE
  {
    Prefix(At(run.received(j), s, run.position(j)), maskSize)
    == Prefix(Sent(run, Source(j, s, n, t), SourceRow(s, n, t)), maskSize)
  }

  /** The share errors of one client, when all its rows but perhaps one are right on the mask. */
  lemma RowErrors(run: Run, j: nat, s0: nat, n: nat, t: nat, maskSize: nat)
    requires Valid(n, t) && j < n && s0 < t && maskSize <= BLOCK_SIZE
    requires forall s: nat :: s < t && s != s0 ==> ShareOk(run, j, s, n, t, maskSize)
    ensures Prefix(XorSum(t, s => ShareError(run, j, s, n, t)), maskSize) == Prefix(ShareError(run, j, s0, n, t), maskSize)
  {
    hide Xor, Prefix, XorSum;
    var e := (s: nat) => ShareError(run, j, s, n, t);
    forall s: nat | s < t && s != s0 ensures Prefix(e(s), maskSize) == Prefix(ZeroBlock, maskSize) {
      assert ShareOk(run, j, s, n, t, maskSize);
      AgreeIff(At(run.received(j), s, run.position(j)), Sent(run, Source(j, s, n, t), SourceRow(s, n, t)), maskSize);
    }
    OneTerm(t, s0, e, maskSize);
    SumExt(t, e, s => ShareError(run, j, s, n, t));
  }

  lemma AllRowsRight(run: Run, j: nat, n: nat, t: nat, maskSize: nat)
    requires Valid(n, t) && j < n && maskSize <= BLOCK_SIZE
    requires forall s: nat :: s < t ==> ShareOk(run, j, s, n, t, maskSize)
    ensures Prefix(XorSum(t, s => ShareError(run, j, s, n, t)), maskSize) == Prefix(ZeroBlock, maskSize)
  {
    hide Xor, Prefix, XorSum;
    RowErrors(run, j, 0, n, t, maskSize);
    assert ShareOk(run, j, 0, n, t, maskSize);
    AgreeIff(At(run.received(j), 0, run.position(j)), Sent(run, Source(j, 0, n, t), SourceRow(0, n, t)), maskSize);
  }

  /** Exactly one share transfer that is wrong on the mask: the element is not reported. */
  lemma OneWrongShare(run: Run, atLeader: Rows, i: nat, n: nat, t: nat, maskSize: nat, j0: nat, s0: nat)
    requires Valid(n, t) && maskSize <= BLOCK_SIZE && j0 < n && s0 < t && !ShareOk(run, j0, s0, n, t, maskSize)
    requires forall c: nat :: c < n ==> LeaderOk(run, atLeader, i, t, c, maskSize)
    requires forall j: nat, s: nat :: j < n && s < t && (j != j0 || s != s0) ==> ShareOk(run, j, s, n, t, maskSize)
    ensures Prefix(ColumnSum(atLeader, n, i), maskSize) != Prefix(ZeroBlock, maskSize)
  {
    hide Xor, Prefix, XorSum, ShareOk;
    var shares := (j: nat) => XorSum(t, s => ShareError(run, j, s, n, t));
    forall j: nat | j < n && j != j0 ensures Prefix(shares(j), maskSize) == Prefix(ZeroBlock, maskSize) {
      AllRowsRight(run, j, n, t, maskSize);
    }
    RowErrors(run, j0, s0, n, t, maskSize);
    OneTerm(n, j0, shares, maskSize);
    SumExt(n, shares, j => XorSum(t, s => ShareError(run, j, s, n, t)));
    WrongIsNotZero(run, j0, s0, n, t, maskSize);
    LeaderTransfersRight(run, atLeader, i, n, t, maskSize);
    LeaderSeesErrors(run, atLeader, i, n, t);
    var leaders, all := XorSum(n, c => Xor(At(atLeader, c, i), Total(run, t, c))), XorSum(n, j => XorSum(t, s => ShareError(run, j, s, n, t)));
    PrefixXor(leaders, all, ZeroBlock, all, maskSize);
    XorZero(all);
  }

  lemma WrongIsNotZero(run: Run, j: nat, s: nat, n: nat, t: nat, maskSize: nat)
    requires Valid(n, t) && j < n && s < t && maskSize <= BLOCK_SIZE && !ShareOk(run, j, s, n, t, maskSize)
    ensures Prefix(ShareError(run, j, s, n, t), maskSize) != Prefix(ZeroBlock, maskSize)
  {
    hide Xor, Prefix;
    AgreeIff(At(run.received(j), s, run.position(j)), Sent(run, Source(j, s, n, t), SourceRow(s, n, t)), maskSize);
  }

  lemma LeaderTransfersRight(run: Run, atLeader: Rows, i: nat, n: nat, t: nat, maskSize: nat)
    requires 0 < n && maskSize <= BLOCK_SIZE && forall c: nat :: c < n ==> LeaderOk(run, atLeader, i, t, c, maskSize)
    ensures Prefix(XorSum(n, c => Xor(At(atLeader, c, i), Total(run, t, c))), maskSize) == Prefix(ZeroBlock, maskSize)
  {
    hide Xor, Prefix, XorSum, Total;
    LeaderTransfers(run, atLeader, i, n, t, maskSize, 0);
    assert LeaderOk(run, atLeader, i, t, 0, maskSize);
    AgreeIff(At(atLeader, 0, i), Total(run, t, 0), maskSize);
  }

  lemma LeaderTransfers(run: Run, atLeader: Rows, i: nat, n: nat, t: nat, maskSize: nat, c0: nat)
    requires c0 < n && maskSize <= BLOCK_SIZE
    requires forall c: nat :: c < n && c != c0 ==> LeaderOk(run, atLeader, i, t, c, maskSize)
    ensures Prefix(XorSum(n, c => Xor(At(atLeader, c, i), Total(run, t, c))), maskSize)
         == Prefix(Xor(At(atLeader, c0, i), Total(run, t, c0)), maskSize)
  {
    hide Xor, Prefix, XorSum, Total;
    var e := (c: nat) => Xor(At(atLeader, c, i), Total(run, t, c));
    forall c: nat | c < n && c != c0 ensures Prefix(e(c), maskSize) == Prefix(ZeroBlock, maskSize) {
      assert LeaderOk(run, atLeader, i, t, c, maskSize);
      AgreeIff(At(atLeader, c, i), Total(run, t, c), maskSize);
    }
    OneTerm(n, c0, e, maskSize);
    SumExt(n, e, c => Xor(At(atLeader, c, i), Total(run, t, c)));
  }

  lemma ShareTransfersRight(run: Run, n: nat, t: nat, maskSize: nat)
    requires Valid(n, t) && maskSize <= BLOCK_SIZE
    requires forall j: nat, s: nat :: j < n && s < t ==> ShareOk(run, j, s, n, t, maskSize)
    ensures Prefix(XorSum(n, j => XorSum(t, s => ShareError(run, j, s, n, t))), maskSize) == Prefix(ZeroBlock, maskSize)
  {
    hide Xor, Prefix, XorSum, ShareOk;
    var shares := (j: nat) => XorSum(t, s => ShareError(run, j, s, n, t));
    forall j: nat | j < n ensures Prefix(shares(j), maskSize) == Prefix(ZeroBlock, maskSize) {
      AllRowsRight(run, j, n, t, maskSize);
    }
    OneTerm(n, 0, shares, maskSize);
    SumExt(n, shares, j => XorSum(t, s => ShareError(run, j, s, n, t)));
  }

  /** The same for exactly one wrong leader transfer. */
  lemma OneWrongLeaderTransfer(run: Run, atLeader: Rows, i: nat, n: nat, t: nat, maskSize: nat, c0: nat)
    requires Valid(n, t) && maskSize <= BLOCK_SIZE && c0 < n && !LeaderOk(run, atLeader, i, t, c0, maskSize)
    requires forall c: nat :: c < n && c != c0 ==> LeaderOk(run, atLeader, i, t, c, maskSize)
    requires forall j: nat, s: nat :: j < n && s < t ==> ShareOk(run, j, s, n, t, maskSize)
    ensures Prefix(ColumnSum(atLeader, n, i), maskSize) != Prefix(ZeroBlock, maskSize)
  {
    hide Xor, Prefix, XorSum, ShareOk, ColumnSum, Total;
    LeaderTransfers(run, atLeader, i, n, t, maskSize, c0);
    ShareTransfersRight(run, n, t, maskSize);
    AgreeIff(At(atLeader, c0, i), Total(run, t, c0), maskSize);
    LeaderSeesErrors(run, atLeader, i, n, t);
    var leaders, all := XorSum(n, c => Xor(At(atLeader, c, i), Total(run, t, c))), XorSum(n, j => XorSum(t, s => ShareError(run, j, s, n, t)));
    PrefixXor(leaders, all, leaders, ZeroBlock, maskSize);
    XorZero(leaders);
  }

  /** An element of every set is reported: if every transfer decodes it correctly on the first
      maskSize bytes, the leader's sum vanishes there, for any order of each set. */
  lemma CommonElementIsReported(run: Run, atLeader: Rows, i: nat, n: nat, t: nat, maskSize: nat)
    requires Valid(n, t) && maskSize <= BLOCK_SIZE
    requires forall c: nat :: c < n ==> Prefix(At(atLeader, c, i), maskSize) == Prefix(Total(run, t, c), maskSize)
    requires forall j: nat, s: nat :: j < n && s < t ==>
               Prefix(At(run.received(j), s, run.position(j)), maskSize)
               == Prefix(Sent(run, Source(j, s, n, t), SourceRow(s, n, t)), maskSize)
    ensures Prefix(ColumnSum(atLeader, n, i), maskSize) == Prefix(ZeroBlock, maskSize)
  {
    hide Xor, Prefix, XorSum, ColumnSum, Total;
    LeaderSeesErrors(run, atLeader, i, n, t);
    LeaderTransfersRight(run, atLeader, i, n, t, maskSize);
    ShareTransfersRight(run, n, t, maskSize);
    PrefixXor(XorSum(n, c => Xor(At(atLeader, c, i), Total(run, t, c))), XorSum(n, j => XorSum(t, s => ShareError(run, j, s, n, t))),
              ZeroBlock, ZeroBlock, maskSize);
    XorZero(ZeroBlock);
  }

  /** The receive table of client j after the transfers completed in some order. */
  function ReceivedTable(r: Received, j: nat, t: nat): Rows {
    seq(t, s requires 0 <= s < t => if (j, s) in r then r[(j, s)] else [])
  }

  /** Main result, end to end: n clients that deal any shares and complete their transfers in any
      order.  If each transfer delivers the payload of the element x on the first maskSize bytes to
      the index where the receiver keeps x, and the leader transfers do so too, x is reported. */
  lemma ProtocolReportsCommonElement(
    dealt: nat -> Rows, order: seq<Transfer>, decode: Transfer -> seq<Block>,
    position: nat -> nat, atLeader: Rows, i: nat, n: nat, t: nat, maskSize: nat)
    requires Valid(n, t) && maskSize <= BLOCK_SIZE
    requires AllTransfers(order, n, t) && forall a: nat, k: nat :: a < n && k < t ==> (a, k) in order
    requires forall a: nat, k: nat :: a < n && k < t ==>
               Delivers(decode((a, k)), position(Succ(a, k, n)), At(dealt(a), k, position(a)), maskSize)
    requires forall c: nat :: c < n ==>
               Prefix(At(atLeader, c, i), maskSize)
               == Prefix(Xor(ColumnSum(dealt(c), t, position(c)),
                             ColumnSum(ReceivedTable(DeliverAll(order, decode, n, t), c, t), t, position(c))), maskSize)
    ensures Prefix(ColumnSum(atLeader, n, i), maskSize) == Prefix(ZeroBlock, maskSize)
  {
    var final := DeliverAll(order, decode, n, t);
    var run := Run(dealt, c => ReceivedTable(final, c, t), position);
    forall j: nat, s: nat | j < n && s < t
      ensures Prefix(At(run.received(j), s, run.position(j)), maskSize)
              == Prefix(Sent(run, Source(j, s, n, t), SourceRow(s, n, t)), maskSize)
    {
      AnyOrder(order, decode, n, t, j, s);
      SourcesMatch(j, s, n, t);
      var a, k := Source(j, s, n, t), SourceRow(s, n, t);
      assert Delivers(decode((a, k)), position(Succ(a, k, n)), At(dealt(a), k, position(a)), maskSize);
    }
    CommonElementIsReported(run, atLeader, i, n, t, maskSize);
  }
}
