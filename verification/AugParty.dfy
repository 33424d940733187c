/** `aug_party` of frontend/OtBinMain.cpp: every pair of parties owns a pair of equally seeded
    generators, each party's share of an index is the XOR of one draw from each of its generators,
    and the leader adds what the others send. */
module AugParty {
  import opened Blocks
  import opened PayLoads

  // ----- the pairwise seeds -----

  /** The seed loops of the test driver; draws(k) is the k-th block its generator returns. */
  method MakeSeeds(n: nat, draws: nat -> Block) returns (mSeeds: array2<Block>, used: nat)
    ensures fresh(mSeeds) && mSeeds.Length0 == n && mSeeds.Length1 == n
    ensures forall i, j :: 0 <= i < n && 0 <= j < n ==> mSeeds[i, j] == mSeeds[j, i]
    ensures forall i, j :: 0 <= i <= j < n ==> mSeeds[i, j] == draws(SeedIndex(i, j, n))
    ensures used == SeedIndex(n, n, n)
  {
    mSeeds := new Block[n, n]((_, _) => ZeroBlock);
    used := 0;
    for i := 0 to n
      invariant used == SeedIndex(i, i, n)
      invariant forall a, b :: 0 <= a < i && a <= b < n ==> mSeeds[a, b] == draws(SeedIndex(a, b, n))
      invariant forall a, b :: 0 <= a < i && 0 <= b < i ==> mSeeds[a, b] == mSeeds[b, a]
    {
      used := FillRow(mSeeds, n, i, draws, used);
    }
  }

  /** The inner loop: draws from the diagonal on, copies before it. */
  method FillRow(mSeeds: array2<Block>, n: nat, i: nat, draws: nat -> Block, start: nat) returns (used: nat)
    requires i < n && mSeeds.Length0 == n && mSeeds.Length1 == n && start == SeedIndex(i, i, n)
    modifies mSeeds
    ensures used == SeedIndex(i + 1, i + 1, n)
    ensures forall a, b :: 0 <= a < n && 0 <= b < n && a != i ==> mSeeds[a, b] == old(mSeeds[a, b])
    ensures forall b :: i <= b < n ==> mSeeds[i, b] == draws(SeedIndex(i, b, n))
    ensures forall b :: 0 <= b < i ==> mSeeds[i, b] == mSeeds[b, i]
  {
    used := start;
    for j := 0 to n
      invariant used == start + if j <= i then 0 else j - i
      invariant forall a, b :: 0 <= a < n && 0 <= b < n && a != i ==> mSeeds[a, b] == old(mSeeds[a, b])
      invariant forall b :: i <= b < j ==> mSeeds[i, b] == draws(SeedIndex(i, b, n))
      invariant forall b :: 0 <= b < i && b < j ==> mSeeds[i, b] == mSeeds[b, i]
    {
      if i <= j {
        IndexInRow(i, j, n);
        mSeeds[i, j] := draws(used);
        used := used + 1;
      } else {
        mSeeds[i, j] := mSeeds[j, i];
      }
    }
    IndexInRow(i, n, n);
  }

  lemma IndexInRow(i: nat, j: nat, n: nat)
    requires i <= j <= n
    ensures SeedIndex(i, j, n) == SeedIndex(i, i, n) + (j - i)
    ensures i < n ==> SeedIndex(i + 1, i + 1, n) == SeedIndex(i, n, n)
  {}

  /** Place of the draw for the pair i <= j: rows of the upper triangle one after the other. */
  function SeedIndex(i: nat, j: nat, n: nat): nat
    requires i <= j <= n
    decreases i
  {
    if i == 0 then j else SeedIndex(i - 1, n, n) + (j - i)
  }

  /** The place in closed form; a matrix takes n * (n + 1) / 2 draws. */
  lemma SeedPlace(i: nat, j: nat, n: nat)
    requires i <= j <= n
    ensures 2 * SeedIndex(i, j, n) == i * (2 * n - i + 1) + 2 * (j - i)
    ensures 2 * SeedIndex(n, n, n) == n * (n + 1)
  {
    IndexInRow(i, j, n);
    RowPlace(i, n);
    RowPlace(n, n);
    assert n * (2 * n - n + 1) == n * (n + 1);
  }

  lemma RowTotals(i: nat, n: nat)
    requires 0 < i <= n
    ensures (i - 1) * (2 * n - (i - 1) + 1) + 2 * (n - (i - 1)) == i * (2 * n - i + 1)
  {}

  lemma {:induction false} RowPlace(i: nat, n: nat)
    requires i <= n
    ensures 2 * SeedIndex(i, i, n) == i * (2 * n - i + 1)
  {
    if i > 0 {
      RowPlace(i - 1, n);
      IndexInRow(i - 1, n, n);
      RowTotals(i, n);
    }
  }

  /** No two unordered pairs share a seed draw. */
  lemma {:induction false} SeedsAreSeparate(i: nat, j: nat, k: nat, l: nat, n: nat)
    requires i <= j < n && k <= l < n && i < k
    ensures SeedIndex(i, j, n) < SeedIndex(k, l, n)
    decreases k
  {
    if i < k - 1 { SeedsAreSeparate(i, j, k - 1, n - 1, n); }
  }

  // ----- the shares of zero -----

  /** The k-th block of the generator with a given seed. */
  type Generator = (Block, nat) -> Block

  /** One party: its row of seeds and how many blocks each of its generators has returned. */
  class Party {
    const me: nat
    const seeds: seq<Block>
    var drawn: seq<nat>
    var sendPayLoads: seq<Block>

    constructor (me: nat, seeds: seq<Block>)
      ensures this.me == me && this.seeds == seeds && drawn == seq(|seeds|, _ => 0)
    {
      this.me, this.seeds := me, seeds;
      drawn, sendPayLoads := seq(|seeds|, _ => 0), [];
    }

    /** One trial's loop over the set: draw from every generator but one's own. */
    method MakeShares(g: Generator, setSize: nat)
      requires |drawn| == |seeds|
      modifies this
      ensures |drawn| == |seeds| && |sendPayLoads| == setSize
      ensures drawn == Advance(old(drawn), me, setSize)
      ensures forall i: nat :: i < setSize ==> sendPayLoads[i] == Share(g, me, seeds, old(drawn), i)
    {
      sendPayLoads := [];
      for i := 0 to setSize
        invariant |drawn| == |seeds| && |sendPayLoads| == i
        invariant forall p :: 0 <= p < |seeds| ==> drawn[p] == old(drawn[p]) + if p == me then 0 else i
        invariant forall k: nat :: k < i ==> sendPayLoads[k] == Share(g, me, seeds, old(drawn), k)
      {
        var sum: Block := ZeroBlock;
        for pIdx := 0 to |seeds|
          invariant |drawn| == |seeds| && |sendPayLoads| == i
          invariant forall p :: 0 <= p < |seeds| ==> drawn[p] == old(drawn[p]) + if p == me then 0 else if p < pIdx then i + 1 else i
          invariant forall k: nat :: k < i ==> sendPayLoads[k] == Share(g, me, seeds, old(drawn), k)
          invariant sum == ShareUpTo(g, me, seeds, old(drawn), i, pIdx)
        {
          ShareStep(g, me, seeds, old(drawn), i, pIdx);
          if pIdx != me {
            sum := Xor(sum, g(seeds[pIdx], drawn[pIdx]));
            drawn := drawn[pIdx := drawn[pIdx] + 1];
          }
        }
        sendPayLoads := sendPayLoads + [sum];
      }
    }
  }

  function Draw(g: Generator, me: nat, seeds: seq<Block>, drawn: seq<nat>, i: nat, p: nat): Block {
    if p == me || p >= |seeds| || p >= |drawn| then ZeroBlock else g(seeds[p], drawn[p] + i)
  }

  function ShareUpTo(g: Generator, me: nat, seeds: seq<Block>, drawn: seq<nat>, i: nat, k: nat): Block {
    XorSum(k, p => Draw(g, me, seeds, drawn, i, p))
  }

  function Share(g: Generator, me: nat, seeds: seq<Block>, drawn: seq<nat>, i: nat): Block {
    ShareUpTo(g, me, seeds, drawn, i, |seeds|)
  }

  lemma ShareStep(g: Generator, me: nat, seeds: seq<Block>, drawn: seq<nat>, i: nat, k: nat)
    ensures ShareUpTo(g, me, seeds, drawn, i, k + 1) == Xor(ShareUpTo(g, me, seeds, drawn, i, k), Draw(g, me, seeds, drawn, i, k))
    ensures k == me ==> ShareUpTo(g, me, seeds, drawn, i, k + 1) == ShareUpTo(g, me, seeds, drawn, i, k)
  {
    SumExt(k, p => Draw(g, me, seeds, drawn, i, p), p => Draw(g, me, seeds, drawn, i, p));
    XorZero(ShareUpTo(g, me, seeds, drawn, i, k));
  }

  // ----- the shares of all parties -----

  /** A symmetric table with a zero diagonal sums to zero. */
  lemma {:induction false} SymmetricSum(n: nat, d: nat -> (nat -> Block), rows: nat -> Block)
    requires forall a: nat, b: nat :: a < n && b < n ==> d(a)(b) == d(b)(a)
    requires forall a: nat :: a < n ==> d(a)(a) == ZeroBlock
    requires forall a: nat :: a < n ==> rows(a) == XorSum(n, d(a))
    ensures XorSum(n, rows) == ZeroBlock
  {
    if n > 0 {
      var inner := (a: nat) => XorSum(n - 1, d(a));
      SymmetricSum(n - 1, d, inner);
      LastCancels(n - 1, inner, d(n - 1), rows);
    }
  }

  /** The last row of the table cancels its last column. */
  lemma LastCancels(m: nat, inner: nat -> Block, last: nat -> Block, rows: nat -> Block)
    requires XorSum(m, inner) == ZeroBlock
    requires forall a: nat :: a < m ==> rows(a) == Xor(inner(a), last(a))
    requires rows(m) == Xor(XorSum(m, last), ZeroBlock)
    ensures XorSum(m + 1, rows) == ZeroBlock
  {
    SumXor(m, inner, last, rows);
    XorZero(XorSum(m, last));
    hide Xor;
  }

  /** All parties' seeds and draw counters. */
  datatype System = System(n: nat, seeds: nat -> seq<Block>, drawn: nat -> seq<nat>)

  /** The seed matrix is symmetric and the two generators of each pair have returned equally many blocks. */
  ghost predicate Lockstep(s: System) {
    && (forall a: nat :: a < s.n ==> |s.seeds(a)| == s.n && |s.drawn(a)| == s.n)
    && (forall a: nat, b: nat :: a < s.n && b < s.n ==> s.seeds(a)[b] == s.seeds(b)[a] && s.drawn(a)[b] == s.drawn(b)[a])
  }

  /** The counters after every party has made its shares for a set of the given size. */
  function AfterTrial(s: System, setSize: nat): System {
    s.(drawn := (a: nat) => Advance(s.drawn(a), a, setSize))
  }

  function Advance(drawn: seq<nat>, me: nat, setSize: nat): seq<nat> {
    seq(|drawn|, p requires 0 <= p < |drawn| => if p == me then drawn[p] else drawn[p] + setSize)
  }

  lemma LockstepIsKept(s: System, setSize: nat)
    requires Lockstep(s)
    ensures Lockstep(AfterTrial(s, setSize))
  {}

  function SystemShare(g: Generator, s: System, a: nat, i: nat): Block {
    Share(g, a, s.seeds(a), s.drawn(a), i)
  }

  /** In every trial the parties' shares of an index XOR to zero. */
  lemma SharesOfZero(g: Generator, s: System, i: nat)
    requires Lockstep(s)
    ensures XorSum(s.n, a => SystemShare(g, s, a, i)) == ZeroBlock
  {
    var d := (a: nat) => ((b: nat) => Draw(g, a, s.seeds(a), s.drawn(a), i, b));
    var rows := (a: nat) => SystemShare(g, s, a, i);
    forall a: nat | a < s.n ensures rows(a) == XorSum(s.n, d(a)) {
      SumExt(s.n, d(a), p => Draw(g, a, s.seeds(a), s.drawn(a), i, p));
    }
    SymmetricSum(s.n, d, rows);
    SumExt(s.n, rows, a => SystemShare(g, s, a, i));
  }

  // ----- the leader's test -----

  /** What the leader computes: its own share and the rows received from the others. */
  function LeaderSum(own: Block, recvPayLoads: Rows, n: nat, leader: nat, i: nat): Block {
    Xor(own, OthersSum(recvPayLoads, n, leader, leader, i))
  }

  method Intersect(sendPayLoads: seq<Block>, recvPayLoads: Rows, n: nat, leader: nat, maskSize: nat) returns (mIntersection: seq<nat>)
    requires |recvPayLoads| == n && leader < n && maskSize <= BLOCK_SIZE
    requires forall p :: 0 <= p < n && p != leader ==> |recvPayLoads[p]| == |sendPayLoads|
    ensures forall i: nat :: i in mIntersection <==>
              i < |sendPayLoads| && Prefix(LeaderSum(sendPayLoads[i], recvPayLoads, n, leader, i), maskSize) == Prefix(ZeroBlock, maskSize)
  {
    mIntersection := [];
    for i := 0 to |sendPayLoads|
      invariant forall j: nat :: j in mIntersection <==>
                  j < i && Prefix(LeaderSum(sendPayLoads[j], recvPayLoads, n, leader, j), maskSize) == Prefix(ZeroBlock, maskSize)
    {
      var sum := sendPayLoads[i];
      XorZero(sum);
      for pIdx := 0 to n
        invariant sum == Xor(sendPayLoads[i], OthersSum(recvPayLoads, pIdx, leader, leader, i))
      {
        OthersSumStep(recvPayLoads, pIdx, leader, leader, i);
        if pIdx != leader {
          XorAssoc(sendPayLoads[i], OthersSum(recvPayLoads, pIdx, leader, leader, i), recvPayLoads[pIdx][i]);
          sum := Xor(sum, recvPayLoads[pIdx][i]);
        }
      }
      if Prefix(sum, maskSize) == Prefix(ZeroBlock, maskSize) {
        mIntersection := mIntersection + [i];
      }
    }
  }

  /** Correct transfers: the leader's row from p holds, at its own index i of the element, the share
      that p made for its index of the element. */
  ghost predicate Received(share: nat -> Block, recvPayLoads: Rows, n: nat, leader: nat, i: nat, maskSize: nat)
    requires maskSize <= BLOCK_SIZE
  {
    forall p: nat :: p < n && p != leader ==> Prefix(At(recvPayLoads, p, i), maskSize) == Prefix(share(p), maskSize)
  }

  lemma LeaderSumIsShareSum(share: nat -> Block, recvPayLoads: Rows, n: nat, leader: nat, i: nat, maskSize: nat)
    requires leader < n && maskSize <= BLOCK_SIZE && Received(share, recvPayLoads, n, leader, i, maskSize)
    ensures Prefix(LeaderSum(share(leader), recvPayLoads, n, leader, i), maskSize) == Prefix(XorSum(n, share), maskSize)
  {
    var others := (p: nat) => if p == leader then ZeroBlock else share(p);
    var got := (k: nat) => if k == leader || k == leader then ZeroBlock else At(recvPayLoads, k, i);
    SumPrefix(n, maskSize, got, others);
    SumExt(n, got, k => if k == leader || k == leader then ZeroBlock else At(recvPayLoads, k, i));
    SumRemove(n, leader, share, others);
    PrefixXor(share(leader), XorSum(n, got), share(leader), XorSum(n, others), maskSize);
  }

  /** Main result: an element that every party keeps at the same index is always reported. */
  lemma AlignedElementIsReported(g: Generator, s: System, recvPayLoads: Rows, leader: nat, i: nat, maskSize: nat)
    requires Lockstep(s) && leader < s.n && maskSize <= BLOCK_SIZE
    requires Received(p => SystemShare(g, s, p, i), recvPayLoads, s.n, leader, i, maskSize)
    ensures Prefix(LeaderSum(SystemShare(g, s, leader, i), recvPayLoads, s.n, leader, i), maskSize) == Prefix(ZeroBlock, maskSize)
  {
    var share := (p: nat) => SystemShare(g, s, p, i);
    LeaderSumIsShareSum(share, recvPayLoads, s.n, leader, i, maskSize);
    SharesOfZero(g, s, i);
    SumExt(s.n, share, a => SystemShare(g, s, a, i));
  }

  // ----- alignment is needed -----

  /** The block that the generators of the pair {a, b} return for index k. */
  type PairDraw = (nat, nat, nat) -> Block

  ghost predicate Symmetric(d: PairDraw) {
    forall a, b, k :: d(a, b, k) == d(b, a, k)
  }

  /** Party a's share for the element it keeps at index position(a). */
  function ShareAt(d: PairDraw, n: nat, position: nat -> nat, a: nat): Block {
    XorSum(n, b => if b == a then ZeroBlock else d(a, b, position(a)))
  }

  /** The share of every party for an element that each keeps at its own index. */
  function SharesAt(d: PairDraw, n: nat, position: nat -> nat): nat -> Block {
    a => ShareAt(d, n, position, a)
  }

  /** Whatever the generators return and whatever the rows hold beyond the mask, correct transfers make
      the leader report the element at its own index. */
  ghost predicate AlwaysReported(n: nat, position: nat -> nat, leader: nat, maskSize: nat)
    requires maskSize <= BLOCK_SIZE
  {
    forall d: PairDraw, recvPayLoads: Rows ::
      Symmetric(d) && Received(SharesAt(d, n, position), recvPayLoads, n, leader, position(leader), maskSize) ==>
      PassesTest(ShareAt(d, n, position, leader), recvPayLoads, n, leader, position(leader), maskSize)
  }

  /** The leader's memcmp. */
  predicate PassesTest(own: Block, recvPayLoads: Rows, n: nat, leader: nat, i: nat, maskSize: nat)
    requires maskSize <= BLOCK_SIZE
  {
    Prefix(LeaderSum(own, recvPayLoads, n, leader, i), maskSize) == Prefix(ZeroBlock, maskSize)
  }

  /** A common element passes the leader's test for all generators exactly when all parties keep it at
      the same index; the code does not sort or match the sets. */
  lemma ReportedIffAligned(n: nat, position: nat -> nat, leader: nat, maskSize: nat)
    requires leader < n && 0 < maskSize <= BLOCK_SIZE
    ensures AlwaysReported(n, position, leader, maskSize)
       <==> forall a: nat, b: nat :: a < n && b < n ==> position(a) == position(b)
  {
    hide PassesTest, Received;
    if forall a: nat, b: nat :: a < n && b < n ==> position(a) == position(b) {
      forall d: PairDraw, recvPayLoads: Rows |
        Symmetric(d) && Received(SharesAt(d, n, position), recvPayLoads, n, leader, position(leader), maskSize)
        ensures PassesTest(ShareAt(d, n, position, leader), recvPayLoads, n, leader, position(leader), maskSize)
      {
        AlignedCancels(d, n, position);
        TestIsShareSum(d, n, position, recvPayLoads, leader, maskSize);
      }
    } else {
      var a: nat, b: nat :| a < n && b < n && position(a) != position(b);
      MisalignedCounterexample(n, position, a, b, leader, maskSize);
    }
  }

  lemma TestIsShareSum(d: PairDraw, n: nat, position: nat -> nat, recvPayLoads: Rows, leader: nat, maskSize: nat)
    requires leader < n && maskSize <= BLOCK_SIZE
    requires Received(SharesAt(d, n, position), recvPayLoads, n, leader, position(leader), maskSize)
    ensures PassesTest(ShareAt(d, n, position, leader), recvPayLoads, n, leader, position(leader), maskSize)
       <==> Prefix(XorSum(n, SharesAt(d, n, position)), maskSize) == Prefix(ZeroBlock, maskSize)
  {
    LeaderSumIsShareSum(SharesAt(d, n, position), recvPayLoads, n, leader, position(leader), maskSize);
  }

  lemma AlignedCancels(d: PairDraw, n: nat, position: nat -> nat)
    requires Symmetric(d) && forall a: nat, b: nat :: a < n && b < n ==> position(a) == position(b)
    ensures XorSum(n, SharesAt(d, n, position)) == ZeroBlock
  {
    var table := (a: nat) => ((b: nat) => if b == a then ZeroBlock else d(a, b, position(a)));
    var rows := (a: nat) => ShareAt(d, n, position, a);
    forall a: nat | a < n ensures rows(a) == XorSum(n, table(a)) {
      SumExt(n, table(a), b => if b == a then ZeroBlock else d(a, b, position(a)));
    }
    SymmetricSum(n, table, rows);
    SumExt(n, rows, SharesAt(d, n, position));
  }

  const OneBlock: Block := [1, 0, 0, 0, 0, 0, 0, 0, 0, 0, 0, 0, 0, 0, 0, 0]

  /** The draws of a pair that keeps the element at different indices, telling the indices apart. */
  function TellApart(a: nat, b: nat, where: nat): PairDraw {
    (x: nat, y: nat, k: nat) => if k == where && ((x == a && y == b) || (x == b && y == a)) then OneBlock else ZeroBlock
  }

  lemma MisalignedSum(n: nat, position: nat -> nat, a: nat, b: nat)
    requires a < n && b < n && position(a) != position(b)
    ensures Symmetric(TellApart(a, b, position(a)))
    ensures XorSum(n, SharesAt(TellApart(a, b, position(a)), n, position)) == OneBlock
  {
    var d := TellApart(a, b, position(a));
    var rows := SharesAt(d, n, position);
    var zero := (x: nat) => ZeroBlock;
    forall x: nat | x < n ensures rows(x) == if x == a then OneBlock else ZeroBlock {
      var row := (y: nat) => if y == x then ZeroBlock else d(x, y, position(x));
      SumExt(n, row, y => if y == x then ZeroBlock else d(x, y, position(x)));
      SumZero(n, zero);
      if x == a {
        SumRemove(n, b, row, zero);
        XorZero(OneBlock);
      } else {
        SumExt(n, row, zero);
      }
    }
    SumRemove(n, a, rows, zero);
    SumZero(n, zero);
    XorZero(OneBlock);
  }

  /** With these draws and perfect transfers the leader's test fails on a mask of any size. */
  lemma MisalignedCounterexample(n: nat, position: nat -> nat, a: nat, b: nat, leader: nat, maskSize: nat)
    requires a < n && b < n && position(a) != position(b) && leader < n && 0 < maskSize <= BLOCK_SIZE
    ensures !AlwaysReported(n, position, leader, maskSize)
  {
    var d := TellApart(a, b, position(a));
    MisalignedSum(n, position, a, b);
    hide TellApart, ShareAt, XorSum, Xor, LeaderSum;
    var recvPayLoads := seq(n, p requires 0 <= p < n => seq(position(leader) + 1, _ => SharesAt(d, n, position)(p)));
    assert Received(SharesAt(d, n, position), recvPayLoads, n, leader, position(leader), maskSize);
    TestIsShareSum(d, n, position, recvPayLoads, leader, maskSize);
    assert Prefix(OneBlock, maskSize)[0] != Prefix(ZeroBlock, maskSize)[0];
  }
}
