/** The test driver, the parties and the leader of `aug_party` in frontend/OtBinMain.cpp together: the
    generators of the seed matrix in place of free draws. */
module AugProtocol {
  import opened Blocks
  import opened PayLoads
  import opened AugParty

  // ----- the seed matrix -----

  function PairIndex(a: nat, b: nat, n: nat): nat
    requires a < n && b < n
  {
    if a <= b then SeedIndex(a, b, n) else SeedIndex(b, a, n)
  }

  function SeedOf(draws: nat -> Block, a: nat, b: nat, n: nat): Block
    requires a < n && b < n
  {
    draws(PairIndex(a, b, n))
  }

  function SeedRow(n: nat, draws: nat -> Block, a: nat): (row: seq<Block>)
    requires a < n
    ensures |row| == n && forall b :: 0 <= b < n ==> row[b] == SeedOf(draws, a, b, n)
  {
    seq(n, b requires 0 <= b < n => SeedOf(draws, a, b, n))
  }

  /** All parties with the seeds of the test driver, before the first trial. */
  function Seeded(n: nat, draws: nat -> Block): System {
    System(n, (a: nat) => if a < n then SeedRow(n, draws, a) else [], (a: nat) => seq(n, _ => 0))
  }

  lemma SeededIsLockstep(n: nat, draws: nat -> Block)
    ensures Lockstep(Seeded(n, draws))
  {}

  /** Different pairs of parties have different seeds. */
  ghost predicate SeedsDiffer(s: System) {
    forall a: nat, b: nat, c: nat, d: nat :: a < s.n && b < s.n && c < s.n && d < s.n ==> SeedsDifferAt(s, a, b, c, d)
  }

  ghost predicate SeedsDifferAt(s: System, a: nat, b: nat, c: nat, d: nat)
    requires a < s.n && b < s.n && c < s.n && d < s.n
  {
    (|s.seeds(a)| == |s.seeds(c)| == s.n && s.seeds(a)[b] == s.seeds(c)[d]) ==> (a == c && b == d) || (a == d && b == c)
  }

  /** The driver's generator does not repeat a block among those drawn for the seeds. */
  ghost predicate NoRepeat(n: nat, draws: nat -> Block) {
    forall i: nat, j: nat :: i < SeedIndex(n, n, n) && j < SeedIndex(n, n, n) && draws(i) == draws(j) ==> i == j
  }

  lemma PairSeedsDiffer(n: nat, draws: nat -> Block, a: nat, b: nat, c: nat, d: nat)
    requires NoRepeat(n, draws) && a < n && b < n && c < n && d < n && SeedOf(draws, a, b, n) == SeedOf(draws, c, d, n)
    ensures (a == c && b == d) || (a == d && b == c)
  {
    var i, j := if a <= b then a else b, if a <= b then b else a;
    var k, l := if c <= d then c else d, if c <= d then d else c;
    hide SeedIndex;
    IndexInside(i, j, n);
    IndexInside(k, l, n);
    assert SeedIndex(i, j, n) == SeedIndex(k, l, n);
    hide NoRepeat;
    PairIndexDiffers(i, j, k, l, n);
  }

  /** Then the seeds differ. */
  lemma SeededDiffer(n: nat, draws: nat -> Block)
    requires NoRepeat(n, draws)
    ensures SeedsDiffer(Seeded(n, draws))
  {
    hide SeedOf, NoRepeat;
    forall a: nat, b: nat, c: nat, d: nat | a < n && b < n && c < n && d < n ensures SeedsDifferAt(Seeded(n, draws), a, b, c, d) {
      if SeedOf(draws, a, b, n) == SeedOf(draws, c, d, n) {
        PairSeedsDiffer(n, draws, a, b, c, d);
      }
    }
  }

  lemma IndexInside(i: nat, j: nat, n: nat)
    requires i <= j < n
    ensures SeedIndex(i, j, n) < SeedIndex(n, n, n)
  {
    if i < n - 1 {
      SeedsAreSeparate(i, j, n - 1, n - 1, n);
    }
  }

  lemma PairIndexDiffers(i: nat, j: nat, k: nat, l: nat, n: nat)
    requires i <= j < n && k <= l < n
    ensures SeedIndex(i, j, n) == SeedIndex(k, l, n) ==> i == k && j == l
  {
    if i < k {
      SeedsAreSeparate(i, j, k, l, n);
    } else if k < i {
      SeedsAreSeparate(k, l, i, j, n);
    }
  }

  /** What the generators of the pair {a, b} return for index k. */
  function PairBlock(g: Generator, s: System, a: nat, b: nat, k: nat): Block {
    if a < s.n && b < s.n && b < |s.seeds(a)| && b < |s.drawn(a)| then g(s.seeds(a)[b], s.drawn(a)[b] + k) else ZeroBlock
  }

  function PairDraws(g: Generator, s: System): PairDraw {
    (a: nat, b: nat, k: nat) => PairBlock(g, s, a, b, k)
  }

  /** Every party's share for an element that each keeps at its own index. */
  function SystemShares(g: Generator, s: System, position: nat -> nat): nat -> Block {
    a => SystemShare(g, s, a, position(a))
  }

  lemma DrawIsPairBlock(g: Generator, s: System, position: nat -> nat, a: nat, b: nat)
    requires Lockstep(s) && a < s.n && b < s.n
    ensures Draw(g, a, s.seeds(a), s.drawn(a), position(a), b)
         == if b == a then ZeroBlock else PairDraws(g, s)(a, b, position(a))
  {}

  lemma SharesArePairDraws(g: Generator, s: System, position: nat -> nat, a: nat)
    requires Lockstep(s) && a < s.n
    ensures SystemShares(g, s, position)(a) == SharesAt(PairDraws(g, s), s.n, position)(a)
  {
    var d := PairDraws(g, s);
    var mine := (p: nat) => Draw(g, a, s.seeds(a), s.drawn(a), position(a), p);
    var ours := (b: nat) => if b == a then ZeroBlock else d(a, b, position(a));
    forall b: nat | b < s.n ensures mine(b) == ours(b) {
      DrawIsPairBlock(g, s, position, a, b);
    }
    hide Draw, PairDraws, Lockstep, PairBlock;
    SumExt(s.n, mine, p => Draw(g, a, s.seeds(a), s.drawn(a), position(a), p));
    SumExt(s.n, mine, ours);
    SumExt(s.n, ours, b => if b == a then ZeroBlock else d(a, b, position(a)));
    hide XorSum;
    ShareIsSum(g, a, s.seeds(a), s.drawn(a), position(a), s.n);
  }

  lemma ShareIsSum(g: Generator, me: nat, seeds: seq<Block>, drawn: seq<nat>, i: nat, n: nat)
    requires n == |seeds|
    ensures Share(g, me, seeds, drawn, i) == XorSum(n, p => Draw(g, me, seeds, drawn, i, p))
  {}

  lemma PairDrawsSymmetric(g: Generator, s: System)
    requires Lockstep(s)
    ensures Symmetric(PairDraws(g, s))
  {}

  /** For all generators, correct transfers make the leader report the element at its own index. */
  ghost predicate GeneratorsReport(s: System, position: nat -> nat, leader: nat, maskSize: nat)
    requires maskSize <= BLOCK_SIZE
  {
    forall g: Generator, recvPayLoads: Rows ::
      Received(SystemShares(g, s, position), recvPayLoads, s.n, leader, position(leader), maskSize) ==>
      PassesTest(SystemShare(g, s, leader, position(leader)), recvPayLoads, s.n, leader, position(leader), maskSize)
  }

  lemma TestIsSystemSum(g: Generator, s: System, position: nat -> nat, recvPayLoads: Rows, leader: nat, maskSize: nat)
    requires Lockstep(s) && leader < s.n && maskSize <= BLOCK_SIZE
    requires Received(SystemShares(g, s, position), recvPayLoads, s.n, leader, position(leader), maskSize)
    ensures PassesTest(SystemShare(g, s, leader, position(leader)), recvPayLoads, s.n, leader, position(leader), maskSize)
       <==> Prefix(XorSum(s.n, SharesAt(PairDraws(g, s), s.n, position)), maskSize) == Prefix(ZeroBlock, maskSize)
  {
    LeaderSumIsShareSum(SystemShares(g, s, position), recvPayLoads, s.n, leader, position(leader), maskSize);
    forall a: nat | a < s.n ensures SystemShares(g, s, position)(a) == SharesAt(PairDraws(g, s), s.n, position)(a) {
      SharesArePairDraws(g, s, position, a);
    }
    SumExt(s.n, SystemShares(g, s, position), SharesAt(PairDraws(g, s), s.n, position));
  }

  /** Main result for the protocol as seeded: the element is reported for all generators if and only if
      all parties keep it at the same index. */
  lemma GeneratorsReportIffAligned(s: System, position: nat -> nat, leader: nat, maskSize: nat)
    requires Lockstep(s) && SeedsDiffer(s) && leader < s.n && 0 < maskSize <= BLOCK_SIZE
    ensures GeneratorsReport(s, position, leader, maskSize)
       <==> forall a: nat, b: nat :: a < s.n && b < s.n ==> position(a) == position(b)
  {
    hide PassesTest, Received, XorSum, Xor, SystemShare, ShareAt, Lockstep, SeedsDiffer;
    if forall a: nat, b: nat :: a < s.n && b < s.n ==> position(a) == position(b) {
      forall g: Generator, recvPayLoads: Rows |
        Received(SystemShares(g, s, position), recvPayLoads, s.n, leader, position(leader), maskSize)
        ensures PassesTest(SystemShare(g, s, leader, position(leader)), recvPayLoads, s.n, leader, position(leader), maskSize)
      {
        PairDrawsSymmetric(g, s);
        AlignedCancels(PairDraws(g, s), s.n, position);
        TestIsSystemSum(g, s, position, recvPayLoads, leader, maskSize);
      }
    } else {
      var a: nat, b: nat :| a < s.n && b < s.n && position(a) != position(b);
      GeneratorsTellApart(s, position, a, b, leader, maskSize);
    }
  }

  /** Generators that return a non-zero block in one place only. */
  function OnePlace(seed: Block, place: nat): Generator {
    (x: Block, m: nat) => if x == seed && m == place then OneBlock else ZeroBlock
  }

  lemma OnePlaceTellsApart(s: System, position: nat -> nat, a: nat, b: nat, x: nat)
    requires Lockstep(s) && SeedsDiffer(s) && a < s.n && b < s.n && a != b && x < s.n
    ensures SharesAt(PairDraws(OnePlace(s.seeds(a)[b], s.drawn(a)[b] + position(a)), s), s.n, position)(x)
         == SharesAt(TellApart(a, b, position(a)), s.n, position)(x)
  {
    var d, e := PairDraws(OnePlace(s.seeds(a)[b], s.drawn(a)[b] + position(a)), s), TellApart(a, b, position(a));
    forall y: nat | y < s.n && y != x ensures d(x, y, position(x)) == e(x, y, position(x)) {
      assert SeedsDifferAt(s, x, y, a, b);
    }
    SumExt(s.n, y => if y == x then ZeroBlock else d(x, y, position(x)), y => if y == x then ZeroBlock else e(x, y, position(x)));
  }

  lemma OnePlaceSum(s: System, position: nat -> nat, a: nat, b: nat)
    requires Lockstep(s) && SeedsDiffer(s) && a < s.n && b < s.n && position(a) != position(b)
    ensures XorSum(s.n, SharesAt(PairDraws(OnePlace(s.seeds(a)[b], s.drawn(a)[b] + position(a)), s), s.n, position)) == OneBlock
  {
    var g := OnePlace(s.seeds(a)[b], s.drawn(a)[b] + position(a));
    var f, e := SharesAt(PairDraws(g, s), s.n, position), SharesAt(TellApart(a, b, position(a)), s.n, position);
    forall x: nat | x < s.n ensures f(x) == e(x) {
      OnePlaceTellsApart(s, position, a, b, x);
    }
    MisalignedSum(s.n, position, a, b);
    hide *;
    SumExt(s.n, f, e);
  }

  lemma PerfectTransfers(share: nat -> Block, n: nat, leader: nat, i: nat, maskSize: nat) returns (recvPayLoads: Rows)
    requires maskSize <= BLOCK_SIZE
    ensures Received(share, recvPayLoads, n, leader, i, maskSize)
  {
    recvPayLoads := seq(n, p requires 0 <= p < n => seq(i + 1, _ => share(p)));
  }

  lemma OneIsNotZero(maskSize: nat)
    requires 0 < maskSize <= BLOCK_SIZE
    ensures Prefix(OneBlock, maskSize) != Prefix(ZeroBlock, maskSize)
  {
    assert Prefix(OneBlock, maskSize)[0] != Prefix(ZeroBlock, maskSize)[0];
  }

  lemma GeneratorsTellApart(s: System, position: nat -> nat, a: nat, b: nat, leader: nat, maskSize: nat)
    requires Lockstep(s) && SeedsDiffer(s) && leader < s.n && 0 < maskSize <= BLOCK_SIZE
    requires a < s.n && b < s.n && position(a) != position(b)
    ensures !GeneratorsReport(s, position, leader, maskSize)
  {
    var g := OnePlace(s.seeds(a)[b], s.drawn(a)[b] + position(a));
    OnePlaceSum(s, position, a, b);
    OneIsNotZero(maskSize);
    hide Received, PassesTest, Prefix, XorSum, SystemShare, SystemShares, SharesAt, PairDraws, Lockstep, SeedsDiffer, OnePlace;
    var recvPayLoads := PerfectTransfers(SystemShares(g, s, position), s.n, leader, position(leader), maskSize);
    TestIsSystemSum(g, s, position, recvPayLoads, leader, maskSize);
  }

  /** And so for the seeds of the driver: the index decides, not the generators. */
  lemma SeededReportIffAligned(n: nat, draws: nat -> Block, position: nat -> nat, leader: nat, maskSize: nat)
    requires NoRepeat(n, draws) && leader < n && 0 < maskSize <= BLOCK_SIZE
    ensures GeneratorsReport(Seeded(n, draws), position, leader, maskSize)
       <==> forall a: nat, b: nat :: a < n && b < n ==> position(a) == position(b)
  {
    SeededIsLockstep(n, draws);
    SeededDiffer(n, draws);
    hide Lockstep, SeedsDiffer, GeneratorsReport;
    GeneratorsReportIffAligned(Seeded(n, draws), position, leader, maskSize);
  }

  // ----- one trial -----

  /** What the leader decodes from party p's row. */
  type Decoder = (nat, seq<Block>) -> seq<Block>

  function SharesRow(g: Generator, s: System, p: nat, setSize: nat): (row: seq<Block>)
    ensures |row| == setSize && forall i :: 0 <= i < setSize ==> row[i] == SystemShare(g, s, p, i)
  {
    seq(setSize, i requires 0 <= i < setSize => SystemShare(g, s, p, i))
  }

  /** The leader's receive table. */
  function RowsReceived(g: Generator, s: System, decode: Decoder, setSize: nat): (r: Rows)
    ensures |r| == s.n && forall p :: 0 <= p < s.n ==> r[p] == decode(p, SharesRow(g, s, p, setSize))
  {
    seq(s.n, p requires 0 <= p < s.n => decode(p, SharesRow(g, s, p, setSize)))
  }

  /** One party of the trial. */
  method PartyRow(n: nat, draws: nat -> Block, mSeeds: array2<Block>, g: Generator, setSize: nat, p: nat) returns (row: seq<Block>)
    requires p < n && IsMatrix(mSeeds, n, draws)
    ensures row == SharesRow(g, Seeded(n, draws), p, setSize)
  {
    hide Share, SeedOf;
    var seeds: seq<Block> := [];
    for b := 0 to n
      invariant |seeds| == b && forall k :: 0 <= k < b ==> seeds[k] == SeedOf(draws, p, k, n)
    {
      seeds := seeds + [mSeeds[p, b]];
    }
    assert seeds == SeedRow(n, draws, p);
    var party := new Party(p, seeds);
    party.MakeShares(g, setSize);
    row := party.sendPayLoads;
    assert row == SharesRow(g, Seeded(n, draws), p, setSize);
  }

  /** The whole seed matrix. */
  ghost predicate IsMatrix(mSeeds: array2<Block>, n: nat, draws: nat -> Block)
    reads mSeeds
  {
    && mSeeds.Length0 == n && mSeeds.Length1 == n
    && forall a, b :: 0 <= a < n && 0 <= b < n ==> mSeeds[a, b] == SeedOf(draws, a, b, n)
  }

  lemma MatrixIsSeeds(n: nat, draws: nat -> Block, mSeeds: array2<Block>)
    requires mSeeds.Length0 == n && mSeeds.Length1 == n
    requires forall i, j :: 0 <= i < n && 0 <= j < n ==> mSeeds[i, j] == mSeeds[j, i]
    requires forall i, j :: 0 <= i <= j < n ==> mSeeds[i, j] == draws(SeedIndex(i, j, n))
    ensures IsMatrix(mSeeds, n, draws)
  {
    hide SeedIndex;
  }

  /** A whole first trial: the seeds of the driver, every party's shares, their transfer to the leader and
      its test.  An element that all parties keep at index i and that all transfers decode is reported. */
  method Trial(n: nat, draws: nat -> Block, g: Generator, setSize: nat, leader: nat, decode: Decoder, maskSize: nat)
    returns (mIntersection: seq<nat>)
    requires leader < n && maskSize <= BLOCK_SIZE && forall p: nat, row :: |row| == setSize ==> |decode(p, row)| == setSize
    ensures TrialReports(n, draws, g, setSize, leader, decode, maskSize, mIntersection)
    ensures forall i: nat :: i < setSize && Decoded(n, draws, g, setSize, leader, decode, i, maskSize) ==> i in mIntersection
  {
    hide PassesTest, Received, SystemShare, OthersSum, SeedOf;
    ghost var s := Seeded(n, draws);
    var mSeeds, used := MakeSeeds(n, draws);
    var recvPayLoads: Rows, own: seq<Block> := [], [];
    MatrixIsSeeds(n, draws, mSeeds);
    for p := 0 to n
      invariant IsMatrix(mSeeds, n, draws)
      invariant |recvPayLoads| == p && forall q :: 0 <= q < p ==> recvPayLoads[q] == decode(q, SharesRow(g, s, q, setSize))
      invariant p > leader ==> own == SharesRow(g, s, leader, setSize)
    {
      var row := PartyRow(n, draws, mSeeds, g, setSize, p);
      recvPayLoads := recvPayLoads + [decode(p, row)];
      if p == leader {
        own := row;
      }
    }
    assert recvPayLoads == RowsReceived(g, s, decode, setSize);
    mIntersection := Intersect(own, recvPayLoads, n, leader, maskSize);
    TestsAgree(own, recvPayLoads, n, leader, maskSize, mIntersection);
    forall i: nat | i < setSize && Decoded(n, draws, g, setSize, leader, decode, i, maskSize)
      ensures PassesTest(own[i], recvPayLoads, n, leader, i, maskSize)
    {
      SeededIsLockstep(n, draws);
      AlignedPasses(g, s, recvPayLoads, leader, i, maskSize);
    }
  }

  /** Exactly the indices that pass the leader's test on the rows received. */
  ghost predicate TrialReports(n: nat, draws: nat -> Block, g: Generator, setSize: nat, leader: nat, decode: Decoder,
                               maskSize: nat, mIntersection: seq<nat>)
    requires maskSize <= BLOCK_SIZE
  {
    var s := Seeded(n, draws);
    forall i: nat :: i in mIntersection <==>
      i < setSize && PassesTest(SystemShare(g, s, leader, i), RowsReceived(g, s, decode, setSize), n, leader, i, maskSize)
  }

  /** All transfers decode the element at index i. */
  ghost predicate Decoded(n: nat, draws: nat -> Block, g: Generator, setSize: nat, leader: nat, decode: Decoder, i: nat, maskSize: nat)
    requires maskSize <= BLOCK_SIZE
  {
    var s := Seeded(n, draws);
    Received(SystemShares(g, s, _ => i), RowsReceived(g, s, decode, setSize), n, leader, i, maskSize)
  }

  lemma TestsAgree(own: seq<Block>, recvPayLoads: Rows, n: nat, leader: nat, maskSize: nat, mIntersection: seq<nat>)
    requires maskSize <= BLOCK_SIZE
    requires forall i: nat :: i in mIntersection <==>
               i < |own| && Prefix(LeaderSum(own[i], recvPayLoads, n, leader, i), maskSize) == Prefix(ZeroBlock, maskSize)
    ensures forall i: nat :: i in mIntersection <==> i < |own| && PassesTest(own[i], recvPayLoads, n, leader, i, maskSize)
  {
    hide LeaderSum;
  }

  lemma AlignedPasses(g: Generator, s: System, recvPayLoads: Rows, leader: nat, i: nat, maskSize: nat)
    requires Lockstep(s) && leader < s.n && maskSize <= BLOCK_SIZE
    requires Received(SystemShares(g, s, _ => i), recvPayLoads, s.n, leader, i, maskSize)
    ensures PassesTest(SystemShare(g, s, leader, i), recvPayLoads, s.n, leader, i, maskSize)
  {
    hide SystemShare, LeaderSum;
    assert Received(p => SystemShare(g, s, p, i), recvPayLoads, s.n, leader, i, maskSize);
    AlignedElementIsReported(g, s, recvPayLoads, leader, i, maskSize);
  }
}
