/** How the bins are shared among the threads and cut into buffers: the loops of sendSSTableBased and
    recvSSTableBased, which the polynomial variants repeat. */
module Partition {

  const STEP_SIZE: nat := 16

  /** The counts of the two types of bins; those of the second type come after those of the first. */
  datatype Counts = Counts(main: nat, stash: nat)

  function Div(n: nat, d: nat): nat
    requires 0 < d
  {
    n / d
  }

  /** tIdx * binCount / thrds.size() */
  function Start(t: nat, count: nat, threads: nat): nat
    requires 0 < threads
  {
    Div(t * count, threads)
  }

  function Range(lo: nat, hi: nat): (r: seq<nat>)
    ensures |r| == if lo <= hi then hi - lo else 0
    ensures forall i :: 0 <= i < |r| ==> r[i] == lo + i
  {
    if lo <= hi then seq(hi - lo, i requires 0 <= i => lo + i) else []
  }

  /** The row counts of the buffers for a range of bins. */
  function Batches(lo: nat, hi: nat): seq<nat>
    decreases hi - lo
  {
    if lo >= hi then []
    else if hi - lo <= STEP_SIZE then [hi - lo]
    else [STEP_SIZE] + Batches(lo + STEP_SIZE, hi)
  }

  function Bins(t: nat, threads: nat, c: Counts): seq<nat>
    requires 0 < threads
  {
    Range(Start(t, c.main, threads), Start(t + 1, c.main, threads))
    + Range(Start(t, c.stash, threads) + c.main, Start(t + 1, c.stash, threads) + c.main)
  }

  function Buffers(t: nat, threads: nat, c: Counts): seq<nat>
    requires 0 < threads
  {
    Batches(Start(t, c.main, threads), Start(t + 1, c.main, threads))
    + Batches(Start(t, c.stash, threads) + c.main, Start(t + 1, c.stash, threads) + c.main)
  }

  lemma RangeExtends(lo: nat, mid: nat, hi: nat)
    requires lo <= mid <= hi
    ensures Range(lo, mid) + Range(mid, hi) == Range(lo, hi)
  {}

  lemma StartGrows(t: nat, count: nat, threads: nat)
    requires 0 < threads
    ensures Start(t, count, threads) <= Start(t + 1, count, threads)
  {
    assert (t + 1) * count == t * count + count;
    DivGrows(t * count, (t + 1) * count, threads);
  }

  lemma MulOrder(p: nat, q: nat, d: nat)
    requires p * d < (q + 1) * d
    ensures p <= q
  {
    assert (p - q - 1) * d == p * d - (q + 1) * d;
  }

  lemma DivBounds(n: nat, d: nat)
    requires 0 < d
    ensures Div(n, d) * d <= n < (Div(n, d) + 1) * d
  {
    assert (n / d + 1) * d == n / d * d + d;
  }

  lemma DivGrows(a: nat, b: nat, d: nat)
    requires 0 < d && a <= b
    ensures Div(a, d) <= Div(b, d)
  {
    var p, q := Div(a, d), Div(b, d);
    hide Div;
    DivBounds(a, d);
    DivBounds(b, d);
    MulOrder(p, q, d);
  }

  /** No thread has more than one bin of a type more than another: each has the rounded quotient or one more. */
  lemma SharesAreEven(t: nat, count: nat, threads: nat)
    requires 0 < threads
    ensures var bins := Start(t + 1, count, threads) - Start(t, count, threads);
            bins == count / threads || bins == count / threads + 1
  {
    var a, b, q := Start(t, count, threads), Start(t + 1, count, threads), Div(count, threads);
    DivBounds(t * count, threads);
    DivBounds((t + 1) * count, threads);
    DivBounds(count, threads);
    hide Div;
    assert (t + 1) * count == t * count + count;
    assert (a + q) * threads == a * threads + q * threads && (b + 1) * threads == b * threads + threads;
    MulOrder(a + q, b, threads);
    assert (a + q + 2) * threads == a * threads + threads + (q * threads + threads) && (a + 1) * threads == a * threads + threads
        && (q + 1) * threads == q * threads + threads;
    LessByProduct(b, a + q + 2, threads);
  }

  lemma LessByProduct(p: nat, q: nat, d: nat)
    requires p * d < q * d
    ensures p < q
  {
    assert (p - q) * d == p * d - q * d;
  }

  /** All buffers of a range have sixteen rows but the last, which has what is left. */
  lemma {:induction false} FullBuffers(lo: nat, hi: nat)
    requires lo < hi
    ensures Batches(lo, hi) != []
    ensures forall i :: 0 <= i < |Batches(lo, hi)| - 1 ==> Batches(lo, hi)[i] == 16
    ensures 1 <= Batches(lo, hi)[|Batches(lo, hi)| - 1] <= 16
    decreases hi - lo
  {
    if hi - lo > STEP_SIZE {
      FullBuffers(lo + STEP_SIZE, hi);
    }
  }

  // ----- one thread -----

  /** One range at the sender: the bins in the order their rows are written, and the buffers sent. */
  method SendRange(binStart: nat, binEnd: nat) returns (bins: seq<nat>, buffers: seq<nat>)
    requires binStart <= binEnd
    ensures bins == Range(binStart, binEnd) && buffers == Batches(binStart, binEnd)
  {
    bins, buffers := [], [];
    var bIdx := binStart;
    while bIdx < binEnd
      invariant binStart <= bIdx <= binEnd && bins == Range(binStart, bIdx)
      invariant buffers + Batches(bIdx, binEnd) == Batches(binStart, binEnd)
    {
      var currentStepSize := if STEP_SIZE < binEnd - bIdx then STEP_SIZE else binEnd - bIdx;
      ghost var first := bIdx;
      for stepIdx := 0 to currentStepSize
        invariant bIdx == first + stepIdx && bins == Range(binStart, bIdx)
      {
        bins := bins + [bIdx];
        bIdx := bIdx + 1;
      }
      ghost var was := buffers;
      buffers := buffers + [currentStepSize];
      assert was + ([currentStepSize] + Batches(bIdx, binEnd)) == buffers + Batches(bIdx, binEnd);
    }
  }

  method Send(t: nat, threads: nat, c: Counts) returns (bins: seq<nat>, buffers: seq<nat>)
    requires t < threads
    ensures bins == Bins(t, threads, c) && buffers == Buffers(t, threads, c)
  {
    StartGrows(t, c.main, threads);
    StartGrows(t, c.stash, threads);
    bins, buffers := SendRange(Start(t, c.main, threads), Start(t + 1, c.main, threads));
    var stashBins, stashBuffers := SendRange(Start(t, c.stash, threads) + c.main, Start(t + 1, c.stash, threads) + c.main);
    bins := bins + stashBins;
    buffers := buffers + stashBuffers;
  }

  /** The receiver raises on a buffer with another row count and blocks when none is left. */
  datatype Outcome = Done | SizeNotExpected | Blocked

  method ReceiveRange(binStart: nat, binEnd: nat, incoming: seq<nat>) returns (outcome: Outcome, bins: seq<nat>, read: nat)
    requires binStart <= binEnd
    ensures read <= |incoming|
    ensures outcome == Done <==> Batches(binStart, binEnd) <= incoming
    ensures outcome == Done ==> bins == Range(binStart, binEnd) && incoming[..read] == Batches(binStart, binEnd)
    ensures outcome == Blocked ==> incoming <= Batches(binStart, binEnd)
  {
    hide Batches;
    bins, read := [], 0;
    var bIdx := binStart;
    NoBatch(binEnd);
    ghost var expected := Batches(binStart, binEnd);
    assert expected[0..] == expected;
    while bIdx < binEnd
      invariant binStart <= bIdx <= binEnd && bins == Range(binStart, bIdx) && read <= |incoming| && read <= |expected|
      invariant incoming[..read] == expected[..read] && expected[read..] == Batches(bIdx, binEnd)
    {
      var curStepSize := if STEP_SIZE < binEnd - bIdx then STEP_SIZE else binEnd - bIdx;
      NextBatch(expected, read, bIdx, binEnd, curStepSize);
      if read == |incoming| {
        return Blocked, bins, read;
      }
      if incoming[read] != curStepSize {
        return SizeNotExpected, bins, read;
      }
      ghost var first := bIdx;
      for stepIdx := 0 to curStepSize
        invariant bIdx == first + stepIdx && bins == Range(binStart, bIdx)
      {
        bins := bins + [bIdx];
        bIdx := bIdx + 1;
      }
      OneMore(incoming, expected, read);
      read := read + 1;
    }
    assert expected[read..] == [] && read == |expected|;
    outcome := Done;
  }

  lemma NoBatch(binEnd: nat)
    ensures Batches(binEnd, binEnd) == []
  {}

  lemma NextBatch(expected: seq<nat>, read: nat, bIdx: nat, binEnd: nat, step: nat)
    requires bIdx < binEnd && read <= |expected| && expected[read..] == Batches(bIdx, binEnd)
    requires step == if STEP_SIZE < binEnd - bIdx then STEP_SIZE else binEnd - bIdx
    ensures read < |expected| && expected[read] == step && expected[read + 1..] == Batches(bIdx + step, binEnd)
  {
    assert expected[read] == expected[read..][0];
    assert expected[read + 1..] == expected[read..][1..];
  }

  lemma OneMore(a: seq<nat>, b: seq<nat>, n: nat)
    requires n < |a| && n < |b| && a[..n] == b[..n] && a[n] == b[n]
    ensures a[..n + 1] == b[..n + 1]
  {
    assert a[..n + 1] == a[..n] + [a[n]] && b[..n + 1] == b[..n] + [b[n]];
  }

  method Receive(t: nat, threads: nat, c: Counts, incoming: seq<nat>) returns (outcome: Outcome, bins: seq<nat>)
    requires t < threads
    ensures outcome == Done <==> Buffers(t, threads, c) <= incoming
    ensures outcome == Done ==> bins == Bins(t, threads, c)
  {
    StartGrows(t, c.main, threads);
    StartGrows(t, c.stash, threads);
    var read;
    outcome, bins, read := ReceiveRange(Start(t, c.main, threads), Start(t + 1, c.main, threads), incoming);
    ghost var firsts := Batches(Start(t, c.main, threads), Start(t + 1, c.main, threads));
    ghost var seconds := Batches(Start(t, c.stash, threads) + c.main, Start(t + 1, c.stash, threads) + c.main);
    assert firsts <= firsts + seconds;
    if outcome == Done {
      var stashBins;
      outcome, stashBins, read := ReceiveRange(Start(t, c.stash, threads) + c.main, Start(t + 1, c.stash, threads) + c.main, incoming[read..]);
      bins := bins + stashBins;
      PrefixTail(firsts, seconds, incoming);
    } else {
      FirstPrefix(firsts, seconds, incoming);
    }
  }

  lemma PrefixTail(a: seq<nat>, b: seq<nat>, s: seq<nat>)
    requires a <= s
    ensures a + b <= s <==> b <= s[|a|..]
  {
    if b <= s[|a|..] {
      assert s == a + s[|a|..];
    }
    if a + b <= s {
      assert s[|a|..][..|b|] == s[..|a| + |b|][|a|..] == b;
    }
  }

  lemma FirstPrefix(a: seq<nat>, b: seq<nat>, s: seq<nat>)
    ensures a + b <= s ==> a <= s
  {
    if a + b <= s {
      assert s[..|a|] == (a + b)[..|a|] == a;
    }
  }

  /** With equal counts the receiver's thread reads exactly the buffers of its sender and puts every row
      to the bin it was written for. */
  method Exchange(t: nat, threads: nat, c: Counts) returns (outcome: Outcome, sent: seq<nat>, received: seq<nat>)
    requires t < threads
    ensures outcome == Done && sent == received == Bins(t, threads, c)
  {
    var buffers;
    sent, buffers := Send(t, threads, c);
    outcome, received := Receive(t, threads, c, buffers);
  }

  // ----- all threads -----

  function Ranges(count: nat, offset: nat, threads: nat, t: nat): seq<nat>
    requires 0 < threads
  {
    if t == 0 then [] else
    Ranges(count, offset, threads, t - 1) + Range(Start(t - 1, count, threads) + offset, Start(t, count, threads) + offset)
  }

  lemma {:induction false} RangesCover(count: nat, offset: nat, threads: nat, t: nat)
    requires 0 < threads
    ensures Ranges(count, offset, threads, t) == Range(offset, Start(t, count, threads) + offset)
  {
    if t == 0 {
      assert Start(0, count, threads) == 0;
    } else {
      RangesCover(count, offset, threads, t - 1);
      StartGrows(t - 1, count, threads);
      RangeExtends(offset, Start(t - 1, count, threads) + offset, Start(t, count, threads) + offset);
    }
  }

  lemma LastStart(count: nat, threads: nat)
    requires 0 < threads
    ensures Start(threads, count, threads) == count
  {
    assert threads * count == count * threads;
    DivExact(count, threads);
  }

  lemma DivExact(q: nat, d: nat)
    requires 0 < d
    ensures Div(q * d, d) == q
  {
    assert (q + 1) * d == q * d + d;
    DivUnique(q * d, d, q);
  }

  lemma DivUnique(n: nat, d: nat, q: nat)
    requires 0 < d && q * d <= n < (q + 1) * d
    ensures Div(n, d) == q
  {
    hide Div;
    DivBounds(n, d);
    MulOrder(Div(n, d), q, d);
    MulOrder(q, Div(n, d), d);
  }

  /** Main result: laid end to end, the ranges of all threads are all the bins of a type, each once. */
  lemma EveryBinOnce(c: Counts, threads: nat)
    requires 0 < threads
    ensures Ranges(c.main, 0, threads, threads) == Range(0, c.main)
    ensures Ranges(c.stash, c.main, threads, threads) == Range(c.main, c.main + c.stash)
  {
    RangesCover(c.main, 0, threads, threads);
    RangesCover(c.stash, c.main, threads, threads);
    LastStart(c.main, threads);
    LastStart(c.stash, threads);
  }

  /** And so for the bins a thread visits: bin b is visited by one thread only. */
  lemma OwnersDiffer(c: Counts, threads: nat, t: nat, u: nat, b: nat)
    requires t < u < threads && b in Bins(t, threads, c)
    ensures b !in Bins(u, threads, c)
  {
    StartOrder(t + 1, u, c.main, threads);
    StartOrder(t + 1, u, c.stash, threads);
    StartOrder(u + 1, threads, c.main, threads);
    StartOrder(t + 1, threads, c.main, threads);
    LastStart(c.main, threads);
  }

  lemma {:induction false} StartOrder(t: nat, u: nat, count: nat, threads: nat)
    requires 0 < threads && t <= u
    ensures Start(t, count, threads) <= Start(u, count, threads)
    decreases u - t
  {
    if t < u {
      StartGrows(t, count, threads);
      StartOrder(t + 1, u, count, threads);
    }
  }

  // ----- what equal buffers say about the counts -----

  function Sum(rows: seq<nat>): nat {
    if rows == [] then 0 else rows[0] + Sum(rows[1..])
  }

  lemma {:induction false} SumAppend(a: seq<nat>, b: seq<nat>)
    ensures Sum(a + b) == Sum(a) + Sum(b)
    decreases |a|
  {
    if a == [] {
      assert a + b == b;
    } else {
      SumAppend(a[1..], b);
      assert (a + b)[1..] == a[1..] + b;
    }
  }

  lemma {:induction false} BatchRows(lo: nat, hi: nat)
    requires lo <= hi
    ensures Sum(Batches(lo, hi)) == hi - lo
    decreases hi - lo
  {
    if hi - lo > STEP_SIZE {
      BatchRows(lo + STEP_SIZE, hi);
    }
  }

  function AllRows(c: Counts, threads: nat, t: nat): nat
    requires 0 < threads
  {
    if t == 0 then 0 else AllRows(c, threads, t - 1) + Sum(Buffers(t - 1, threads, c))
  }

  /** The rows of all buffers are as many as there are bins. */
  lemma {:induction false} RowsAreBins(c: Counts, threads: nat, t: nat)
    requires 0 < threads
    ensures AllRows(c, threads, t) == Start(t, c.main, threads) + Start(t, c.stash, threads)
  {
    if t == 0 {
      assert Start(0, c.main, threads) == 0 && Start(0, c.stash, threads) == 0;
    } else {
      RowsAreBins(c, threads, t - 1);
      StartGrows(t - 1, c.main, threads);
      StartGrows(t - 1, c.stash, threads);
      var a, b := Start(t - 1, c.main, threads), Start(t, c.main, threads);
      var a', b' := Start(t - 1, c.stash, threads) + c.main, Start(t, c.stash, threads) + c.main;
      BatchRows(a, b);
      BatchRows(a', b');
      SumAppend(Batches(a, b), Batches(a', b'));
    }
  }

  /** If every channel carries the buffers the receiver expects, both sides have equally many bins. */
  lemma MatchingBuffersMatchTotals(s: Counts, r: Counts, threads: nat)
    requires 0 < threads && forall t: nat :: t < threads ==> Buffers(t, threads, s) == Buffers(t, threads, r)
    ensures s.main + s.stash == r.main + r.stash
  {
    SameRows(s, r, threads, threads);
    RowsAreBins(s, threads, threads);
    RowsAreBins(r, threads, threads);
    LastStart(s.main, threads);
    LastStart(s.stash, threads);
    LastStart(r.main, threads);
    LastStart(r.stash, threads);
  }

  lemma {:induction false} SameRows(s: Counts, r: Counts, threads: nat, t: nat)
    requires 0 < threads && t <= threads
    requires forall u: nat :: u < threads ==> Buffers(u, threads, s) == Buffers(u, threads, r)
    ensures AllRows(s, threads, t) == AllRows(r, threads, t)
  {
    if t > 0 {
      SameRows(s, r, threads, t - 1);
    }
  }
}
