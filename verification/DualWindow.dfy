/** The ring topology of `tparty` in frontend/OtBinMain.cpp: which client talks to which
    neighbour, in which payload row, on which thread slot. */
module DualWindow {

  /** is_in_dual_area */
  predicate IsInDualArea(startIdx: nat, endIdx: nat, numIdx: nat, checkIdx: nat) {
    if startIdx <= endIdx then
      startIdx <= checkIdx <= endIdx
    else
      checkIdx <= endIdx || (startIdx <= checkIdx <= numIdx)
  }

  /** ttParties: the number of neighbours a client shares with. */
  function Neighbours(nParties: nat, tParties: nat): nat
    requires 2 <= nParties
  {
    if tParties == nParties - 1 then tParties - 1
    else if tParties < 1 then 1
    else tParties
  }

  /** With n = nParties - 1 clients the code works with 1 <= t <= n - 1, from three parties on: the value
      in that range that is nearest to tParties. */
  lemma NeighboursRange(nParties: nat, tParties: nat)
    requires 2 <= nParties && tParties < nParties
    ensures Valid(nParties - 1, Neighbours(nParties, tParties)) <==> 3 <= nParties
    ensures Valid(nParties - 1, tParties) ==> Neighbours(nParties, tParties) == tParties
    ensures tParties == 0 ==> Neighbours(nParties, tParties) == 1
    ensures tParties == nParties - 1 ==> Neighbours(nParties, tParties) == nParties - 2
  {}

  ghost predicate Valid(n: nat, t: nat) {
    1 <= t < n
  }

  /** Steps forward on the ring of n clients from a to b. */
  function Distance(a: nat, b: nat, n: nat): nat
    requires a < n && b < n
  {
    if a <= b then b - a else b + n - a
  }

  lemma Mod(a: nat, n: nat)
    requires 0 < n && a < 2 * n
    ensures a % n == if a < n then a else a - n
  {}

  /** isDual and the window around client `me`, as the code computes them. */
  predicate InWindow(me: nat, other: nat, n: nat, t: nat)
    requires me < n && 1 <= t < n
  {
    n <= 2 * t && IsInDualArea((me - t + n) % n, (me + t) % n, n, other)
  }

  /** The window holds exactly the clients whose distance lies in [n-t, t]. */
  lemma WindowIsDistance(me: nat, other: nat, n: nat, t: nat)
    requires me < n && other < n && Valid(n, t)
    ensures InWindow(me, other, n, t) <==> n - t <= Distance(me, other, n) <= t
  {
    Mod(me - t + n, n);
    Mod(me + t, n);
  }

  /** Two clients agree on whether they exchange in both directions. */
  lemma WindowIsSymmetric(a: nat, b: nat, n: nat, t: nat)
    requires a < n && b < n && Valid(n, t)
    ensures InWindow(a, b, n, t) == InWindow(b, a, n, t)
    ensures !InWindow(a, a, n, t)
  {
    WindowIsDistance(a, b, n, t);
    WindowIsDistance(b, a, n, t);
    WindowIsDistance(a, a, n, t);
  }

  // ----- the thread slots of one client -----

  /** What one thread does with its neighbour; `row` indexes sendPayLoads and recvPayLoads. */
  datatype Job =
    | Unassigned
    | RecvOnly(peer: nat, row: nat)
    | SendOnly(peer: nat, row: nat)
    | SendThenRecv(peer: nat, row: nat)
    | RecvThenSend(peer: nat, row: nat)
    | ToLeader

  predicate Sends(j: Job, peer: nat, row: nat) {
    (j.SendOnly? || j.SendThenRecv? || j.RecvThenSend?) && j.peer == peer && j.row == row
  }

  predicate Receives(j: Job, peer: nat, row: nat) {
    (j.RecvOnly? || j.SendThenRecv? || j.RecvThenSend?) && j.peer == peer && j.row == row
  }

  function Prev(me: nat, i: nat, n: nat): nat
    requires me < n && i < n
  {
    (me - i - 1 + n) % n
  }

  function Succ(me: nat, i: nat, n: nat): nat
    requires me < n && i < n
  {
    (me + i + 1) % n
  }

  function NextJob(me: nat, i: nat, n: nat, t: nat): Job
    requires me < n && i < t && 1 <= t < n
  {
    var next := Succ(me, i, n);
    if !InWindow(me, next, n, t) then SendOnly(next, i)
    else if me < next then SendThenRecv(next, i)
    else RecvThenSend(next, i)
  }

  /** num_threads */
  function ThreadCount(n: nat, t: nat): nat {
    if 2 * t < n then 2 * t + 1 else n
  }

  function JobAt(me: nat, i: nat, n: nat, t: nat): Job
    requires me < n && 1 <= t < n
  {
    if i < t then NextJob(me, i, n, t)
    else if i == ThreadCount(n, t) - 1 then ToLeader
    else if i - t < n then RecvOnly(Prev(me, i - t, n), i - t)
    else Unassigned
  }

  lemma Neighbour(me: nat, i: nat, n: nat, t: nat)
    requires me < n && i < t && Valid(n, t)
    ensures Prev(me, i, n) < n && Distance(Prev(me, i, n), me, n) == i + 1
    ensures Succ(me, i, n) < n && Distance(me, Succ(me, i, n), n) == i + 1
    ensures InWindow(me, Succ(me, i, n), n, t) <==> n - t <= i + 1
    ensures InWindow(me, Prev(me, i, n), n, t) <==> n - t <= i + 1
    ensures me != Succ(me, i, n)
  {
    Mod(me - i - 1 + n, n);
    Mod(me + i + 1, n);
    WindowIsDistance(me, Succ(me, i, n), n, t);
    WindowIsDistance(me, Prev(me, i, n), n, t);
  }

  /** The loop over the previous clients: receives that are not part of a two-way exchange. */
  method AssignReceives(pThrds: array<Job>, me: nat, n: nat, t: nat, isDual: bool, startDual: nat, endDual: nat)
    requires me < n && Valid(n, t) && pThrds.Length == ThreadCount(n, t) && isDual == !(2 * t < n)
    requires isDual ==> startDual == (me - t + n) % n && endDual == (me + t) % n
    requires forall j :: 0 <= j < pThrds.Length ==> pThrds[j] == Unassigned
    modifies pThrds
    ensures forall j :: 0 <= j < pThrds.Length ==>
              pThrds[j] == if t <= j < 2 * t && j < ThreadCount(n, t) - 1 then JobAt(me, j, n, t) else Unassigned
  {
    for i := 0 to t
      invariant forall j :: 0 <= j < pThrds.Length ==>
                  pThrds[j] == if t <= j < t + i && j < ThreadCount(n, t) - 1 then JobAt(me, j, n, t) else Unassigned
    {
      Neighbour(me, i, n, t);
      var prevIdx := (me - i - 1 + n) % n;
      if !(isDual && IsInDualArea(startDual, endDual, n, prevIdx)) {
        assert pThrds[t + i] == Unassigned;
        pThrds[t + i] := RecvOnly(prevIdx, i);
      }
    }
  }

  /** The loop over the next clients: sends, and two-way exchanges with those in the window. */
  method AssignSends(pThrds: array<Job>, me: nat, n: nat, t: nat, isDual: bool, startDual: nat, endDual: nat)
    requires me < n && Valid(n, t) && pThrds.Length == ThreadCount(n, t) && isDual == !(2 * t < n)
    requires isDual ==> startDual == (me - t + n) % n && endDual == (me + t) % n
    requires forall j :: 0 <= j < t ==> pThrds[j] == Unassigned
    modifies pThrds
    ensures forall j :: 0 <= j < pThrds.Length ==> pThrds[j] == if j < t then JobAt(me, j, n, t) else old(pThrds[j])
  {
    for i := 0 to t
      invariant forall j :: 0 <= j < i ==> pThrds[j] == JobAt(me, j, n, t)
      invariant forall j :: i <= j < pThrds.Length ==> pThrds[j] == old(pThrds[j])
    {
      Neighbour(me, i, n, t);
      var nextIdx := (me + i + 1) % n;
      assert pThrds[i] == Unassigned;
      if isDual && IsInDualArea(startDual, endDual, n, nextIdx) {
        if me < nextIdx {
          pThrds[i] := SendThenRecv(nextIdx, i);
        } else if me > nextIdx {
          pThrds[i] := RecvThenSend(nextIdx, i);
        }
      } else {
        pThrds[i] := SendOnly(nextIdx, i);
      }
    }
  }

  /** The assignments of `tparty`: no slot is assigned twice and none stays empty. */
  method AssignThreads(me: nat, n: nat, t: nat) returns (pThrds: array<Job>)
    requires me < n && Valid(n, t)
    ensures fresh(pThrds) && pThrds.Length == ThreadCount(n, t)
    ensures forall i :: 0 <= i < pThrds.Length ==> pThrds[i] == JobAt(me, i, n, t) && pThrds[i] != Unassigned
  {
    pThrds := new Job[ThreadCount(n, t)](_ => Unassigned);
    var isDual := !(2 * t < n);
    var startDual, endDual := 0, 0;
    if isDual {
      startDual, endDual := (me - t + n) % n, (me + t) % n;
    }
    AssignReceives(pThrds, me, n, t, isDual, startDual, endDual);
    AssignSends(pThrds, me, n, t, isDual, startDual, endDual);
    assert pThrds[pThrds.Length - 1] == Unassigned;
    pThrds[pThrds.Length - 1] := ToLeader;
  }

  // ----- matching the two ends of a transfer -----

  /** Client `me` runs a job that receives payload row `row` from `peer`. */
  ghost predicate HasReceive(me: nat, peer: nat, row: nat, n: nat, t: nat)
    requires me < n && Valid(n, t)
  {
    exists i: nat :: i < ThreadCount(n, t) && Receives(JobAt(me, i, n, t), peer, row)
  }

  ghost predicate HasSend(me: nat, peer: nat, row: nat, n: nat, t: nat)
    requires me < n && Valid(n, t)
  {
    exists i: nat :: i < ThreadCount(n, t) && Sends(JobAt(me, i, n, t), peer, row)
  }

  /** Who fills receive row `row` of client `me`, and with which of its own send rows. */
  function Source(me: nat, row: nat, n: nat, t: nat): nat
    requires me < n && row < t && 1 <= t < n
  {
    if n - t <= row + 1 then Succ(me, row, n) else Prev(me, row, n)
  }

  function SourceRow(row: nat, n: nat, t: nat): nat
    requires row < t && 1 <= t < n
  {
    if n - t <= row + 1 then n - row - 2 else row
  }

  /** Receive row `row` of a client is filled by one neighbour, on one thread. */
  lemma ReceiveRows(me: nat, peer: nat, row: nat, n: nat, t: nat)
    requires me < n && Valid(n, t)
    ensures HasReceive(me, peer, row, n, t) <==> row < t && peer == Source(me, row, n, t)
    ensures forall i: nat, j: nat, p, q ::
              (i < ThreadCount(n, t) && j < ThreadCount(n, t)
               && Receives(JobAt(me, i, n, t), p, row) && Receives(JobAt(me, j, n, t), q, row)) ==> i == j
  {
    if row < t {
      Neighbour(me, row, n, t);
      var i := if n - t <= row + 1 then row else t + row;
      assert Receives(JobAt(me, i, n, t), Source(me, row, n, t), row);
    }
    forall i: nat, p | i < ThreadCount(n, t) && Receives(JobAt(me, i, n, t), p, row)
      ensures row < t && i == (if n - t <= row + 1 then row else t + row) && p == Source(me, row, n, t)
    {
      if i < t { Neighbour(me, i, n, t); } else { Neighbour(me, i - t, n, t); }
    }
  }

  lemma SendRows(me: nat, peer: nat, row: nat, n: nat, t: nat)
    requires me < n && Valid(n, t)
    ensures HasSend(me, peer, row, n, t) <==> row < t && peer == Succ(me, row, n)
  {
    if row < t {
      Neighbour(me, row, n, t);
      assert Sends(JobAt(me, row, n, t), Succ(me, row, n), row);
    }
    forall i: nat | i < ThreadCount(n, t) && Sends(JobAt(me, i, n, t), peer, row)
      ensures row < t && peer == Succ(me, row, n)
    {
      if i < t { Neighbour(me, i, n, t); }
    }
  }

  /** The receive row in which a client's send row k arrives at its k+1st successor. */
  function TargetRow(k: nat, n: nat, t: nat): nat
    requires k < t && 1 <= t < n
  {
    if n - t <= k + 1 then n - k - 2 else k
  }

  /** Each directed share has one sender and one receiver: the map (sender, send row) to
      (receiver, receive row) and the map back are inverse to each other. */
  lemma TransfersMatch(a: nat, k: nat, n: nat, t: nat)
    requires a < n && k < t && Valid(n, t)
    ensures var b, s := Succ(a, k, n), TargetRow(k, n, t);
      && b < n && s < t
      && HasSend(a, b, k, n, t) && HasReceive(b, a, s, n, t)
      && Source(b, s, n, t) == a && SourceRow(s, n, t) == k
  {
    var b, s := Succ(a, k, n), TargetRow(k, n, t);
    Neighbour(a, k, n, t);
    Neighbour(b, s, n, t);
    Mod(a + k + 1, n);
    Mod(b + s + 1, n);
    Mod(b - s - 1 + n, n);
    SendRows(a, b, k, n, t);
    ReceiveRows(b, a, s, n, t);
  }

  lemma SourcesMatch(b: nat, s: nat, n: nat, t: nat)
    requires b < n && s < t && Valid(n, t)
    ensures var a, k := Source(b, s, n, t), SourceRow(s, n, t);
      a < n && k < t && Succ(a, k, n) == b && TargetRow(k, n, t) == s
  {
    Neighbour(b, s, n, t);
    Mod(b + s + 1, n);
    Mod(b - s - 1 + n, n);
    var a, k := Source(b, s, n, t), SourceRow(s, n, t);
    Mod(a + k + 1, n);
  }

  /** The two ends of a two-way exchange use opposite orders: the one with the lower index sends first. */
  lemma ExchangeOrdersOppose(a: nat, k: nat, n: nat, t: nat)
    requires a < n && k < t && Valid(n, t) && InWindow(a, Succ(a, k, n), n, t)
    ensures var b, s := Succ(a, k, n), TargetRow(k, n, t);
      && b < n && s < t
      && JobAt(a, k, n, t) == (if a < b then SendThenRecv(b, k) else RecvThenSend(b, k))
      && JobAt(b, s, n, t) == (if a < b then RecvThenSend(a, s) else SendThenRecv(a, s))
  {
    var b, s := Succ(a, k, n), TargetRow(k, n, t);
    Neighbour(a, k, n, t);
    Neighbour(b, s, n, t);
    Mod(a + k + 1, n);
    Mod(b + s + 1, n);
  }
}
