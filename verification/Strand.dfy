/** A boost::asio strand: handlers run one after the other in the order they were posted.  Both
    directions of a socket use one, with a handler that queues an operation and one that pops the front. */
module Strand {

  datatype Handler<T> = Enqueue(op: T) | PopFront

  /** Operations dispatched but not yet put in the queue. */
  function Pending<T>(strand: seq<Handler<T>>): (r: seq<T>)
    ensures |r| <= |strand|
  {
    if strand == [] then []
    else (if strand[0].Enqueue? then [strand[0].op] else []) + Pending(strand[1..])
  }

  function Pops<T>(strand: seq<Handler<T>>): (r: nat)
    ensures r + |Pending(strand)| == |strand|
  {
    if strand == [] then 0 else (if strand[0].PopFront? then 1 else 0) + Pops(strand[1..])
  }

  lemma {:induction false} StrandAppend<T>(strand: seq<Handler<T>>, h: Handler<T>)
    ensures Pending(strand + [h]) == Pending(strand) + (if h.Enqueue? then [h.op] else [])
    ensures Pops(strand + [h]) == Pops(strand) + if h.PopFront? then 1 else 0
  {
    if strand != [] {
      StrandAppend(strand[1..], h);
      assert (strand + [h])[1..] == strand[1..] + [h];
    } else {
      assert strand + [h] == [h] && [h][1..] == [];
    }
  }

  lemma RunStrand<T>(strand: seq<Handler<T>>)
    requires strand != []
    ensures Pending(strand) == (if strand[0].Enqueue? then [strand[0].op] else []) + Pending(strand[1..])
    ensures Pops(strand) == (if strand[0].PopFront? then 1 else 0) + Pops(strand[1..])
  {}

  lemma Regroup<T>(a: seq<T>, b: seq<T>, op: T, c: seq<T>)
    ensures a + b + ([op] + c) == a + (b + [op]) + c
  {}

  lemma RegroupRest<T>(a: seq<T>, op: T, b: seq<T>, c: seq<T>)
    ensures a + ([op] + b) + c == a + [op] + (b + c)
  {}

  // ----- an operation with others behind it -----

  ghost predicate Inside<T>(queue: seq<T>, x: T) {
    exists i :: 0 <= i < |queue| - 1 && queue[i] == x
  }

  lemma InsideAppend<T>(queue: seq<T>, op: T, x: T)
    ensures Inside(queue + [op], x) <==> x in queue
  {
    if x in queue {
      var i :| 0 <= i < |queue| && queue[i] == x;
      assert (queue + [op])[i] == x;
    }
  }

  lemma InsideIn<T>(queue: seq<T>, x: T)
    ensures Inside(queue, x) ==> x in queue && queue != []
  {}

  lemma InsideRest<T>(queue: seq<T>, x: T)
    requires |queue| > 1 && queue[0] != x
    ensures queue[1] != x ==> (Inside(queue[1..], x) <==> Inside(queue, x))
    ensures queue[1] == x ==> (Inside(queue, x) <==> queue[2..] != [])
  {
    if queue[1] == x {
      if |queue| > 2 {
        assert queue[1] == x && 1 < |queue| - 1;
      }
    } else {
      if Inside(queue, x) {
        var i :| 0 <= i < |queue| - 1 && queue[i] == x;
        assert queue[1..][i - 1] == x;
      }
      if Inside(queue[1..], x) {
        var i :| 0 <= i < |queue[1..]| - 1 && queue[1..][i] == x;
        assert queue[i + 1] == x;
      }
    }
  }
}
