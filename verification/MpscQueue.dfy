/** The multi-producer single-consumer queue of cryptoTools/Common/mpsc_queue.h as a state machine.

    Every access to shared memory is one step, any number of producers run `enqueue`
    concurrently, and one consumer runs `dequeue`.  Addresses that were deleted may be
    handed out again by the allocator. */
module MpscQueue {
  import opened Sequences

  type Addr = nat
  type Pid = nat

  datatype Option<+T> = None | Some(value: T)

  /** buffer_node_t */
  datatype Node<T> = Node(data: T, next: Option<Addr>)

  /** Where a producer is inside `enqueue`. */
  datatype Producer<T> =
    | Idle
    | Allocated(node: Addr, input: T)       // node allocated, not yet filled in
    | Filled(node: Addr, input: T)          // data and next written, before _head.exchange
    | Exchanged(node: Addr, prev: Addr)     // after _head.exchange, before prev_head->next.store

  /** Where the consumer is inside `dequeue`. */
  datatype Consumer<T> =
    | Ready
    | HasTail(tail: Addr)
    | HasNext(tail: Addr, next: Addr)
    | HasOutput(tail: Addr, next: Addr, output: T)
    | Advanced(tail: Addr, output: T)       // _tail stored, before delete tail

  /** The shared memory and program counters; `chain`, `enqueued` and `dequeued` are history:
      the nodes from the consumer's end to the last exchanged one, the values in the order
      of the exchanges, and the values the consumer has taken. */
  datatype State<T> = State(
    heap: map<Addr, Node<T>>,
    head: Addr,
    tail: Addr,
    producers: map<Pid, Producer<T>>,
    consumer: Consumer<T>,
    chain: seq<Addr>,
    enqueued: seq<T>,
    dequeued: seq<T>)

  datatype Action<T> =
    | Allocate(p: Pid, input: T, at: Addr, junk: Node<T>)
    | Fill(p: Pid)
    | Exchange(p: Pid)
    | Link(p: Pid)
    | LoadTail
    | LoadNext
    | CopyData
    | StoreTail
    | DeleteTail

  datatype Outcome<T> =
    | Next(state: State<T>)
    | Disabled                  // the action is not the actor's next step
    | TouchedFreedNode          // the step would access memory that was deleted

  /** The constructor: one node with a null next and uninitialised data. */
  ghost predicate Init<T>(s: State<T>) {
    && s.chain == [s.head] && s.tail == s.head
    && s.heap.Keys == {s.head} && s.heap[s.head].next == None
    && (forall p :: p in s.producers ==> s.producers[p] == Idle)
    && s.consumer == Ready
    && s.enqueued == [] && s.dequeued == []
  }

  function Step<T>(s: State<T>, a: Action<T>): Outcome<T> {
    match a
    case Allocate(_, _, _, _) | Fill(_) | Exchange(_) | Link(_) => ProducerStep(s, a)
    case _ => ConsumerStep(s, a)
  }

  function ProducerStep<T>(s: State<T>, a: Action<T>): Outcome<T>
    requires a.Allocate? || a.Fill? || a.Exchange? || a.Link?
  {
    if a.p !in s.producers then Disabled else
    var pc := s.producers[a.p];
    match a
    case Allocate(p, input, at, junk) =>
      if !pc.Idle? || at in s.heap then Disabled else
      Next(s.(heap := s.heap[at := junk], producers := s.producers[p := Allocated(at, input)]))
    case Fill(p) =>
      if !pc.Allocated? then Disabled else
      if pc.node !in s.heap then TouchedFreedNode else
      Next(s.(heap := s.heap[pc.node := Node(pc.input, None)], producers := s.producers[p := Filled(pc.node, pc.input)]))
    case Exchange(p) =>
      if !pc.Filled? then Disabled else
      if pc.node !in s.heap then TouchedFreedNode else
      Next(s.(head := pc.node, producers := s.producers[p := Exchanged(pc.node, s.head)],
              chain := s.chain + [pc.node], enqueued := s.enqueued + [s.heap[pc.node].data]))
    case Link(p) =>
      if !pc.Exchanged? then Disabled else
      if pc.prev !in s.heap then TouchedFreedNode else
      Next(s.(heap := s.heap[pc.prev := s.heap[pc.prev].(next := Some(pc.node))],
              producers := s.producers[p := Idle]))
  }

  function ConsumerStep<T>(s: State<T>, a: Action<T>): Outcome<T>
    requires a.LoadTail? || a.LoadNext? || a.CopyData? || a.StoreTail? || a.DeleteTail?
  {
    match (a, s.consumer)
    case (LoadTail, Ready) => Next(s.(consumer := HasTail(s.tail)))
    case (LoadNext, HasTail(t)) =>
      if t !in s.heap then TouchedFreedNode else
      (match s.heap[t].next
       case None => Next(s.(consumer := Ready))              // dequeue returns false
       case Some(n) => Next(s.(consumer := HasNext(t, n))))
    case (CopyData, HasNext(t, n)) =>
      if n !in s.heap then TouchedFreedNode else
      Next(s.(consumer := HasOutput(t, n, s.heap[n].data)))
    case (StoreTail, HasOutput(t, n, v)) =>
      Next(s.(tail := n, consumer := Advanced(t, v),
              chain := if s.chain == [] then [] else s.chain[1..], dequeued := s.dequeued + [v]))
    case (DeleteTail, Advanced(t, _)) =>
      if t !in s.heap then TouchedFreedNode else
      Next(s.(heap := s.heap - {t}, consumer := Ready))
    case _ => Disabled
  }

  // ----- the invariant -----

  /** The producer that exchanged chain[i+1] has not yet stored chain[i]'s next. */
  ghost predicate LinkPending<T>(s: State<T>, i: nat) {
    i + 1 < |s.chain| && exists p :: p in s.producers && s.producers[p] == Exchanged(s.chain[i + 1], s.chain[i])
  }

  /** chain[i] points to chain[i+1] unless the store that links them is still pending. */
  ghost predicate LinkOk<T>(s: State<T>, i: nat)
    requires i + 1 < |s.chain| && s.chain[i] in s.heap
  {
    s.heap[s.chain[i]].next == if LinkPending(s, i) then None else Some(s.chain[i + 1])
  }

  ghost predicate ChainOk<T>(s: State<T>) {
    && s.chain != [] && NoDup(s.chain)
    && (forall a :: a in s.chain ==> a in s.heap)
    && s.tail == s.chain[0] && s.head == s.chain[|s.chain| - 1]
    && s.heap[s.head].next == None
    && (forall i: nat :: i + 1 < |s.chain| ==> LinkOk(s, i))
  }

  ghost predicate HistoryOk<T>(s: State<T>)
    requires ChainOk(s)
  {
    && |s.enqueued| == |s.dequeued| + |s.chain| - 1
    && s.dequeued == s.enqueued[..|s.dequeued|]
    && (forall i :: 1 <= i < |s.chain| ==> s.heap[s.chain[i]].data == s.enqueued[|s.dequeued| + i - 1])
  }

  ghost predicate ProducerOk<T>(s: State<T>, p: Pid)
    requires p in s.producers
  {
    match s.producers[p]
    case Idle => true
    case Allocated(n, _) => n in s.heap && n !in s.chain
    case Filled(n, v) => n in s.heap && n !in s.chain && s.heap[n] == Node(v, None)
    case Exchanged(n, prev) => exists i :: 0 <= i < |s.chain| - 1 && s.chain[i] == prev && s.chain[i + 1] == n
  }

  ghost predicate ProducersOk<T>(s: State<T>) {
    && (forall p :: p in s.producers ==> ProducerOk(s, p))
    && (forall p, q :: p in s.producers && q in s.producers && p != q && !s.producers[p].Idle? && !s.producers[q].Idle? ==>
          s.producers[p].node != s.producers[q].node)
  }

  ghost predicate ConsumerOk<T>(s: State<T>)
    requires ChainOk(s)
  {
    match s.consumer
    case Ready => true
    case HasTail(t) => t == s.chain[0]
    case HasNext(t, n) => t == s.chain[0] && |s.chain| > 1 && n == s.chain[1] && s.heap[t].next == Some(n)
    case HasOutput(t, n, v) =>
      t == s.chain[0] && |s.chain| > 1 && n == s.chain[1] && s.heap[t].next == Some(n) && s.heap[n].data == v
    case Advanced(t, v) =>
      && t in s.heap && t !in s.chain && s.dequeued != [] && v == s.dequeued[|s.dequeued| - 1]
      && (forall p :: p in s.producers && !s.producers[p].Idle? ==> s.producers[p].node != t)
  }

  /** The nodes only one thread can reach: being prepared by a producer, or about to be deleted. */
  ghost predicate PrivateNode<T>(s: State<T>, a: Addr) {
    || (s.consumer.Advanced? && s.consumer.tail == a)
    || (exists p :: p in s.producers && (s.producers[p].Allocated? || s.producers[p].Filled?) && s.producers[p].node == a)
  }

  ghost predicate NoLeak<T>(s: State<T>) {
    forall a :: a in s.heap ==> a in s.chain || PrivateNode(s, a)
  }

  ghost predicate Inv<T>(s: State<T>) {
    ChainOk(s) && HistoryOk(s) && ProducersOk(s) && ConsumerOk(s) && NoLeak(s)
  }

  lemma InitInv<T>(s: State<T>)
    requires Init(s)
    ensures Inv(s)
  {}

  lemma StepInv<T>(s: State<T>, a: Action<T>)
    requires Inv(s)
    ensures !Step(s, a).TouchedFreedNode?
    ensures Step(s, a).Next? ==> Inv(Step(s, a).state)
  {
    match a
    case Allocate(_, _, _, _) => AllocateInv(s, a);
    case Fill(_) => FillInv(s, a);
    case Exchange(_) => ExchangeInv(s, a);
    case Link(_) => LinkInv(s, a);
    case StoreTail => StoreTailInv(s, a);
    case DeleteTail => DeleteTailInv(s, a);
    case _ => LoadInv(s, a);
  }

  /** A step that leaves the chain and its producers' links alone leaves the pending links alone. */
  lemma PendingUnchanged<T>(s: State<T>, t: State<T>)
    requires s.chain == t.chain
    requires forall p :: p in s.producers && s.producers[p].Exchanged? ==> p in t.producers && t.producers[p] == s.producers[p]
    requires forall p :: p in t.producers && t.producers[p].Exchanged? ==> p in s.producers && t.producers[p] == s.producers[p]
    ensures forall i: nat :: LinkPending(s, i) == LinkPending(t, i)
  {}

  /** The chain survives a step that changes neither it, nor its nodes, nor the pending links. */
  lemma ChainFrame<T>(s: State<T>, t: State<T>)
    requires ChainOk(s)
    requires t.chain == s.chain && t.head == s.head && t.tail == s.tail
    requires forall x :: x in s.chain ==> x in t.heap && t.heap[x] == s.heap[x]
    requires forall i: nat :: LinkPending(s, i) == LinkPending(t, i)
    ensures ChainOk(t)
  {
    forall i: nat | i + 1 < |t.chain| ensures LinkOk(t, i) {
      assert LinkOk(s, i);
    }
  }

  lemma AllocateProducers<T>(s: State<T>, a: Action<T>, t: State<T>)
    requires Inv(s) && a.Allocate? && Step(s, a) == Next(t)
    ensures ProducersOk(t) && NoLeak(t)
  {
    forall q | q in t.producers ensures ProducerOk(t, q) {
      assert ProducerOk(s, q);
    }
    forall q | q in t.producers && q != a.p && !t.producers[q].Idle? ensures t.producers[q].node != a.at {
      assert ProducerOk(s, q);
    }
    forall x | x in t.heap ensures x in t.chain || PrivateNode(t, x) {
      if x == a.at {
        assert t.producers[a.p].node == x;
      } else if x !in s.chain && !(s.consumer.Advanced? && s.consumer.tail == x) {
        var p :| p in s.producers && (s.producers[p].Allocated? || s.producers[p].Filled?) && s.producers[p].node == x;
        assert t.producers[p] == s.producers[p];
      }
    }
  }

  lemma AllocateInv<T>(s: State<T>, a: Action<T>)
    requires Inv(s) && a.Allocate?
    ensures !Step(s, a).TouchedFreedNode?
    ensures Step(s, a).Next? ==> Inv(Step(s, a).state)
  {
    if Step(s, a).Next? {
      var t := Step(s, a).state;
      PendingUnchanged(s, t);
      ChainFrame(s, t);
      AllocateProducers(s, a, t);
      assert HistoryOk(t);
      forall q | q in t.producers && !t.producers[q].Idle? && s.consumer.Advanced? ensures t.producers[q].node != s.consumer.tail {
        assert q != a.p ==> t.producers[q] == s.producers[q];
      }
    }
  }

  lemma FillProducers<T>(s: State<T>, a: Action<T>, t: State<T>)
    requires Inv(s) && a.Fill? && Step(s, a) == Next(t)
    ensures ProducersOk(t) && NoLeak(t)
  {
    hide LinkOk, LinkPending;
    forall q | q in t.producers ensures ProducerOk(t, q) {
      assert ProducerOk(s, q);
    }
    forall x | x in t.heap ensures x in t.chain || PrivateNode(t, x) {
      if x == s.producers[a.p].node {
        assert t.producers[a.p].node == x;
      } else if x !in s.chain && !(s.consumer.Advanced? && s.consumer.tail == x) {
        var p :| p in s.producers && (s.producers[p].Allocated? || s.producers[p].Filled?) && s.producers[p].node == x;
        assert t.producers[p] == s.producers[p];
      }
    }
  }

  lemma FillChain<T>(s: State<T>, a: Action<T>, t: State<T>)
    requires Inv(s) && a.Fill? && Step(s, a) == Next(t)
    ensures ChainOk(t)
  {
    assert ProducerOk(s, a.p);
    PendingUnchanged(s, t);
    ChainFrame(s, t);
    hide ChainOk, LinkOk, LinkPending, NoLeak;
  }

  lemma FillRest<T>(s: State<T>, a: Action<T>, t: State<T>)
    requires Inv(s) && a.Fill? && Step(s, a) == Next(t) && ChainOk(t)
    ensures HistoryOk(t) && ConsumerOk(t)
  {
    hide LinkOk, LinkPending, NoLeak;
    assert ProducerOk(s, a.p);
  }

  lemma FillInv<T>(s: State<T>, a: Action<T>)
    requires Inv(s) && a.Fill?
    ensures !Step(s, a).TouchedFreedNode?
    ensures Step(s, a).Next? ==> Inv(Step(s, a).state)
  {
    hide ChainOk, NoLeak;
    if a.p in s.producers {
      assert ProducerOk(s, a.p);
    }
    if Step(s, a).Next? {
      var t := Step(s, a).state;
      FillProducers(s, a, t);
      FillChain(s, a, t);
      FillRest(s, a, t);
    }
  }

  lemma ExchangePending<T>(s: State<T>, a: Action<T>, t: State<T>)
    requires Inv(s) && a.Exchange? && Step(s, a) == Next(t)
    ensures forall i: nat :: i < |s.chain| - 1 ==> LinkPending(t, i) == LinkPending(s, i)
    ensures LinkPending(t, |s.chain| - 1)
  {
    var n := s.producers[a.p].node;
    assert ProducerOk(s, a.p);
    assert t.producers[a.p] == Exchanged(t.chain[|s.chain|], t.chain[|s.chain| - 1]);
    forall i: nat | i < |s.chain| - 1 ensures LinkPending(t, i) == LinkPending(s, i) {
      assert t.chain[i] == s.chain[i] && t.chain[i + 1] == s.chain[i + 1];
      if LinkPending(s, i) {
        var p :| p in s.producers && s.producers[p] == Exchanged(s.chain[i + 1], s.chain[i]);
        assert t.producers[p] == s.producers[p];
      }
    }
  }

  lemma ExchangeChain<T>(s: State<T>, a: Action<T>, t: State<T>)
    requires Inv(s) && a.Exchange? && Step(s, a) == Next(t)
    requires forall i: nat :: i < |s.chain| - 1 ==> LinkPending(t, i) == LinkPending(s, i)
    requires LinkPending(t, |s.chain| - 1)
    ensures ChainOk(t)
  {
    assert ProducerOk(s, a.p);
    assert t.chain[..|s.chain|] == s.chain;
    forall i: nat | i + 1 < |t.chain| ensures LinkOk(t, i) {
      if i < |s.chain| - 1 {
        assert LinkOk(s, i);
        assert t.chain[i] == s.chain[i] && t.chain[i + 1] == s.chain[i + 1];
      }
    }
  }

  lemma ExchangeHistory<T>(s: State<T>, a: Action<T>, t: State<T>)
    requires Inv(s) && a.Exchange? && Step(s, a) == Next(t) && ChainOk(t)
    ensures HistoryOk(t)
  {
    hide LinkOk, LinkPending, NoLeak;
    assert ProducerOk(s, a.p);
    assert t.chain[..|s.chain|] == s.chain;
  }

  lemma ExchangeProducer<T>(s: State<T>, a: Action<T>, t: State<T>, q: Pid)
    requires Inv(s) && a.Exchange? && Step(s, a) == Next(t) && q in t.producers
    ensures ProducerOk(t, q)
  {
    assert ProducerOk(s, q) && ProducerOk(s, a.p);
    if q == a.p {
      var k := |s.chain| - 1;
      assert t.chain[k] == s.head && t.chain[k + 1] == s.producers[q].node;
    } else if s.producers[q].Exchanged? {
      var i :| 0 <= i < |s.chain| - 1 && s.chain[i] == s.producers[q].prev && s.chain[i + 1] == s.producers[q].node;
      assert t.chain[i] == s.chain[i] && t.chain[i + 1] == s.chain[i + 1];
    }
  }

  lemma LinkPendingAfter<T>(s: State<T>, a: Action<T>, t: State<T>, i0: nat)
    requires Inv(s) && a.Link? && Step(s, a) == Next(t)
    requires i0 < |s.chain| - 1 && s.chain[i0] == s.producers[a.p].prev && s.chain[i0 + 1] == s.producers[a.p].node
    ensures forall i: nat :: i < |s.chain| - 1 ==> LinkPending(t, i) == (LinkPending(s, i) && i != i0)
  {
    forall i: nat | i < |s.chain| - 1 ensures LinkPending(t, i) == (LinkPending(s, i) && i != i0)
    {
      if LinkPending(s, i) && i != i0 {
        var p :| p in s.producers && s.producers[p] == Exchanged(s.chain[i + 1], s.chain[i]);
        assert t.producers[p] == s.producers[p];
      }
    }
  }

  /** The link step changes one next field and nothing else in memory. */
  lemma LinkHeap<T>(s: State<T>, a: Action<T>, t: State<T>) returns (i0: nat)
    requires Inv(s) && a.Link? && Step(s, a) == Next(t)
    ensures t.chain == s.chain && t.heap.Keys == s.heap.Keys
    ensures i0 < |s.chain| - 1 && s.chain[i0] == s.producers[a.p].prev
    ensures s.chain[i0 + 1] == s.producers[a.p].node
    ensures LinkPending(s, i0) && t.heap[s.chain[i0]].next == Some(s.chain[i0 + 1])
    ensures forall x :: x in s.heap ==> t.heap[x].data == s.heap[x].data
    ensures forall x :: x in s.heap && x != s.chain[i0] ==> t.heap[x] == s.heap[x]
  {
    assert ProducerOk(s, a.p);
    i0 :| 0 <= i0 < |s.chain| - 1 && s.chain[i0] == s.producers[a.p].prev && s.chain[i0 + 1] == s.producers[a.p].node;
  }

  lemma LinkChain<T>(s: State<T>, t: State<T>, i0: nat)
    requires ChainOk(s) && t.chain == s.chain && t.head == s.head && t.tail == s.tail && t.heap.Keys == s.heap.Keys
    requires i0 + 1 < |s.chain| && t.heap[s.chain[i0]].next == Some(s.chain[i0 + 1])
    requires forall x :: x in s.heap && x != s.chain[i0] ==> t.heap[x] == s.heap[x]
    requires forall i: nat :: i < |s.chain| - 1 ==> LinkPending(t, i) == (LinkPending(s, i) && i != i0)
    ensures ChainOk(t)
  {
    forall i: nat | i + 1 < |t.chain| ensures LinkOk(t, i) {
      assert LinkOk(s, i);
      assert LinkPending(t, i) == (LinkPending(s, i) && i != i0);
    }
  }

  lemma LinkRest<T>(s: State<T>, a: Action<T>, t: State<T>)
    requires Inv(s) && a.Link? && Step(s, a) == Next(t) && ChainOk(t)
    ensures HistoryOk(t) && ConsumerOk(t)
  {
    var i0 := LinkHeap(s, a, t);
    assert LinkOk(s, i0);
    assert s.heap[s.chain[i0]].next == None;
  }

  lemma StoreTailPending<T>(s: State<T>, t: State<T>)
    requires Inv(s) && Step(s, StoreTail) == Next(t)
    ensures !LinkPending(s, 0)
    ensures forall i: nat :: i < |s.chain| - 2 ==> LinkPending(t, i) == LinkPending(s, i + 1)
  {
    assert LinkOk(s, 0);
    forall i: nat | i < |s.chain| - 2 ensures LinkPending(t, i) == LinkPending(s, i + 1) {
      assert t.chain[i] == s.chain[i + 1] && t.chain[i + 1] == s.chain[i + 2];
    }
  }

  lemma StoreTailChain<T>(s: State<T>, a: Action<T>, t: State<T>)
    requires Inv(s) && a.StoreTail? && Step(s, a) == Next(t)
    requires forall i: nat :: i < |s.chain| - 2 ==> LinkPending(t, i) == LinkPending(s, i + 1)
    ensures ChainOk(t)
  {
    assert forall i :: 0 <= i < |t.chain| ==> t.chain[i] == s.chain[i + 1];
    assert t.heap == s.heap && t.tail == s.chain[1];
    forall i: nat | i + 1 < |t.chain| ensures LinkOk(t, i) {
      assert LinkOk(s, i + 1);
    }
  }

  lemma HistoryShift<T>(chain: seq<Addr>, heap: map<Addr, Node<T>>, enqueued: seq<T>, d: nat)
    requires |chain| > 1 && |enqueued| == d + |chain| - 1
    requires forall i :: 1 <= i < |chain| ==> chain[i] in heap && heap[chain[i]].data == enqueued[d + i - 1]
    ensures forall i :: 1 <= i < |chain[1..]| ==> chain[1..][i] in heap && heap[chain[1..][i]].data == enqueued[d + i]
  {
    forall i | 1 <= i < |chain[1..]| ensures chain[1..][i] in heap && heap[chain[1..][i]].data == enqueued[d + i] {
      assert chain[1..][i] == chain[i + 1];
    }
  }

  lemma HistoryAdvances<T>(enqueued: seq<T>, dequeued: seq<T>)
    requires |dequeued| < |enqueued| && dequeued == enqueued[..|dequeued|]
    ensures dequeued + [enqueued[|dequeued|]] == enqueued[..|dequeued| + 1]
  {}

  lemma StoreTailState<T>(s: State<T>, a: Action<T>, t: State<T>)
    requires ChainOk(s) && HistoryOk(s) && ConsumerOk(s)
    requires a.StoreTail? && Step(s, a) == Next(t)
    ensures |s.chain| > 1 && t.chain == s.chain[1..] && t.heap == s.heap && t.enqueued == s.enqueued
    ensures t.dequeued == s.dequeued + [s.enqueued[|s.dequeued|]]
  {
    hide LinkOk, LinkPending;
    assert s.chain[1] in s.heap;
  }

  lemma StoreTailHistory<T>(s: State<T>, a: Action<T>, t: State<T>)
    requires ChainOk(s) && HistoryOk(s) && ConsumerOk(s)
    requires a.StoreTail? && Step(s, a) == Next(t) && ChainOk(t)
    ensures HistoryOk(t)
  {
    StoreTailState(s, a, t);
    assert forall i :: 1 <= i < |s.chain| ==> s.chain[i] in s.heap;
    hide ChainOk, ConsumerOk, Step, ConsumerStep;
    HistoryShift(s.chain, s.heap, s.enqueued, |s.dequeued|);
    HistoryAdvances(s.enqueued, s.dequeued);
  }

  lemma StoreTailProducer<T>(s: State<T>, a: Action<T>, t: State<T>, q: Pid)
    requires Inv(s) && a.StoreTail? && Step(s, a) == Next(t) && q in t.producers
    ensures ProducerOk(t, q)
  {
    assert ProducerOk(s, q);
    if s.producers[q].Exchanged? {
      var i :| 0 <= i < |s.chain| - 1 && s.chain[i] == s.producers[q].prev && s.chain[i + 1] == s.producers[q].node;
      assert LinkPending(s, i) && LinkOk(s, 0);
      assert i != 0;
      assert t.chain[i - 1] == s.chain[i] && t.chain[i] == s.chain[i + 1];
    }
  }

  lemma ExchangeNoLeak<T>(s: State<T>, a: Action<T>, t: State<T>)
    requires Inv(s) && a.Exchange? && Step(s, a) == Next(t)
    ensures NoLeak(t)
  {
    var n := s.producers[a.p].node;
    assert t.chain[|s.chain|] == n;
    forall x | x in t.heap ensures x in t.chain || PrivateNode(t, x) {
      if x in s.chain {
      } else if s.consumer.Advanced? && s.consumer.tail == x {
      } else {
        var p :| p in s.producers && (s.producers[p].Allocated? || s.producers[p].Filled?) && s.producers[p].node == x;
        assert p != a.p ==> t.producers[p] == s.producers[p];
      }
    }
  }

  lemma LinkProducers<T>(s: State<T>, a: Action<T>, t: State<T>)
    requires Inv(s) && a.Link? && Step(s, a) == Next(t)
    ensures ProducersOk(t) && NoLeak(t)
  {
    var i0 := LinkHeap(s, a, t);
    forall q | q in t.producers ensures ProducerOk(t, q) {
      assert ProducerOk(s, q);
    }
    forall x | x in t.heap ensures x in t.chain || PrivateNode(t, x) {
      if x in s.chain {
      } else if s.consumer.Advanced? && s.consumer.tail == x {
      } else {
        var p :| p in s.producers && (s.producers[p].Allocated? || s.producers[p].Filled?) && s.producers[p].node == x;
        assert t.producers[p] == s.producers[p];
      }
    }
  }

  lemma ExchangeInv<T>(s: State<T>, a: Action<T>)
    requires Inv(s) && a.Exchange?
    ensures !Step(s, a).TouchedFreedNode?
    ensures Step(s, a).Next? ==> Inv(Step(s, a).state)
  {
    if Step(s, a).Next? {
      var t := Step(s, a).state;
      ExchangePending(s, a, t);
      ExchangeChain(s, a, t);
      ExchangeHistory(s, a, t);
      forall q | q in t.producers ensures ProducerOk(t, q) {
        ExchangeProducer(s, a, t, q);
      }
      ExchangeNoLeak(s, a, t);
    }
  }

  lemma LinkInv<T>(s: State<T>, a: Action<T>)
    requires Inv(s) && a.Link?
    ensures !Step(s, a).TouchedFreedNode?
    ensures Step(s, a).Next? ==> Inv(Step(s, a).state)
  {
    if Step(s, a).Next? {
      var t := Step(s, a).state;
      var i0 := LinkHeap(s, a, t);
      LinkPendingAfter(s, a, t, i0);
      LinkChain(s, t, i0);
      LinkRest(s, a, t);
      LinkProducers(s, a, t);
    }
  }

  lemma LoadLeak<T>(s: State<T>, a: Action<T>, t: State<T>)
    requires Inv(s) && (a.LoadTail? || a.LoadNext? || a.CopyData?) && Step(s, a) == Next(t)
    ensures ProducersOk(t) && NoLeak(t)
  {
    hide LinkOk, LinkPending;
    forall q | q in t.producers ensures ProducerOk(t, q) {
      assert ProducerOk(s, q);
    }
    forall x | x in t.heap ensures x in t.chain || PrivateNode(t, x) {
      assert x in s.chain || PrivateNode(s, x);
    }
  }

  lemma LoadInv<T>(s: State<T>, a: Action<T>)
    requires Inv(s) && (a.LoadTail? || a.LoadNext? || a.CopyData?)
    ensures !Step(s, a).TouchedFreedNode?
    ensures Step(s, a).Next? ==> Inv(Step(s, a).state)
  {
    if Step(s, a).Next? {
      var t := Step(s, a).state;
      if |s.chain| > 1 { assert LinkOk(s, 0); }
      PendingUnchanged(s, t);
      ChainFrame(s, t);
      LoadLeak(s, a, t);
      hide LinkOk, LinkPending, NoLeak;
    }
  }

  lemma StoreTailInv<T>(s: State<T>, a: Action<T>)
    requires Inv(s) && a.StoreTail?
    ensures !Step(s, a).TouchedFreedNode?
    ensures Step(s, a).Next? ==> Inv(Step(s, a).state)
  {
    if Step(s, a).Next? {
      var t := Step(s, a).state;
      StoreTailPending(s, t);
      StoreTailChain(s, a, t);
      StoreTailHistory(s, a, t);
      forall q | q in t.producers ensures ProducerOk(t, q) {
        StoreTailProducer(s, a, t, q);
      }
      forall x | x in t.heap ensures x in t.chain || PrivateNode(t, x) {
        assert x in s.chain || PrivateNode(s, x);
        assert s.chain == [s.chain[0]] + t.chain;
      }
      assert ConsumerOk(t) by {
        forall q | q in t.producers && !t.producers[q].Idle? ensures t.producers[q].node != s.chain[0] {
          assert ProducerOk(s, q);
        }
      }
    }
  }

  lemma DeleteTailInv<T>(s: State<T>, a: Action<T>)
    requires Inv(s) && a.DeleteTail?
    ensures !Step(s, a).TouchedFreedNode?
    ensures Step(s, a).Next? ==> Inv(Step(s, a).state)
  {
    if Step(s, a).Next? {
      var t := Step(s, a).state;
      PendingUnchanged(s, t);
      ChainFrame(s, t);
    }
  }

  // ----- whole runs -----

  ghost predicate StepAt<T>(states: seq<State<T>>, acts: seq<Action<T>>, i: nat)
    requires i < |acts| && i + 1 < |states|
  {
    Step(states[i], acts[i]) == Next(states[i + 1])
  }

  /** Any interleaving of any number of producers with the consumer. */
  ghost predicate IsRun<T>(states: seq<State<T>>, acts: seq<Action<T>>) {
    && |states| == |acts| + 1 && Init(states[0])
    && (forall i: nat :: i < |acts| ==> StepAt(states, acts, i))
  }

  /** The argument of the call to `enqueue` that producer p started last. */
  function LastInput<T>(acts: seq<Action<T>>, p: Pid): Option<T> {
    if acts == [] then None else
    var a := acts[|acts| - 1];
    if a.Allocate? && a.p == p then Some(a.input) else LastInput(acts[..|acts| - 1], p)
  }

  /** The arguments of the calls to `enqueue`, in the order of their exchanges on _head. */
  function ExchangeOrder<T>(acts: seq<Action<T>>): seq<Option<T>> {
    if acts == [] then [] else
    var before := acts[..|acts| - 1];
    var a := acts[|acts| - 1];
    ExchangeOrder(before) + if a.Exchange? then [LastInput(before, a.p)] else []
  }

  ghost predicate PcAgrees<T>(pc: Producer<T>, last: Option<T>) {
    pc.Allocated? || pc.Filled? ==> last == Some(pc.input)
  }

  function Somes<T>(xs: seq<T>): (r: seq<Option<T>>)
    ensures |r| == |xs| && forall i :: 0 <= i < |xs| ==> r[i] == Some(xs[i])
  {
    seq(|xs|, i requires 0 <= i < |xs| => Some(xs[i]))
  }

  lemma {:induction false} RunInv<T>(states: seq<State<T>>, acts: seq<Action<T>>)
    requires IsRun(states, acts)
    ensures Inv(states[|acts|])
    ensures Somes(states[|acts|].enqueued) == ExchangeOrder(acts)
    ensures forall p :: p in states[|acts|].producers ==> PcAgrees(states[|acts|].producers[p], LastInput(acts, p))
  {
    hide Inv;
    if acts == [] {
      InitInv(states[0]);
    } else {
      var n := |acts| - 1;
      var before, pre := acts[..n], states[..n + 1];
      assert IsRun(pre, before) by {
        forall i: nat | i < n ensures StepAt(pre, before, i) {
          assert StepAt(states, acts, i);
        }
      }
      RunInv(pre, before);
      assert StepAt(states, acts, n);
      StepInv(states[n], acts[n]);
      StepHistory(states[n], acts[n], states[n + 1], before);
      assert acts == before + [acts[n]];
    }
  }

  lemma StepHistory<T>(s: State<T>, a: Action<T>, t: State<T>, before: seq<Action<T>>)
    requires Inv(s) && Step(s, a) == Next(t)
    requires Somes(s.enqueued) == ExchangeOrder(before)
    requires forall p :: p in s.producers ==> PcAgrees(s.producers[p], LastInput(before, p))
    ensures Somes(t.enqueued) == ExchangeOrder(before + [a])
    ensures forall p :: p in t.producers ==> PcAgrees(t.producers[p], LastInput(before + [a], p))
  {
    assert (before + [a])[..|before|] == before;
    if a.Exchange? {
      assert ProducerOk(s, a.p);
    }
  }

  /** Main result: in every interleaving the values the consumer has taken are a prefix of the
      producers' arguments in exchange order, nothing is lost in between, and the next step of
      any thread never touches a deleted node. */
  lemma QueueIsFifo<T>(states: seq<State<T>>, acts: seq<Action<T>>, a: Action<T>)
    requires IsRun(states, acts)
    ensures var s := states[|acts|];
      && Somes(s.dequeued) <= ExchangeOrder(acts)
      && |ExchangeOrder(acts)| == |s.dequeued| + |s.chain| - 1
      && (forall i :: 1 <= i < |s.chain| ==>
            s.chain[i] in s.heap && Some(s.heap[s.chain[i]].data) == ExchangeOrder(acts)[|s.dequeued| + i - 1])
      && !Step(s, a).TouchedFreedNode?
  {
    RunInv(states, acts);
    StepInv(states[|acts|], a);
  }

  /** A producer is between its exchange and its store into the node the consumer looks at. */
  ghost predicate NextLinkPending<T>(s: State<T>) {
    exists p :: p in s.producers && s.producers[p].Exchanged? && s.producers[p].prev == s.tail
  }

  /** `dequeue` returns false exactly when every exchanged value has been taken or the producer
      of the next value has not stored the link yet. */
  lemma DequeueFalseIff<T>(s: State<T>, t: State<T>)
    requires Inv(s) && s.consumer.HasTail? && Step(s, LoadNext) == Next(t)
    ensures t.consumer.Ready? <==> s.dequeued == s.enqueued || NextLinkPending(s)
  {
    if |s.chain| > 1 {
      assert LinkOk(s, 0);
      if NextLinkPending(s) {
        var p :| p in s.producers && s.producers[p].Exchanged? && s.producers[p].prev == s.tail;
        assert ProducerOk(s, p);
        assert LinkPending(s, 0);
      }
    }
  }

  /** No producer still holds the node that `dequeue` deletes, neither as its own node nor as prev_head. */
  lemma DeletedNodeIsUnreachable<T>(s: State<T>, t: State<T>, p: Pid)
    requires Inv(s) && Step(s, DeleteTail) == Next(t) && p in s.producers
    ensures s.consumer.tail !in t.heap && s.consumer.tail != t.head && s.consumer.tail != t.tail
    ensures !s.producers[p].Idle? ==> s.producers[p].node != s.consumer.tail
    ensures s.producers[p].Exchanged? ==> s.producers[p].prev != s.consumer.tail
    ensures forall a :: a in t.chain ==> t.heap[a].next != Some(s.consumer.tail)
  {
    assert ProducerOk(s, p);
    StepInv(s, DeleteTail);
    forall a | a in t.chain ensures t.heap[a].next != Some(s.consumer.tail) {
      var i :| 0 <= i < |t.chain| && t.chain[i] == a;
      if i + 1 < |t.chain| { assert LinkOk(t, i); }
    }
  }

  // ----- the destructor -----

  /** No `enqueue` or `dequeue` is in progress. */
  ghost predicate Quiescent<T>(s: State<T>) {
    s.consumer == Ready && forall p :: p in s.producers ==> s.producers[p].Idle?
  }

  lemma OutputIsNext<T>(s: State<T>)
    requires Inv(s) && s.consumer.HasOutput?
    ensures |s.dequeued| < |s.enqueued| && s.consumer.output == s.enqueued[|s.dequeued|]
  {}

  lemma QuiescentLoad<T>(s: State<T>)
    requires Inv(s) && s.consumer.HasTail? && forall p :: p in s.producers ==> s.producers[p].Idle?
    ensures Step(s, LoadNext).Next?
    ensures Step(s, LoadNext).state.consumer.Ready? <==> s.dequeued == s.enqueued
  {
    DequeueFalseIff(s, Step(s, LoadNext).state);
  }

  lemma DeleteEnabled<T>(s: State<T>)
    requires Inv(s)
    ensures s.consumer.Advanced? ==> Step(s, DeleteTail).Next?
    ensures s.consumer.HasNext? ==> Step(s, CopyData).Next?
  {}

  // ----- no actor ever waits -----

  /** What producer p's own next step leads to. */
  ghost predicate ProducerMoves<T(!new)>(s: State<T>, p: Pid)
    requires p in s.producers
  {
    match s.producers[p]
    case Idle => forall input, at, junk :: at !in s.heap ==> AllocateMoves(s, p, input, at, junk)
    case Allocated(n, v) =>
      Step(s, Fill(p)).Next? && MovedOn(s, p, Filled(n, v), Step(s, Fill(p)).state)
      && n in Step(s, Fill(p)).state.heap && Step(s, Fill(p)).state.heap[n] == Node(v, None)
    case Filled(n, v) =>
      Step(s, Exchange(p)).Next? && MovedOn(s, p, Exchanged(n, s.head), Step(s, Exchange(p)).state)
      && Step(s, Exchange(p)).state.head == n && Step(s, Exchange(p)).state.enqueued == s.enqueued + [v]
    case Exchanged(n, prev) =>
      Step(s, Link(p)).Next? && MovedOn(s, p, Idle, Step(s, Link(p)).state)
      && prev in Step(s, Link(p)).state.heap && Step(s, Link(p)).state.heap[prev].next == Some(n)
  }

  ghost predicate AllocateMoves<T>(s: State<T>, p: Pid, input: T, at: Addr, junk: Node<T>) {
    && Step(s, Allocate(p, input, at, junk)).Next?
    && MovedOn(s, p, Allocated(at, input), Step(s, Allocate(p, input, at, junk)).state)
    && at in Step(s, Allocate(p, input, at, junk)).state.heap
  }

  /** Producer p is at its next place; the consumer and the other producers are where they were. */
  ghost predicate MovedOn<T>(s: State<T>, p: Pid, pc: Producer<T>, t: State<T>) {
    && t.producers.Keys == s.producers.Keys && t.consumer == s.consumer && p in t.producers && t.producers[p] == pc
    && forall q :: q in s.producers && q != p ==> t.producers[q] == s.producers[q]
  }

  /** In every reachable state every producer can take its own next step, whatever the others are doing:
      a call of `enqueue` is over after four steps of its own. */
  lemma ProducerIsEnabled<T(!new)>(s: State<T>, p: Pid)
    requires Inv(s) && p in s.producers
    ensures ProducerMoves(s, p)
  {
    assert ProducerOk(s, p);
    hide LinkOk, LinkPending, NoLeak, HistoryOk;
  }

  /** What the consumer's next step leads to. */
  ghost predicate ConsumerMoves<T>(s: State<T>) {
    match s.consumer
    case Ready => Step(s, LoadTail).Next? && Step(s, LoadTail).state == s.(consumer := HasTail(s.tail))
    case HasTail(t) =>
      && t in s.heap && Step(s, LoadNext).Next?
      && Step(s, LoadNext).state ==
           s.(consumer := if s.heap[t].next.None? then Ready else HasNext(t, s.heap[t].next.value))
    case HasNext(t, n) => n in s.heap && Step(s, CopyData).Next? && Step(s, CopyData).state == s.(consumer := HasOutput(t, n, s.heap[n].data))
    case HasOutput(t, n, v) =>
      && Step(s, StoreTail).Next? && Step(s, StoreTail).state.tail == n
      && Step(s, StoreTail).state.consumer == Advanced(t, v) && Step(s, StoreTail).state.dequeued == s.dequeued + [v]
    case Advanced(t, v) =>
      Step(s, DeleteTail).Next? && Step(s, DeleteTail).state == s.(heap := s.heap - {t}, consumer := Ready)
  }

  /** And so can the consumer: a call of `dequeue` is over after five. */
  lemma ConsumerIsEnabled<T>(s: State<T>)
    requires Inv(s)
    ensures ConsumerMoves(s)
  {
    hide LinkOk, LinkPending, NoLeak, HistoryOk, ProducersOk;
  }

  /** One call of `enqueue` with no other call in progress, on a node the allocator may hand out. */
  method Enqueue<T(!new)>(s0: State<T>, p: Pid, input: T, at: Addr, junk: Node<T>) returns (s: State<T>)
    requires Inv(s0) && Quiescent(s0) && p in s0.producers && at !in s0.heap
    ensures Inv(s) && Quiescent(s) && s.producers.Keys == s0.producers.Keys
    ensures s.enqueued == s0.enqueued + [input] && s.dequeued == s0.dequeued
  {
    hide Inv, Step;
    s := s0;
    ProducerIsEnabled(s, p);
    StepInv(s, Allocate(p, input, at, junk));
    assert AllocateMoves(s, p, input, at, junk);
    OnlyExchangeEnqueues(s, Allocate(p, input, at, junk));
    s := Step(s, Allocate(p, input, at, junk)).state;
    ProducerIsEnabled(s, p);
    StepInv(s, Fill(p));
    OnlyExchangeEnqueues(s, Fill(p));
    s := Step(s, Fill(p)).state;
    ProducerIsEnabled(s, p);
    StepInv(s, Exchange(p));
    OnlyExchangeEnqueues(s, Exchange(p));
    s := Step(s, Exchange(p)).state;
    ProducerIsEnabled(s, p);
    StepInv(s, Link(p));
    OnlyExchangeEnqueues(s, Link(p));
    s := Step(s, Link(p)).state;
  }

  lemma OnlyExchangeEnqueues<T>(s: State<T>, a: Action<T>)
    requires Step(s, a).Next?
    ensures !a.Exchange? ==> Step(s, a).state.enqueued == s.enqueued
    ensures !a.StoreTail? ==> Step(s, a).state.dequeued == s.dequeued
  {}

  /** A value put into the empty queue comes out of it. */
  method EnqueueThenDequeue<T(!new)>(s0: State<T>, p: Pid, input: T, at: Addr, junk: Node<T>) returns (s: State<T>, output: Option<T>)
    requires Inv(s0) && Quiescent(s0) && s0.dequeued == s0.enqueued && p in s0.producers && at !in s0.heap
    ensures Inv(s) && Quiescent(s) && output == Some(input)
    ensures s.enqueued == s.dequeued == s0.enqueued + [input]
  {
    hide Inv, Quiescent;
    s := Enqueue(s0, p, input, at, junk);
    assert s.enqueued[|s.dequeued|] == input;
    s, output := Dequeue(s);
  }

  /** One call of `dequeue` with no concurrent producer. */
  method Dequeue<T>(s0: State<T>) returns (s: State<T>, output: Option<T>)
    requires Inv(s0) && Quiescent(s0)
    ensures Inv(s) && Quiescent(s) && s.enqueued == s0.enqueued
    ensures output == if s0.dequeued == s0.enqueued then None else Some(s0.enqueued[|s0.dequeued|])
    ensures s.dequeued == s0.dequeued + if output.None? then [] else [output.value]
  {
    hide Inv;
    StepInv(s0, LoadTail);
    s := Step(s0, LoadTail).state;
    QuiescentLoad(s);
    StepInv(s, LoadNext);
    s := Step(s, LoadNext).state;
    if s.consumer.Ready? {
      output := None;
      return;
    }
    DeleteEnabled(s);
    StepInv(s, CopyData);
    s := Step(s, CopyData).state;
    OutputIsNext(s);
    StepInv(s, StoreTail);
    s := Step(s, StoreTail).state;
    output := Some(s.consumer.output);
    DeleteEnabled(s);
    StepInv(s, DeleteTail);
    s := Step(s, DeleteTail).state;
  }

  /** ~mpsc_queue_t: every value still queued comes out in order and every node is deleted. */
  method Destroy<T>(s0: State<T>) returns (heap: map<Addr, Node<T>>, outputs: seq<T>)
    requires Inv(s0) && Quiescent(s0)
    ensures heap == map[]
    ensures s0.enqueued == s0.dequeued + outputs
  {
    var s := s0;
    outputs := [];
    var more := true;
    while more
      invariant Inv(s) && Quiescent(s) && s.enqueued == s0.enqueued
      invariant s.dequeued == s0.dequeued + outputs
      invariant !more ==> s.dequeued == s.enqueued
      decreases |s.enqueued| - |s.dequeued|, more
    {
      var output;
      s, output := Dequeue(s);
      if output.None? {
        more := false;
      } else {
        outputs := outputs + [output.value];
      }
    }
    assert s.chain == [s.head];
    heap := s.heap - {s.head};
  }
}
