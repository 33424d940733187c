/** The receiving direction of a socket: dispatch and receiveOne of cryptoTools/Network/BtIOService.cpp
    as the steps of a state machine.  Every message is a four-byte header with its size and then its
    bytes; the stream is the sequence of messages the other side wrote. */
module RecvQueue {
  import opened Blocks
  import opened Strand

  const U64: nat := 0x1_0000_0000_0000_0000

  type Payload = seq<Byte>

  /** A receive into a buffer of fixed size, a receive into a resizable buffer, and the close. */
  datatype RecvOp = RecvFixed(size: nat) | RecvResizable | CloseRecv {
    /** op.mSize at the time of dispatch, which is what mTotalRecvData adds up. */
    function Size(): nat {
      if RecvFixed? then size else 0
    }

    predicate Fits(message: Payload) {
      RecvResizable? || (RecvFixed? && size == |message|)
    }
  }

  /** The operation that is under way for the front of the queue.  Refused is the state after a message
      of the wrong size: the exception is set, nothing is popped and nothing more is started. */
  datatype Phase = Idle | ReadingHeader | ReadingBody | Refused

  datatype State = State(strand: seq<Handler<RecvOp>>, queue: seq<RecvOp>, phase: Phase, total: nat, stream: seq<Payload>,
                         posted: seq<RecvOp>, done: seq<RecvOp>, delivered: seq<Payload>, completed: seq<RecvOp>)

  const EMPTY: State := State([], [], Idle, 0, [], [], [], [], [])

  /** receiveOne */
  function ReceiveOne(s: State): State
    requires s.queue != []
  {
    if s.queue[0].CloseRecv?
    then s.(queue := s.queue[1..], done := s.done + [CloseRecv], completed := s.completed + [CloseRecv])
    else s.(phase := ReadingHeader)
  }

  function RunEnqueue(s: State, op: RecvOp): State {
    var t := s.(queue := s.queue + [op], total := (s.total + op.Size()) % U64);
    if |t.queue| == 1 then ReceiveOne(t) else t
  }

  function RunPop(s: State): State
    requires s.queue != []
  {
    var t := s.(queue := s.queue[1..], done := s.done + [s.queue[0]]);
    if t.queue != [] then ReceiveOne(t) else t
  }

  datatype Event = Post(op: RecvOp) | Arrives(message: Payload) | Run | HeaderRead | BodyRead

  predicate Enabled(s: State, e: Event) {
    match e
    case Post(op) => op.RecvFixed? ==> 0 < op.size
    case Arrives(message) => true
    case Run => s.strand != [] && (s.strand[0].PopFront? ==> s.queue != [])
    case HeaderRead => s.phase.ReadingHeader? && s.queue != [] && |s.delivered| < |s.stream|
    case BodyRead => s.phase.ReadingBody? && s.queue != [] && |s.delivered| < |s.stream|
  }

  function Step(s: State, e: Event): State
    requires Enabled(s, e)
  {
    match e
    case Post(op) => s.(strand := s.strand + [Enqueue(op)], posted := s.posted + [op])
    case Arrives(message) => s.(stream := s.stream + [message])
    case Run =>
      var t := s.(strand := s.strand[1..]);
      if s.strand[0].Enqueue? then RunEnqueue(t, s.strand[0].op) else RunPop(t)
    case HeaderRead =>
      if s.queue[0].Fits(s.stream[|s.delivered|]) then s.(phase := ReadingBody) else s.(phase := Refused)
    case BodyRead =>
      s.(phase := Idle, delivered := s.delivered + [s.stream[|s.delivered|]],
         completed := s.completed + [s.queue[0]], strand := s.strand + [PopFront])
  }

  // ----- the invariant -----

  predicate Busy(s: State) {
    s.phase != Idle || Pops(s.strand) > 0
  }

  ghost predicate QueueInv(s: State) {
    && Pops(s.strand) <= 1 && (s.phase == Idle || Pops(s.strand) == 0)
    && s.posted == s.done + s.queue + Pending(s.strand)
    && (Busy(s) ==> s.queue != [] && s.queue[0] != CloseRecv)
  }

  ghost predicate CompletedInv(s: State) {
    s.completed == s.done + if Pops(s.strand) > 0 && s.queue != [] then [s.queue[0]] else []
  }

  /** The receives among the operations, which take a message each. */
  function DataOps(ops: seq<RecvOp>): (r: seq<RecvOp>)
    ensures |r| <= |ops|
  {
    if ops == [] then [] else
    var last := ops[|ops| - 1];
    DataOps(ops[..|ops| - 1]) + if last == CloseRecv then [] else [last]
  }

  lemma DataOpsAppend(ops: seq<RecvOp>, op: RecvOp)
    ensures DataOps(ops + [op]) == DataOps(ops) + if op == CloseRecv then [] else [op]
  {
    assert (ops + [op])[..|ops|] == ops;
  }

  /** How many operations are receives. */
  function Receives(ops: seq<RecvOp>): nat {
    if ops == [] then 0 else Receives(ops[..|ops| - 1]) + if ops[|ops| - 1].CloseRecv? then 0 else 1
  }

  /** Operation i, if it is a receive, is the one after the receives before it. */
  lemma {:induction false} DataOpsAt(ops: seq<RecvOp>, i: nat)
    requires i < |ops|
    ensures |DataOps(ops)| == Receives(ops)
    ensures ops[i] != CloseRecv ==> Receives(ops[..i]) < |DataOps(ops)| && DataOps(ops)[Receives(ops[..i])] == ops[i]
  {
    var n := |ops| - 1;
    if i < n {
      DataOpsAt(ops[..n], i);
      assert ops[..n][..i] == ops[..i];
    } else if n > 0 {
      DataOpsAt(ops[..n], 0);
    }
  }

  lemma {:induction false} DataOpsPrefix(ops: seq<RecvOp>, n: nat)
    requires n <= |ops|
    ensures DataOps(ops[..n]) <= DataOps(ops)
    decreases |ops|
  {
    if n < |ops| {
      DataOpsPrefix(ops[..|ops| - 1], n);
      assert ops[..|ops| - 1][..n] == ops[..n];
    } else {
      assert ops[..n] == ops;
    }
  }

  /** The i-th receive got the i-th message of the stream, which has the size it asked for. */
  ghost predicate Received(ops: seq<RecvOp>, delivered: seq<Payload>, stream: seq<Payload>) {
    && delivered <= stream && |delivered| == |DataOps(ops)|
    && forall i :: 0 <= i < |delivered| ==> DataOps(ops)[i].Fits(delivered[i])
  }

  ghost predicate DeliveryInv(s: State) {
    && Received(s.completed, s.delivered, s.stream)
    && (s.phase.ReadingBody? ==> |s.delivered| < |s.stream| && s.queue != [] && s.queue[0].Fits(s.stream[|s.delivered|]))
    && (s.phase.Refused? ==> |s.delivered| < |s.stream| && s.queue != [] && !s.queue[0].Fits(s.stream[|s.delivered|]))
  }

  ghost predicate Inv(s: State) {
    QueueInv(s) && CompletedInv(s) && DeliveryInv(s)
  }

  lemma InitInv()
    ensures Inv(EMPTY)
  {}

  lemma PostInv(s: State, op: RecvOp)
    requires Inv(s) && Enabled(s, Post(op))
    ensures Inv(Step(s, Post(op)))
  {
    hide Pending, Pops;
    StrandAppend(s.strand, Enqueue(op));
    assert s.posted + [op] == s.done + s.queue + (Pending(s.strand) + [op]);
  }

  lemma ArrivesInv(s: State, message: Payload)
    requires Inv(s)
    ensures Inv(Step(s, Arrives(message)))
  {
    hide Pending, Pops;
  }

  lemma HeaderReadInv(s: State)
    requires Inv(s) && Enabled(s, HeaderRead)
    ensures Inv(Step(s, HeaderRead))
  {
    hide Pending, Pops;
  }

  lemma BodyReadInv(s: State)
    requires Inv(s) && Enabled(s, BodyRead)
    ensures Inv(Step(s, BodyRead))
  {
    hide Pending, Pops, Received;
    StrandAppend(s.strand, PopFront);
    assert s.completed == s.done by { assert s.done + [] == s.done; }
    OneReceived(s.completed, s.queue[0], s.delivered, s.stream);
  }

  lemma OneReceived(ops: seq<RecvOp>, op: RecvOp, delivered: seq<Payload>, stream: seq<Payload>)
    requires Received(ops, delivered, stream) && op != CloseRecv && |delivered| < |stream| && op.Fits(stream[|delivered|])
    ensures Received(ops + [op], delivered + [stream[|delivered|]], stream)
  {
    DataOpsAppend(ops, op);
  }

  /** A completed close takes no message. */
  lemma CloseReceived(ops: seq<RecvOp>, delivered: seq<Payload>, stream: seq<Payload>)
    requires Received(ops, delivered, stream)
    ensures Received(ops + [CloseRecv], delivered, stream)
  {
    DataOpsAppend(ops, CloseRecv);
  }

  // ----- running the strand -----

  lemma Shapes(queue: seq<RecvOp>, op: RecvOp)
    ensures queue + [op] != [] && (queue != [] ==> (queue + [op])[0] == queue[0])
    ensures |queue| > 1 ==> queue[1..][0] == queue[1] && queue[1..] == [queue[1]] + queue[2..] && queue[1..][1..] == queue[2..]
    ensures queue == [] ==> queue + [op] == [op] && [op][1..] == []
  {}

  lemma RunEnqueueInv(s: State)
    requires Inv(s) && Enabled(s, Run) && s.strand[0].Enqueue?
    ensures Inv(Step(s, Run))
  {
    hide Pending, Pops, Received, DataOps;
    var op := s.strand[0].op;
    var t := Step(s, Run);
    RunStrand(s.strand);
    Shapes(s.queue, op);
    Regroup(s.done, s.queue, op, Pending(t.strand));
    if s.queue == [] && op.CloseRecv? {
      assert s.done + [] == s.done && t.done + [] == t.done;
      CloseReceived(s.completed, s.delivered, s.stream);
    }
  }

  lemma PopFacts(s: State)
    requires Inv(s) && Enabled(s, Run) && s.strand[0].PopFront?
    ensures Pending(s.strand) == Pending(s.strand[1..]) && Pops(s.strand[1..]) == 0 && Pops(s.strand) == 1 && s.phase == Idle
    ensures var done := s.done + [s.queue[0]];
            s.completed == done && s.posted == done + s.queue[1..] + Pending(s.strand[1..])
  {
    hide Pending, Pops, DeliveryInv;
    RunStrand(s.strand);
    assert s.queue == [s.queue[0]] + s.queue[1..];
    RegroupRest(s.done, s.queue[0], s.queue[1..], Pending(s.strand[1..]));
  }

  lemma PopContinues(s: State)
    requires Inv(s) && Enabled(s, Run) && s.strand[0].PopFront? && (|s.queue| == 1 || s.queue[1] != CloseRecv)
    ensures Inv(Step(s, Run))
  {
    PopFacts(s);
    Shapes(s.queue, CloseRecv);
    var t := Step(s, Run);
    hide Pending, Pops, Received, DataOps;
    assert t.done + [] == t.done;
  }

  lemma PopCloses(s: State)
    requires Enabled(s, Run) && s.strand[0].PopFront? && |s.queue| > 1 && s.queue[1] == CloseRecv
    ensures var t := Step(s, Run);
            && t.strand == s.strand[1..] && t.queue == s.queue[2..] && t.phase == s.phase && t.stream == s.stream
            && t.posted == s.posted && t.done == s.done + [s.queue[0]] + [CloseRecv] && t.delivered == s.delivered
            && t.completed == s.completed + [CloseRecv] && s.queue[1..] == [CloseRecv] + s.queue[2..]
  {
    assert s.queue[1..][1..] == s.queue[2..] && s.queue[1..][0] == s.queue[1];
  }

  lemma PopToCloseInv(s: State)
    requires Inv(s) && Enabled(s, Run) && s.strand[0].PopFront? && |s.queue| > 1 && s.queue[1] == CloseRecv
    ensures Inv(Step(s, Run))
  {
    PopFacts(s);
    PopCloses(s);
    hide Pending, Pops, Received, DataOps, Step, RunPop;
    var t := Step(s, Run);
    CloseLeaves(s.done + [s.queue[0]], s.queue, Pending(t.strand));
    CloseReceived(s.completed, s.delivered, s.stream);
    assert t.done + [] == t.done;
  }

  lemma CloseLeaves(done: seq<RecvOp>, queue: seq<RecvOp>, pending: seq<RecvOp>)
    requires |queue| > 1 && queue[1] == CloseRecv
    ensures done + queue[1..] + pending == done + [CloseRecv] + queue[2..] + pending
  {
    assert queue[1..] == [CloseRecv] + queue[2..];
    RegroupRest(done, CloseRecv, queue[2..], []);
  }

  lemma StepInv(s: State, e: Event)
    requires Inv(s) && Enabled(s, e)
    ensures Inv(Step(s, e))
  {
    hide Inv, Step;
    match e {
      case Post(op) => PostInv(s, op);
      case Arrives(message) => ArrivesInv(s, message);
      case HeaderRead => HeaderReadInv(s);
      case BodyRead => BodyReadInv(s);
      case Run =>
        if s.strand[0].Enqueue? {
          RunEnqueueInv(s);
        } else if |s.queue| > 1 && s.queue[1] == CloseRecv {
          PopToCloseInv(s);
        } else {
          PopContinues(s);
        }
    }
  }

  // ----- whole runs -----

  predicate Feasible(s: State, es: seq<Event>)
    decreases |es|
  {
    es == [] || (Enabled(s, es[0]) && Feasible(Step(s, es[0]), es[1..]))
  }

  function After(s: State, es: seq<Event>): State
    requires Feasible(s, es)
    decreases |es|
  {
    if es == [] then s else After(Step(s, es[0]), es[1..])
  }

  lemma {:induction false} RunInv(s: State, es: seq<Event>)
    requires Inv(s) && Feasible(s, es)
    ensures Inv(After(s, es))
    decreases |es|
  {
    hide Inv, Enabled, Step;
    if es != [] {
      StepInv(s, es[0]);
      RunInv(Step(s, es[0]), es[1..]);
    }
  }

  /** Main result: after any run, whether or not operations follow a close, the operations completed are
      the first ones dispatched, so a completed close means that every receive before it completed, and
      the i-th receive dispatched got the i-th message, of the size it asked for. */
  lemma ReceivesInOrder(es: seq<Event>)
    requires Feasible(EMPTY, es)
    ensures var s := After(EMPTY, es);
            && s.completed <= s.posted && s.delivered <= s.stream && |s.delivered| <= |DataOps(s.posted)|
            && (forall i :: 0 <= i < |s.delivered| ==>
                  DataOps(s.posted)[i] == RecvResizable || DataOps(s.posted)[i] == RecvFixed(|s.delivered[i]|))
  {
    InitInv();
    RunInv(EMPTY, es);
    InOrder(After(EMPTY, es));
    hide Feasible, After, Inv;
  }

  lemma InOrder(s: State)
    requires Inv(s)
    ensures s.completed <= s.posted && s.delivered <= s.stream && |s.delivered| <= |DataOps(s.posted)|
    ensures forall i :: 0 <= i < |s.delivered| ==>
              DataOps(s.posted)[i] == RecvResizable || DataOps(s.posted)[i] == RecvFixed(|s.delivered[i]|)
  {
    hide Pending, Pops, DataOps;
    assert s.posted[..|s.completed|] == s.completed;
    DataOpsPrefix(s.posted, |s.completed|);
    forall i | 0 <= i < |s.delivered|
      ensures DataOps(s.posted)[i] == RecvResizable || DataOps(s.posted)[i] == RecvFixed(|s.delivered[i]|)
    {
      assert DataOps(s.completed)[i] == DataOps(s.posted)[i];
    }
  }

  /** A message of the wrong size ends receiving for good: whatever happens later, nothing more is
      delivered and no later receive or close completes. */
  lemma {:induction false} RefusedForever(s: State, es: seq<Event>)
    requires Inv(s) && s.phase == Refused && Feasible(s, es)
    ensures var t := After(s, es); t.phase == Refused && t.completed == s.completed && t.delivered == s.delivered
    decreases |es|
  {
    if es != [] {
      var t := Step(s, es[0]);
      StepInv(s, es[0]);
      RefusedStep(s, es[0]);
      hide Inv, Step, Enabled;
      RefusedForever(t, es[1..]);
    }
  }

  lemma RefusedStep(s: State, e: Event)
    requires Inv(s) && s.phase == Refused && Enabled(s, e)
    ensures Step(s, e).phase == Refused && Step(s, e).completed == s.completed && Step(s, e).delivered == s.delivered
  {
    hide DeliveryInv, CompletedInv;
    if s.strand != [] {
      RunStrand(s.strand);
    }
  }

  lemma RunEnabled(s: State)
    requires Inv(s)
    ensures Enabled(s, Run) <==> s.strand != []
    ensures s.phase != Idle ==> s.queue != []
  {}

  lemma StepKeepsPosted(s: State)
    requires Enabled(s, Run)
    ensures Step(s, Run).posted == s.posted
  {}

  /** A fixed receive and a message of another size. */
  function RefusingRun(size: nat, message: Payload): seq<Event> {
    [Post(RecvFixed(size)), Run, Arrives(message), HeaderRead]
  }

  lemma RunOne(s: State, e: Event, es: seq<Event>)
    requires Enabled(s, e) && Feasible(Step(s, e), es)
    ensures Feasible(s, [e] + es) && After(s, [e] + es) == After(Step(s, e), es)
    ensures SomeQueuedBehindClose(s, [e] + es) <==> QueuesBehindClose(s, e) || SomeQueuedBehindClose(Step(s, e), es)
  {
    assert ([e] + es)[1..] == es;
    hide Enabled, Step, QueuesBehindClose;
  }

  /** A header step goes on to the body for every message when the buffer is resizable, and otherwise
      exactly when the message has the size of the buffer; nothing else changes. */
  lemma HeaderStep(s: State)
    requires Inv(s) && Enabled(s, HeaderRead)
    ensures var op, size := s.queue[0], |s.stream[|s.delivered|]|;
            && op != CloseRecv
            && Step(s, HeaderRead) ==
                 s.(phase := match op case RecvResizable => ReadingBody
                                      case RecvFixed(n) => if n == size then ReadingBody else Refused
                                      case CloseRecv => s.phase)
  {}

  /** A receive and a message that it takes. */
  function AcceptingRun(op: RecvOp, message: Payload): seq<Event> {
    [Post(op), Run, Arrives(message), HeaderRead, BodyRead, Run]
  }

  lemma AcceptingSteps(op: RecvOp, message: Payload) returns (s3: State, s4: State, s5: State, s6: State)
    requires op == RecvResizable || (op == RecvFixed(|message|) && 0 < |message|)
    ensures Feasible(s3, []) && s3.posted == [op]
    ensures var run := [Post(op)] + ([Run] + [Arrives(message)]); Feasible(EMPTY, run) && After(EMPTY, run) == s3
    ensures Enabled(s3, HeaderRead) && s4 == Step(s3, HeaderRead) && Enabled(s4, BodyRead) && s5 == Step(s4, BodyRead)
    ensures Enabled(s5, Run) && s6 == Step(s5, Run) && s6.delivered == [message] && s6.completed == [op]
    ensures s6.phase == Idle && s6.queue == [] && s6.strand == [] && s6.posted == [op]
  {
    var s1 := Step(EMPTY, Post(op));
    assert s1.strand == [Enqueue(op)];
    var s2 := Step(s1, Run);
    assert s2.queue == [op] && s2.strand == [];
    s3 := Step(s2, Arrives(message));
    assert s3.stream == [message];
    s4 := Step(s3, HeaderRead);
    s5 := Step(s4, BodyRead);
    assert s5.strand == [PopFront];
    s6 := Step(s5, Run);
    hide Step, QueuesBehindClose, Enabled;
    RunOne(s2, Arrives(message), []);
    assert [Arrives(message)] + [] == [Arrives(message)];
    RunOne(s1, Run, [Arrives(message)]);
    RunOne(EMPTY, Post(op), [Run] + [Arrives(message)]);
  }

  lemma {:induction false} RunJoin(s: State, es: seq<Event>, more: seq<Event>)
    requires Feasible(s, es) && Feasible(After(s, es), more)
    ensures Feasible(s, es + more) && After(s, es + more) == After(After(s, es), more)
    decreases |es|
  {
    hide Step, Enabled;
    if es == [] {
      assert es + more == more;
    } else {
      RunJoin(Step(s, es[0]), es[1..], more);
      assert (es + more)[1..] == es[1..] + more;
    }
  }

  /** Such a run delivers the message and completes the receive, in a resizable buffer whatever the size. */
  lemma AcceptingRunAccepts(op: RecvOp, message: Payload)
    requires op == RecvResizable || (op == RecvFixed(|message|) && 0 < |message|)
    ensures Feasible(EMPTY, AcceptingRun(op, message))
    ensures var s := After(EMPTY, AcceptingRun(op, message));
            && s.delivered == [message] && s.completed == s.posted == [op]
            && s.phase == Idle && s.queue == [] && Standstill(s)
  {
    var s3, s4, s5, s6 := AcceptingSteps(op, message);
    assert Standstill(s6);
    hide Step, Enabled, QueuesBehindClose, Standstill;
    RunOne(s5, Run, []);
    assert [Run] + [] == [Run];
    RunOne(s4, BodyRead, [Run]);
    RunOne(s3, HeaderRead, [BodyRead] + [Run]);
    var front, back := [Post(op)] + ([Run] + [Arrives(message)]), [HeaderRead] + ([BodyRead] + [Run]);
    hide Feasible, After, SomeQueuedBehindClose;
    RunJoin(EMPTY, front, back);
    assert front + back == AcceptingRun(op, message);
  }

  /** Such a run ends in the refusal that RefusedForever is about. */
  lemma RefusingRunRefuses(size: nat, message: Payload)
    requires 0 < size && size != |message|
    ensures Feasible(EMPTY, RefusingRun(size, message))
    ensures var s := After(EMPTY, RefusingRun(size, message));
            s.phase == Refused && s.completed == [] && s.delivered == [] && s.posted == [RecvFixed(size)]
  {
    var s1 := Step(EMPTY, Post(RecvFixed(size)));
    assert s1.strand == [Enqueue(RecvFixed(size))];
    var s2 := Step(s1, Run);
    assert s2.queue == [RecvFixed(size)] && s2.strand == [];
    var s3 := Step(s2, Arrives(message));
    assert s3.stream == [message];
    var s4 := Step(s3, HeaderRead);
    hide Step, QueuesBehindClose;
    RunOne(s3, HeaderRead, []);
    RunOne(s2, Arrives(message), [HeaderRead]);
    RunOne(s1, Run, [Arrives(message), HeaderRead]);
    RunOne(EMPTY, Post(RecvFixed(size)), [Run, Arrives(message), HeaderRead]);
    assert [Arrives(message)] + [HeaderRead] == [Arrives(message), HeaderRead];
    assert [Run] + [Arrives(message), HeaderRead] == [Run, Arrives(message), HeaderRead];
    assert [Post(RecvFixed(size))] + [Run, Arrives(message), HeaderRead] == RefusingRun(size, message);
  }

  // ----- operations behind a close -----

  /** Something is queued and nothing is under way that could start it. */
  predicate Stalled(s: State) {
    s.queue != [] && !Busy(s)
  }

  lemma StalledStep(s: State, e: Event)
    requires Stalled(s) && Enabled(s, e)
    ensures Stalled(Step(s, e)) && Step(s, e).delivered == s.delivered && Step(s, e).completed == s.completed
  {
    hide Pending, RecvOp.Size;
    if e.Post? {
      StrandAppend(s.strand, Enqueue(e.op));
    } else if e.Run? {
      RunStrand(s.strand);
    }
  }

  /** From a stalled state nothing is ever delivered or completed again. */
  lemma {:induction false} StalledForever(s: State, es: seq<Event>)
    requires Stalled(s) && Feasible(s, es)
    ensures var t := After(s, es); Stalled(t) && t.delivered == s.delivered && t.completed == s.completed
    decreases |es|
  {
    if es != [] {
      StalledStep(s, es[0]);
      hide Stalled, Step, Enabled;
      StalledForever(Step(s, es[0]), es[1..]);
    }
  }

  /** The step puts an operation into a queue in which a close is waiting. */
  predicate QueuesBehindClose(s: State, e: Event) {
    e.Run? && s.strand != [] && s.strand[0].Enqueue? && CloseRecv in s.queue
  }

  predicate SomeQueuedBehindClose(s: State, es: seq<Event>)
    requires Feasible(s, es)
    decreases |es|
  {
    es != [] && (QueuesBehindClose(s, es[0]) || SomeQueuedBehindClose(Step(s, es[0]), es[1..]))
  }

  /** Stalled already, or about to be: a close is waiting with something behind it. */
  ghost predicate Doomed(s: State) {
    Stalled(s) || Inside(s.queue, CloseRecv)
  }

  lemma RunEnqueueDooms(s: State)
    requires Inv(s) && Enabled(s, Run) && s.strand[0].Enqueue?
    ensures Doomed(Step(s, Run)) <==> Doomed(s) || CloseRecv in s.queue
  {
    RunStrand(s.strand);
    hide Inside, DeliveryInv, CompletedInv, Pending, RecvOp.Size;
    InsideAppend(s.queue, s.strand[0].op, CloseRecv);
    InsideIn(s.queue, CloseRecv);
    InsideIn([], CloseRecv);
    Shapes(s.queue, s.strand[0].op);
  }

  lemma RunPopDooms(s: State)
    requires Inv(s) && Enabled(s, Run) && s.strand[0].PopFront?
    ensures Doomed(Step(s, Run)) <==> Doomed(s)
  {
    PopFacts(s);
    assert s.queue[0] != CloseRecv && Busy(s);
    if |s.queue| > 1 {
      InsideRest(s.queue, CloseRecv);
      InsideIn(s.queue[2..], CloseRecv);
    }
    Shapes(s.queue, CloseRecv);
    hide Inv, Pending;
  }

  lemma StepDooms(s: State, e: Event)
    requires Inv(s) && Enabled(s, e)
    ensures Doomed(Step(s, e)) <==> Doomed(s) || QueuesBehindClose(s, e)
  {
    match e {
      case Post(op) => StrandAppend(s.strand, Enqueue(op));
      case Arrives(message) =>
      case HeaderRead =>
      case BodyRead => StrandAppend(s.strand, PopFront);
      case Run => if s.strand[0].Enqueue? { RunEnqueueDooms(s); } else { RunPopDooms(s); }
    }
  }

  lemma {:induction false} RunDooms(s: State, es: seq<Event>)
    requires Inv(s) && Feasible(s, es)
    ensures Doomed(After(s, es)) <==> Doomed(s) || SomeQueuedBehindClose(s, es)
    decreases |es|
  {
    hide Inv, Enabled, Step, Doomed, QueuesBehindClose;
    if es != [] {
      StepInv(s, es[0]);
      StepDooms(s, es[0]);
      RunDooms(Step(s, es[0]), es[1..]);
    }
  }

  ghost predicate Standstill(s: State) {
    !Enabled(s, Run) && !Enabled(s, HeaderRead) && !Enabled(s, BodyRead)
  }

  lemma DoomedAtStandstill(s: State)
    requires Inv(s) && Standstill(s)
    ensures s.phase == Idle || s.phase == Refused || (s.phase == ReadingHeader && s.delivered == s.stream)
    ensures s.phase == Idle ==> (Doomed(s) <==> Stalled(s)) && (Stalled(s) <==> s.completed != s.posted)
    ensures s.phase != Idle ==> s.completed != s.posted
  {
    RunEnabled(s);
    assert s.done + [] == s.done && s.done + s.queue + [] == s.done + s.queue;
  }

  /** Main result: when nothing can happen any more, a message is missing, or one of the wrong size was
      refused, or everything dispatched completed if and only if no operation was ever queued while a
      close was waiting in the queue. */
  lemma StandstillIff(es: seq<Event>)
    requires Feasible(EMPTY, es) && Standstill(After(EMPTY, es))
    ensures var s := After(EMPTY, es);
            && (s.phase == Idle || s.phase == Refused || (s.phase == ReadingHeader && s.delivered == s.stream))
            && (s.completed == s.posted <==> s.phase == Idle && !SomeQueuedBehindClose(EMPTY, es))
  {
    InitInv();
    RunInv(EMPTY, es);
    RunDooms(EMPTY, es);
    assert !Doomed(EMPTY);
    DoomedAtStandstill(After(EMPTY, es));
    hide Feasible, After, Inv;
  }

  /** Every receive dispatched has a message at its place in the stream, of the size it asked for. */
  ghost predicate AllFit(ops: seq<RecvOp>, stream: seq<Payload>) {
    && |DataOps(ops)| <= |stream|
    && forall i :: 0 <= i < |DataOps(ops)| ==> DataOps(ops)[i] == RecvResizable || DataOps(ops)[i] == RecvFixed(|stream[i]|)
  }

  /** While a receive is under way it is the one whose turn it is in the stream. */
  lemma FrontIsNext(s: State)
    requires Inv(s) && s.phase != Idle
    ensures |s.delivered| < |DataOps(s.posted)| && s.queue != [] && DataOps(s.posted)[|s.delivered|] == s.queue[0]
  {
    hide Pending, Pops, DataOps;
    var n := |s.done|;
    assert s.done + [] == s.done;
    assert s.posted[..n + 1] == s.done + [s.queue[0]];
    DataOpsAppend(s.done, s.queue[0]);
    DataOpsPrefix(s.posted, n + 1);
  }

  lemma PhaseDecidesFit(s: State)
    requires Inv(s)
    ensures s.phase == Refused || (s.phase == ReadingHeader && s.delivered == s.stream) ==> !AllFit(s.posted, s.stream)
    ensures s.completed == s.posted ==> AllFit(s.posted, s.stream)
  {
    hide QueueInv, CompletedInv, DataOps;
    if s.phase != Idle {
      FrontIsNext(s);
    }
  }

  /** Main result, in terms of what was dispatched and what arrived: at a standstill everything
      dispatched has completed if and only if nothing was queued while a close was waiting, there is a
      message for every receive, and each has the size of its buffer. */
  lemma CompletesIff(es: seq<Event>)
    requires Feasible(EMPTY, es) && Standstill(After(EMPTY, es))
    ensures var s := After(EMPTY, es);
            s.completed == s.posted <==> !SomeQueuedBehindClose(EMPTY, es) && AllFit(s.posted, s.stream)
  {
    InitInv();
    RunInv(EMPTY, es);
    StandstillIff(es);
    PhaseDecidesFit(After(EMPTY, es));
    hide Feasible, After, Inv, AllFit;
  }

  /** A receive of the wrong size refuses whatever else happens: no standstill of such a run is complete,
      a close behind it included. */
  lemma WrongSizeNeverCompletes(es: seq<Event>, i: nat)
    requires Feasible(EMPTY, es)
    requires var s := After(EMPTY, es);
             && i < |DataOps(s.posted)| && i < |s.stream|
             && DataOps(s.posted)[i] != RecvResizable && DataOps(s.posted)[i] != RecvFixed(|s.stream[i]|)
    ensures After(EMPTY, es).completed != After(EMPTY, es).posted && |After(EMPTY, es).delivered| <= i
  {
    InitInv();
    RunInv(EMPTY, es);
    var s := After(EMPTY, es);
    PhaseDecidesFit(s);
    InOrder(s);
    hide Feasible, After, Inv;
  }

  // ----- the counter -----

  /** The bytes asked for by receives of fixed size. */
  function BytesAsked(ops: seq<RecvOp>): nat {
    if ops == [] then 0 else
    BytesAsked(ops[..|ops| - 1]) + match ops[|ops| - 1] { case RecvFixed(size) => size case _ => 0 }
  }

  lemma BytesAppend(ops: seq<RecvOp>, op: RecvOp)
    ensures BytesAsked(ops + [op]) == BytesAsked(ops) + op.Size()
  {
    assert (ops + [op])[..|ops|] == ops;
  }

  ghost predicate TotalOk(s: State) {
    s.total == BytesAsked(s.done + s.queue) % U64
  }

  lemma AddMod(a: nat, b: nat)
    ensures (a % U64 + b) % U64 == (a + b) % U64
  {
    var q := a / U64;
    assert a % U64 + b == (a + b) - U64 * q;
    var d, r := (a + b) / U64, (a + b) % U64;
    assert a % U64 + b == U64 * (d - q) + r;
    var d', r' := (a % U64 + b) / U64, (a % U64 + b) % U64;
    assert U64 * (d - q - d') == r' - r;
  }

  /** What left the queue and what is in it: an enqueue adds its operation, nothing else does. */
  lemma EnqueueKeepsAll(s: State)
    requires Enabled(s, Run) && s.strand[0].Enqueue?
    ensures var t := Step(s, Run);
            t.done + t.queue == s.done + s.queue + [s.strand[0].op] && t.total == (s.total + s.strand[0].op.Size()) % U64
  {
    var op := s.strand[0].op;
    assert s.done + (s.queue + [op]) == s.done + s.queue + [op];
    if s.queue == [] {
      assert s.queue + [op] == [op] && [op][1..] == [];
    }
    hide RecvOp.Size;
  }

  lemma PopKeepsAll(s: State)
    requires Enabled(s, Run) && s.strand[0].PopFront?
    ensures var t := Step(s, Run); t.done + t.queue == s.done + s.queue && t.total == s.total
  {
    var rest := s.queue[1..];
    assert s.queue == [s.queue[0]] + rest;
    assert s.done + s.queue == s.done + [s.queue[0]] + rest;
    if rest != [] {
      assert rest == [rest[0]] + rest[1..];
    }
  }

  lemma OtherKeepsAll(s: State, e: Event)
    requires Enabled(s, e) && !e.Run?
    ensures var t := Step(s, e); t.done == s.done && t.queue == s.queue && t.total == s.total
  {}

  lemma StepTotal(s: State, e: Event)
    requires TotalOk(s) && Enabled(s, e)
    ensures TotalOk(Step(s, e))
  {
    hide BytesAsked, RecvOp.Size, Step;
    if !e.Run? {
      OtherKeepsAll(s, e);
    } else if s.strand[0].Enqueue? {
      var all, op := s.done + s.queue, s.strand[0].op;
      EnqueueKeepsAll(s);
      BytesAppend(all, op);
      AddMod(BytesAsked(all), op.Size());
    } else {
      PopKeepsAll(s);
    }
  }

  /** After any run the counter is the number of bytes asked for by the fixed receives queued so far. */
  lemma {:induction false} TotalCounts(s: State, es: seq<Event>)
    requires TotalOk(s) && Feasible(s, es)
    ensures TotalOk(After(s, es))
    decreases |es|
  {
    if es != [] {
      StepTotal(s, es[0]);
      hide TotalOk, Step, Enabled;
      TotalCounts(Step(s, es[0]), es[1..]);
    }
  }

  // ----- what the mStopped gate is for -----

  ghost predicate CloseIsLast(ops: seq<RecvOp>) {
    forall i :: 0 <= i < |ops| - 1 ==> ops[i] != CloseRecv
  }

  lemma PostedGrowsStep(s: State, e: Event)
    requires Enabled(s, e)
    ensures s.posted <= Step(s, e).posted
  {}

  lemma {:induction false} PostedGrows(s: State, es: seq<Event>)
    requires Feasible(s, es)
    ensures s.posted <= After(s, es).posted
    decreases |es|
  {
    if es != [] {
      PostedGrowsStep(s, es[0]);
      hide Step, Enabled;
      PostedGrows(Step(s, es[0]), es[1..]);
    }
  }

  /** An operation about to be queued behind a close was dispatched behind it. */
  lemma BehindCloseWasPosted(s: State, later: seq<RecvOp>)
    requires Inv(s) && QueuesBehindClose(s, Run) && s.posted <= later
    ensures !CloseIsLast(later)
  {
    var i :| 0 <= i < |s.queue| && s.queue[i] == CloseRecv;
    RunStrand(s.strand);
    assert s.posted[|s.done| + i] == CloseRecv;
    assert later[|s.done| + i] == CloseRecv && |s.done| + i < |later| - 1;
  }

  /** If no operation is dispatched after a close, none is queued behind one. */
  lemma {:induction false} GateSuffices(s: State, es: seq<Event>)
    requires Inv(s) && Feasible(s, es) && CloseIsLast(After(s, es).posted)
    ensures !SomeQueuedBehindClose(s, es)
    decreases |es|
  {
    if es != [] {
      StepInv(s, es[0]);
      PostedGrows(s, es);
      if QueuesBehindClose(s, es[0]) {
        BehindCloseWasPosted(s, After(s, es).posted);
      }
      hide Inv, Step, Enabled, CloseIsLast;
      GateSuffices(Step(s, es[0]), es[1..]);
    }
  }

  /** With the gate in place everything dispatched has completed at a standstill, unless a message is
      missing or one of the wrong size was refused. */
  lemma NothingIsForgotten(es: seq<Event>)
    requires Feasible(EMPTY, es) && Standstill(After(EMPTY, es)) && CloseIsLast(After(EMPTY, es).posted)
    ensures var s := After(EMPTY, es);
            && (s.completed == s.posted || s.phase == Refused || (s.phase == ReadingHeader && s.delivered == s.stream))
            && (s.completed == s.posted <==> AllFit(s.posted, s.stream))
  {
    hide AllFit, Feasible, After;
    InitInv();
    GateSuffices(EMPTY, es);
    StandstillIff(es);
    CompletesIff(es);
  }
}
