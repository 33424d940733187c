/** The sending direction of a socket: dispatch and sendOne of cryptoTools/Network/BtIOService.cpp as
    the steps of a state machine.  A strand runs the handlers posted to it one after the other. */
module SendQueue {
  import opened Blocks
  import opened Strand

  const U64: nat := 0x1_0000_0000_0000_0000

  type Payload = seq<Byte>

  datatype SendOp = SendData(payload: Payload) | CloseSend {
    function Size(): nat {
      if SendData? then |payload| else 0
    }
  }

  /** The fields of BtSocket that sending uses, the handlers waiting in the strand, whether an
      async_write is under way, and four logs: the operations dispatched, those that left the queue, the
      messages handed to async_write, and the operations whose completion was signalled. */
  datatype State = State(strand: seq<Handler<SendOp>>, queue: seq<SendOp>, writing: bool,
                         outstanding: nat, maxOutstanding: nat, total: nat,
                         posted: seq<SendOp>, done: seq<SendOp>, wire: seq<Payload>, completed: seq<SendOp>)

  const EMPTY: State := State([], [], false, 0, 0, 0, [], [], [], [])

  // ----- the steps -----

  /** sendOne */
  function SendOne(s: State): State
    requires s.queue != []
  {
    match s.queue[0]
    case SendData(payload) => s.(writing := true, wire := s.wire + [payload])
    case CloseSend => s.(queue := s.queue[1..], done := s.done + [CloseSend], completed := s.completed + [CloseSend])
  }

  function Max(a: nat, b: nat): nat {
    if a < b then b else a
  }

  function AddU64(a: nat, b: nat): nat {
    (a + b) % U64
  }

  /** The handler that dispatch posts to the send strand. */
  function RunEnqueue(s: State, op: SendOp): State {
    var t := Queued(s, op);
    if |t.queue| == 1 then SendOne(t) else t
  }

  function Queued(s: State, op: SendOp): State {
    var outstanding := AddU64(s.outstanding, op.Size());
    s.(queue := s.queue + [op], total := AddU64(s.total, op.Size()), outstanding := outstanding,
       maxOutstanding := Max(outstanding, s.maxOutstanding))
  }

  /** The handler that the completion of a write dispatches to the send strand. */
  function RunPop(s: State): State
    requires s.queue != []
  {
    var t := s.(queue := s.queue[1..], done := s.done + [s.queue[0]]);
    if t.queue != [] then SendOne(t) else t
  }

  datatype Event = Post(op: SendOp) | Run | Complete

  /** dispatch refuses empty messages; the strand runs its first handler; a write completes. */
  predicate Enabled(s: State, e: Event) {
    match e
    case Post(op) => op.CloseSend? || 0 < op.Size()
    case Run => s.strand != [] && (s.strand[0].PopFront? ==> s.queue != [])
    case Complete => s.writing && s.queue != []
  }

  function Step(s: State, e: Event): State
    requires Enabled(s, e)
  {
    match e
    case Post(op) => s.(strand := s.strand + [Enqueue(op)], posted := s.posted + [op])
    case Run =>
      var t := s.(strand := s.strand[1..]);
      if s.strand[0].Enqueue? then RunEnqueue(t, s.strand[0].op) else RunPop(t)
    case Complete =>
      s.(writing := false, outstanding := (s.outstanding - s.queue[0].Size()) % U64,
         completed := s.completed + [s.queue[0]], strand := s.strand + [PopFront])
  }

  // ----- the invariant -----

  function Sizes(ops: seq<SendOp>): nat {
    if ops == [] then 0 else Sizes(ops[..|ops| - 1]) + ops[|ops| - 1].Size()
  }

  function Payloads(ops: seq<SendOp>): seq<Payload> {
    if ops == [] then [] else
    var rest := Payloads(ops[..|ops| - 1]);
    var last := ops[|ops| - 1];
    if last.SendData? then rest + [last.payload] else rest
  }

  /** A write is under way, or finished but not yet popped. */
  predicate Busy(s: State) {
    s.writing || Pops(s.strand) > 0
  }

  ghost predicate QueueInv(s: State) {
    && Pops(s.strand) <= 1 && !(s.writing && Pops(s.strand) == 1)
    && s.posted == s.done + s.queue + Pending(s.strand)
    && (Busy(s) ==> s.queue != [] && s.queue[0].SendData?)
  }

  /** The front of the queue while it is busy. */
  function Started(s: State): seq<SendOp> {
    if Busy(s) && s.queue != [] then [s.queue[0]] else []
  }

  ghost predicate WireInv(s: State) {
    s.wire == Payloads(s.done + Started(s))
  }

  ghost predicate CompletedInv(s: State) {
    s.completed == s.done + if Pops(s.strand) > 0 && s.queue != [] then [s.queue[0]] else []
  }

  /** The operations in the queue whose write has not completed. */
  function NotCompleted(s: State): seq<SendOp> {
    if Pops(s.strand) > 0 && s.queue != [] then s.queue[1..] else s.queue
  }

  ghost predicate CountInv(s: State) {
    s.total == (Sizes(s.done) + Sizes(s.queue)) % U64 && s.outstanding == Sizes(NotCompleted(s)) % U64
  }

  /** In every reachable state: at most one write is under way and it is that of the front of the
      queue; what left the queue, what is queued and what still waits in the strand are consecutive
      stretches of the operations in the order they were dispatched; the wire has their payloads in the
      same order; and the counters are the sums they stand for. */
  ghost predicate Inv(s: State) {
    QueueInv(s) && WireInv(s) && CompletedInv(s) && CountInv(s)
  }

  lemma InitInv()
    ensures Inv(EMPTY)
  {}

  lemma PostInv(s: State, op: SendOp)
    requires Inv(s) && Enabled(s, Post(op))
    ensures Inv(Step(s, Post(op)))
  {
    hide Pending, Pops, Sizes, Payloads;
    StrandAppend(s.strand, Enqueue(op));
    assert s.posted + [op] == s.done + s.queue + (Pending(s.strand) + [op]);
  }

  lemma CompleteInv(s: State)
    requires Inv(s) && Enabled(s, Complete)
    ensures Inv(Step(s, Complete))
  {
    hide Pending, Pops, Sizes, Payloads;
    StrandAppend(s.strand, PopFront);
    SizesFront(s.queue);
    SubtractMod(Sizes(s.queue), s.queue[0].Size());
  }

  lemma {:induction false} SizesSplit(ops: seq<SendOp>, more: seq<SendOp>)
    ensures Sizes(ops + more) == Sizes(ops) + Sizes(more)
    decreases |more|
  {
    if more == [] {
      assert ops + more == ops;
    } else {
      var n := |more| - 1;
      SizesSplit(ops, more[..n]);
      assert (ops + more)[..|ops + more| - 1] == ops + more[..n];
    }
  }

  lemma SizesOne(op: SendOp)
    ensures Sizes([op]) == op.Size()
  {
    assert [op][..0] == [] && Sizes([]) == 0;
  }

  lemma SizesFront(ops: seq<SendOp>)
    requires ops != []
    ensures Sizes(ops) == ops[0].Size() + Sizes(ops[1..])
  {
    hide Sizes;
    assert ops == [ops[0]] + ops[1..];
    SizesSplit([ops[0]], ops[1..]);
    SizesOne(ops[0]);
  }

  lemma SizesAppend(ops: seq<SendOp>, op: SendOp)
    ensures Sizes(ops + [op]) == Sizes(ops) + op.Size()
  {
    hide Sizes;
    SizesSplit(ops, [op]);
    SizesOne(op);
  }

  /** How many bytes the messages have. */
  function Bytes(messages: seq<Payload>): nat {
    if messages == [] then 0 else Bytes(messages[..|messages| - 1]) + |messages[|messages| - 1]|
  }

  /** The counters count the bytes of the messages. */
  lemma {:induction false} SizesAreBytes(ops: seq<SendOp>)
    ensures Sizes(ops) == Bytes(Payloads(ops))
  {
    if ops != [] {
      var n := |ops| - 1;
      SizesAreBytes(ops[..n]);
      if ops[n].SendData? {
        var rest, last := Payloads(ops[..n]), ops[n].payload;
        assert (rest + [last])[..|rest|] == rest;
      }
    }
  }

  lemma PayloadsAppend(ops: seq<SendOp>, op: SendOp)
    ensures Payloads(ops + [op]) == Payloads(ops) + if op.SendData? then [op.payload] else []
  {
    assert (ops + [op])[..|ops|] == ops;
  }

  lemma SubtractMod(a: int, b: int)
    ensures (a % U64 - b) % U64 == (a - b) % U64
    ensures (a % U64 + b) % U64 == (a + b) % U64
  {
    var q := a / U64;
    assert a % U64 - b == (a - b) - U64 * q;
    ModShift(a - b, q);
    ModShift(a + b, q);
  }

  lemma ModShift(a: int, q: int)
    ensures (a - U64 * q) % U64 == a % U64
  {
    var d, r := a / U64, a % U64;
    assert a - U64 * q == U64 * (d - q) + r;
    var d', r' := (a - U64 * q) / U64, (a - U64 * q) % U64;
    assert U64 * (d - q - d') == r' - r;
  }

  // ----- running the strand -----

  lemma EnqueueCounts(s: State, op: SendOp)
    requires CountInv(s)
    ensures (s.total + op.Size()) % U64 == (Sizes(s.done) + Sizes(s.queue + [op])) % U64
    ensures (s.outstanding + op.Size()) % U64 == Sizes(NotCompleted(s) + [op]) % U64
  {
    hide Sizes, NotCompleted;
    SizesAppend(s.queue, op);
    SizesAppend(NotCompleted(s), op);
    SubtractMod(Sizes(s.done) + Sizes(s.queue), op.Size());
    SubtractMod(Sizes(NotCompleted(s)), op.Size());
  }

  lemma SecondIsClose(queue: seq<SendOp>)
    requires |queue| > 1 && queue[1].CloseSend?
    ensures queue[1..] == [CloseSend] + queue[2..]
  {}

  lemma EnqueueBehindInv(s: State)
    requires Inv(s) && Enabled(s, Run) && s.strand[0].Enqueue? && s.queue != []
    ensures Inv(Step(s, Run))
  {
    hide Pending, Pops, Sizes, Payloads, Step, RunEnqueue;
    var op := s.strand[0].op;
    var t := Step(s, Run);
    EnqueueAppends(s);
    RunStrand(s.strand);
    FrontStays(s.queue, op);
    assert QueueInv(t) by {
      Regroup(s.done, s.queue, op, Pending(t.strand));
    }
    hide QueueInv;
    assert CountInv(t) by {
      EnqueueCounts(s, op);
      NotCompletedAppends(s, t, op);
    }
  }

  lemma FrontStays(queue: seq<SendOp>, op: SendOp)
    requires queue != []
    ensures (queue + [op])[0] == queue[0] && queue + [op] != []
  {}

  lemma NotCompletedAppends(s: State, t: State, op: SendOp)
    requires s.queue != [] && t.queue == s.queue + [op] && Pops(t.strand) == Pops(s.strand)
    ensures NotCompleted(t) == NotCompleted(s) + [op]
  {
    hide Pops;
  }

  lemma EnqueueAppends(s: State)
    requires Enabled(s, Run) && s.strand[0].Enqueue? && s.queue != []
    ensures var op := s.strand[0].op; var t := Step(s, Run);
            && t.strand == s.strand[1..] && t.queue == s.queue + [op] && t.writing == s.writing
            && t.posted == s.posted && t.done == s.done && t.wire == s.wire && t.completed == s.completed
            && t.total == (s.total + op.Size()) % U64 && t.outstanding == (s.outstanding + op.Size()) % U64
  {}

  lemma EnqueueCloses(s: State)
    requires Enabled(s, Run) && s.strand[0].Enqueue? && s.queue == [] && s.strand[0].op.CloseSend?
    ensures var t := Step(s, Run);
            && t.strand == s.strand[1..] && t.queue == [] && t.writing == s.writing
            && t.posted == s.posted && t.done == s.done + [CloseSend] && t.wire == s.wire
            && t.completed == s.completed + [CloseSend]
            && t.total == s.total % U64 && t.outstanding == s.outstanding % U64
  {
    assert [] + [CloseSend] == [CloseSend] && [CloseSend][1..] == [];
  }

  lemma PopCloses(s: State)
    requires Enabled(s, Run) && s.strand[0].PopFront? && |s.queue| > 1 && s.queue[1].CloseSend?
    ensures var t := Step(s, Run);
            && t.strand == s.strand[1..] && t.queue == s.queue[2..] && t.writing == s.writing
            && t.posted == s.posted && t.done == s.done + [s.queue[0]] + [CloseSend] && t.wire == s.wire
            && t.completed == s.completed + [CloseSend]
            && t.total == s.total && t.outstanding == s.outstanding
  {
    assert s.queue[1..][1..] == s.queue[2..] && s.queue[1..][0] == s.queue[1];
  }

  lemma EnqueueStarts(s: State)
    requires Enabled(s, Run) && s.strand[0].Enqueue? && s.queue == [] && s.strand[0].op.SendData?
    ensures var op := s.strand[0].op; var t := Step(s, Run);
            && t.strand == s.strand[1..] && t.queue == [op] && s.queue + [op] == [op] && t.writing
            && t.posted == s.posted && t.done == s.done && t.wire == s.wire + [op.payload] && t.completed == s.completed
            && t.total == (s.total + op.Size()) % U64 && t.outstanding == (s.outstanding + op.Size()) % U64
  {
    assert s.queue + [s.strand[0].op] == [s.strand[0].op];
  }

  lemma EnqueueIdleDataInv(s: State)
    requires Inv(s) && Enabled(s, Run) && s.strand[0].Enqueue? && s.queue == [] && s.strand[0].op.SendData?
    ensures Inv(Step(s, Run))
  {
    var op := s.strand[0].op;
    var t := Step(s, Run);
    EnqueueStarts(s);
    EnqueueCounts(s, op);
    IdleFacts(s);
    RunStrand(s.strand);
    IdleNotCompleted(s);
    hide Inv, Pending, Pops, Sizes, Payloads, Step, RunEnqueue;
    Regroup(s.done, [], op, Pending(t.strand));
    DataStarted(t, op);
  }

  lemma IdleNotCompleted(s: State)
    requires s.queue == []
    ensures forall op :: NotCompleted(s) + [op] == [op]
  {}

  /** What holds when the write of the front was started. */
  lemma DataStarted(t: State, op: SendOp)
    requires op.SendData? && t.queue != [] && t.queue[0] == op && t.writing && Pops(t.strand) == 0
    requires t.completed == t.done && t.wire == Payloads(t.done) + [op.payload] && t.posted == t.done + t.queue + Pending(t.strand)
    requires t.total == (Sizes(t.done) + Sizes(t.queue)) % U64 && t.outstanding == Sizes(t.queue) % U64
    ensures Inv(t)
  {
    hide Pending, Pops, Sizes, Payloads;
    assert t.done + [] == t.done;
    PayloadsAppend(t.done, op);
  }

  /** What holds when nothing is under way. */
  lemma NothingUnderWay(t: State, done: seq<SendOp>)
    requires Pops(t.strand) == 0 && !t.writing && t.done == done && t.completed == done && t.wire == Payloads(done)
    requires t.posted == done + t.queue + Pending(t.strand)
    requires t.total == (Sizes(done) + Sizes(t.queue)) % U64 && t.outstanding == Sizes(t.queue) % U64
    ensures Inv(t)
  {
    hide Pending, Pops, Sizes, Payloads;
    assert done + [] == done;
  }

  lemma SizesNone()
    ensures Sizes([]) == 0
  {}

  lemma PopFacts(s: State)
    requires Inv(s) && Enabled(s, Run) && s.strand[0].PopFront?
    ensures Pending(s.strand) == Pending(s.strand[1..]) && Pops(s.strand[1..]) == 0 && Pops(s.strand) == 1 && !s.writing
    ensures var done := s.done + [s.queue[0]];
            && s.posted == done + s.queue[1..] + Pending(s.strand[1..]) && s.completed == done && s.wire == Payloads(done)
            && Sizes(done) + Sizes(s.queue[1..]) == Sizes(s.done) + Sizes(s.queue)
            && s.total == (Sizes(done) + Sizes(s.queue[1..])) % U64 && s.outstanding == Sizes(s.queue[1..]) % U64
  {
    hide Pending, Pops, Sizes, Payloads;
    RunStrand(s.strand);
    SizesAppend(s.done, s.queue[0]);
    SizesFront(s.queue);
    assert s.done + s.queue == s.done + [s.queue[0]] + s.queue[1..];
  }

  lemma PopEmpties(s: State)
    requires Enabled(s, Run) && s.strand[0].PopFront? && |s.queue| == 1
    ensures var t := Step(s, Run);
            && t.strand == s.strand[1..] && t.queue == [] && s.queue[1..] == [] && t.writing == s.writing
            && t.posted == s.posted && t.done == s.done + [s.queue[0]] && t.wire == s.wire
            && t.completed == s.completed && t.total == s.total && t.outstanding == s.outstanding
  {}

  lemma PopToEmptyInv(s: State)
    requires Inv(s) && Enabled(s, Run) && s.strand[0].PopFront? && |s.queue| == 1
    ensures Inv(Step(s, Run))
  {
    PopFacts(s);
    PopEmpties(s);
    hide Inv, Pending, Pops, Sizes, Payloads, Step, RunPop;
    NothingUnderWay(Step(s, Run), s.done + [s.queue[0]]);
  }

  lemma PopStarts(s: State)
    requires Enabled(s, Run) && s.strand[0].PopFront? && |s.queue| > 1 && s.queue[1].SendData?
    ensures var t := Step(s, Run);
            && t.strand == s.strand[1..] && t.queue == s.queue[1..] && t.queue[0] == s.queue[1] && t.writing
            && t.posted == s.posted && t.done == s.done + [s.queue[0]] && t.wire == s.wire + [s.queue[1].payload]
            && t.completed == s.completed && t.total == s.total && t.outstanding == s.outstanding
  {}

  lemma PopToDataInv(s: State)
    requires Inv(s) && Enabled(s, Run) && s.strand[0].PopFront? && |s.queue| > 1 && s.queue[1].SendData?
    ensures Inv(Step(s, Run))
  {
    PopFacts(s);
    PopStarts(s);
    hide Inv, Pending, Pops, Sizes, Payloads, Step, RunPop;
    DataStarted(Step(s, Run), s.queue[1]);
  }

  lemma CloseHasNoSize(done: seq<SendOp>, queue: seq<SendOp>)
    requires |queue| > 1 && queue[1].CloseSend?
    ensures Sizes(done + [CloseSend]) == Sizes(done) && Sizes(queue[2..]) == Sizes(queue[1..])
    ensures Payloads(done + [CloseSend]) == Payloads(done)
  {
    hide Sizes, Payloads;
    SizesAppend(done, CloseSend);
    PayloadsAppend(done, CloseSend);
    SizesFront(queue[1..]);
    SecondIsClose(queue);
    assert queue[1..][1..] == queue[2..];
  }

  lemma CloseLeaves(done: seq<SendOp>, queue: seq<SendOp>, pending: seq<SendOp>)
    requires |queue| > 1 && queue[1].CloseSend?
    ensures done + queue[1..] + pending == done + [CloseSend] + queue[2..] + pending
  {
    SecondIsClose(queue);
    RegroupRest(done, CloseSend, queue[2..], []);
  }

  lemma EnqueueIdleCloseInv(s: State)
    requires Inv(s) && Enabled(s, Run) && s.strand[0].Enqueue? && s.queue == [] && s.strand[0].op.CloseSend?
    ensures Inv(Step(s, Run))
  {
    var t := Step(s, Run);
    EnqueueCloses(s);
    IdleFacts(s);
    RunStrand(s.strand);
    hide Inv, Pending, Pops, Sizes, Payloads, Step, RunEnqueue;
    AloneLeaves(s.done, Pending(t.strand));
    NothingUnderWay(t, s.done + [CloseSend]);
  }

  lemma IdleFacts(s: State)
    requires Inv(s) && s.queue == []
    ensures !s.writing && Pops(s.strand) == 0 && s.completed == s.done && s.wire == Payloads(s.done)
    ensures s.posted == s.done + [] + Pending(s.strand)
    ensures s.total % U64 == (Sizes(s.done + [CloseSend]) + Sizes([])) % U64 && s.outstanding % U64 == Sizes([]) % U64
    ensures Payloads(s.done + [CloseSend]) == s.wire
  {
    hide Pending, Payloads, Sizes;
    assert s.done + [] == s.done;
    SizesAppend(s.done, CloseSend);
    PayloadsAppend(s.done, CloseSend);
    SizesNone();
  }

  lemma AloneLeaves(done: seq<SendOp>, pending: seq<SendOp>)
    ensures done + [] + ([CloseSend] + pending) == done + [CloseSend] + [] + pending
  {}

  lemma PopToCloseInv(s: State)
    requires Inv(s) && Enabled(s, Run) && s.strand[0].PopFront? && |s.queue| > 1 && s.queue[1].CloseSend?
    ensures Inv(Step(s, Run))
  {
    var t := Step(s, Run);
    PopFacts(s);
    PopCloses(s);
    hide Inv, Pending, Pops, Sizes, Payloads, Step, RunPop;
    var done := s.done + [s.queue[0]];
    CloseLeaves(done, s.queue, Pending(t.strand));
    CloseHasNoSize(done, s.queue);
    NothingUnderWay(t, done + [CloseSend]);
  }

  lemma StepInv(s: State, e: Event)
    requires Inv(s) && Enabled(s, e)
    ensures Inv(Step(s, e))
  {
    hide *;
    match e {
      case Post(op) => PostInv(s, op);
      case Complete => CompleteInv(s);
      case Run =>
        RunKinds(s);
        if s.strand[0].Enqueue? {
          if s.queue != [] { EnqueueBehindInv(s); }
          else if s.strand[0].op.SendData? { EnqueueIdleDataInv(s); }
          else { EnqueueIdleCloseInv(s); }
        } else {
          if |s.queue| == 1 { PopToEmptyInv(s); }
          else if s.queue[1].SendData? { PopToDataInv(s); }
          else { PopToCloseInv(s); }
        }
    }
  }

  lemma RunKinds(s: State)
    requires Enabled(s, Run)
    ensures s.strand != [] && (s.strand[0].PopFront? ==> s.queue != [])
  {}

  // ----- whole runs -----

  predicate Feasible(s: State, es: seq<Event>)
    decreases |es|
  {
    es == [] || (Enabled(s, es[0]) && Feasible(Step(s, es[0]), es[1..]))
  }

  function After(s: State, es: seq<Event>): State
    requires Feasible(s, es)
    decreases |es|
  {
    if es == [] then s else After(Step(s, es[0]), es[1..])
  }

  lemma {:induction false} RunInv(s: State, es: seq<Event>)
    requires Inv(s) && Feasible(s, es)
    ensures Inv(After(s, es))
    decreases |es|
  {
    hide Inv, Enabled, Step;
    if es != [] {
      StepInv(s, es[0]);
      RunInv(Step(s, es[0]), es[1..]);
    }
  }

  lemma {:induction false} PayloadsPrefix(ops: seq<SendOp>, n: nat)
    requires n <= |ops|
    ensures Payloads(ops[..n]) <= Payloads(ops)
    decreases |ops|
  {
    if n < |ops| {
      PayloadsPrefix(ops[..|ops| - 1], n);
      assert ops[..|ops| - 1][..n] == ops[..n];
    } else {
      assert ops[..n] == ops;
    }
  }

  /** Main result: after any run, whether or not operations follow a close, the operations completed are
      the first ones dispatched, so a completed close means that everything before it completed; the
      messages on the wire are the first ones dispatched; a write under way is that of the front of the
      queue; and the outstanding count is the number of bytes queued but not completed. */
  lemma SendsInOrder(es: seq<Event>)
    requires Feasible(EMPTY, es)
    ensures var s := After(EMPTY, es);
            && s.completed <= s.posted && s.wire <= Payloads(s.posted)
            && (s.writing ==> s.queue != [] && |s.completed| < |s.posted| && s.queue[0] == s.posted[|s.completed|])
            && s.outstanding == Sizes(NotCompleted(s)) % U64
  {
    InitInv();
    RunInv(EMPTY, es);
    var s := After(EMPTY, es);
    hide Feasible, After;
    InOrder(s);
  }

  lemma InOrder(s: State)
    requires Inv(s)
    ensures s.completed <= s.posted && s.wire <= Payloads(s.posted)
    ensures s.writing ==> s.queue != [] && |s.completed| < |s.posted| && s.queue[0] == s.posted[|s.completed|]
  {
    hide Pending, Sizes, Payloads, Pops;
    var started := s.done + Started(s);
    assert s.posted[..|started|] == started;
    PayloadsPrefix(s.posted, |started|);
  }

  lemma RunEnabled(s: State)
    requires Inv(s)
    ensures Enabled(s, Run) <==> s.strand != []
    ensures Enabled(s, Complete) <==> s.writing
  {}

  function Measure(s: State): nat {
    5 * |Pending(s.strand)| + 3 * |s.queue| + if s.writing then 1 else 0
  }

  lemma CompleteRunsOut(s: State)
    requires Enabled(s, Complete)
    ensures Measure(Step(s, Complete)) < Measure(s)
  {
    StrandAppend(s.strand, PopFront);
    hide Pending, Pops, SendOp.Size;
  }

  lemma EnqueueRunsOut(s: State)
    requires Enabled(s, Run) && s.strand[0].Enqueue?
    ensures Measure(Step(s, Run)) < Measure(s)
  {
    RunStrand(s.strand);
    hide Pending, Pops, AddU64, Max, SendOp.Size;
  }

  lemma PopRunsOut(s: State)
    requires Enabled(s, Run) && s.strand[0].PopFront?
    ensures Measure(Step(s, Run)) < Measure(s)
  {
    RunStrand(s.strand);
    hide Pending, Pops;
  }

  /** Every step other than a new dispatch brings the standstill closer. */
  lemma StepsRunOut(s: State, e: Event)
    requires Enabled(s, e) && !e.Post?
    ensures Measure(Step(s, e)) < Measure(s)
  {
    hide Measure, Step;
    if e.Complete? {
      CompleteRunsOut(s);
    } else if s.strand[0].Enqueue? {
      EnqueueRunsOut(s);
    } else {
      PopRunsOut(s);
    }
  }

  /** The peak counter: it never falls, moves only to the current count, and covers that count as long
      as the queue holds less than 2^64 bytes. */
  lemma PeakCovers(s: State, e: Event)
    requires Inv(s) && Enabled(s, e) && Sizes(s.queue) < U64 && s.outstanding <= s.maxOutstanding
    ensures var t := Step(s, e);
            && t.outstanding <= t.maxOutstanding && s.maxOutstanding <= t.maxOutstanding
            && (t.maxOutstanding == s.maxOutstanding || t.maxOutstanding == t.outstanding)
  {
    hide Sizes;
    if e.Complete? {
      SizesFront(s.queue);
      hide QueueInv, WireInv, CompletedInv;
      assert s.outstanding == Sizes(NotCompleted(s)) % U64;
      WritingFront(s);
      assert s.outstanding == Sizes(s.queue);
    } else {
      hide Inv, Pending;
    }
  }

  lemma WritingFront(s: State)
    requires Inv(s) && s.writing
    ensures NotCompleted(s) == s.queue
  {}

  /** Over a whole run: at most six events for each operation dispatched, and after the last dispatch
      no more than the measure says. */
  lemma {:induction false} RunsEnd(s: State, es: seq<Event>)
    requires Feasible(s, es)
    ensures var t := After(s, es);
            |s.posted| <= |t.posted| && Measure(t) + |es| <= Measure(s) + 6 * (|t.posted| - |s.posted|)
    decreases |es|
  {
    if es != [] {
      MeasureStep(s, es[0]);
      hide Measure, Step, Enabled;
      RunsEnd(Step(s, es[0]), es[1..]);
    }
  }

  lemma MeasureStep(s: State, e: Event)
    requires Enabled(s, e)
    ensures var t := Step(s, e);
            if e.Post? then Measure(t) == Measure(s) + 5 && |t.posted| == |s.posted| + 1
            else Measure(t) < Measure(s) && t.posted == s.posted
  {
    if e.Post? {
      StrandAppend(s.strand, Enqueue(e.op));
    } else {
      StepsRunOut(s, e);
      hide Measure;
    }
  }

  /** The largest number of bytes outstanding in a run. */
  function Peak(s: State, es: seq<Event>): nat
    requires Feasible(s, es)
    decreases |es|
  {
    if es == [] then s.outstanding else Max(s.outstanding, Peak(Step(s, es[0]), es[1..]))
  }

  lemma SizesOfPart(ops: seq<SendOp>, before: seq<SendOp>, after: seq<SendOp>)
    ensures Sizes(ops) <= Sizes(before + ops + after)
  {
    SizesSplit(before + ops, after);
    SizesSplit(before, ops);
  }

  lemma SizesOfPrefix(a: seq<SendOp>, b: seq<SendOp>)
    requires a <= b
    ensures Sizes(a) <= Sizes(b)
  {
    assert b == a + b[|a|..];
    SizesSplit(a, b[|a|..]);
  }

  lemma PeakSoFar(s: State, es: seq<Event>)
    requires Feasible(s, es)
    ensures s.outstanding <= Peak(s, es)
  {}

  lemma MaxAssoc(a: nat, b: nat, c: nat)
    requires b <= c
    ensures Max(Max(a, b), c) == Max(a, c)
  {}

  lemma {:induction false} PeakOfRunFrom(s: State, es: seq<Event>)
    requires Inv(s) && Feasible(s, es) && Sizes(After(s, es).posted) < U64 && s.outstanding <= s.maxOutstanding
    ensures After(s, es).maxOutstanding == Max(s.maxOutstanding, Peak(s, es))
    decreases |es|
  {
    if es != [] {
      var t := Step(s, es[0]);
      PostedGrows(s, es);
      SizesOfPrefix(s.posted, After(s, es).posted);
      SizesOfPart(s.queue, s.done, Pending(s.strand));
      assert s.posted == s.done + s.queue + Pending(s.strand);
      PeakCovers(s, es[0]);
      StepInv(s, es[0]);
      hide Inv, Step, Enabled, Sizes;
      PeakOfRunFrom(t, es[1..]);
      PeakSoFar(t, es[1..]);
      assert t.maxOutstanding == Max(s.maxOutstanding, t.outstanding);
      MaxAssoc(s.maxOutstanding, t.outstanding, Peak(t, es[1..]));
    }
  }

  /** Main result on the counters: over any run that dispatches less than 2^64 bytes the peak counter is
      the largest number of bytes that were outstanding. */
  lemma PeakOfRun(es: seq<Event>)
    requires Feasible(EMPTY, es) && Sizes(After(EMPTY, es).posted) < U64
    ensures After(EMPTY, es).maxOutstanding == Peak(EMPTY, es)
  {
    InitInv();
    PeakOfRunFrom(EMPTY, es);
    hide Feasible, After, Inv;
  }

  lemma StepKeepsPosted(s: State)
    requires Enabled(s, Run)
    ensures Step(s, Run).posted == s.posted
  {}

  // ----- operations behind a close -----

  /** Something is queued and nothing is under way that could start it. */
  predicate Stalled(s: State) {
    s.queue != [] && !Busy(s)
  }

  lemma StalledStep(s: State, e: Event)
    requires Stalled(s) && Enabled(s, e)
    ensures Stalled(Step(s, e)) && Step(s, e).wire == s.wire && Step(s, e).completed == s.completed
  {
    hide Pending, AddU64, Max, SendOp.Size;
    if e.Post? {
      StrandAppend(s.strand, Enqueue(e.op));
    } else {
      RunStrand(s.strand);
    }
  }

  /** From a stalled state nothing is ever written or completed again, whatever is dispatched. */
  lemma {:induction false} StalledForever(s: State, es: seq<Event>)
    requires Stalled(s) && Feasible(s, es)
    ensures var t := After(s, es); Stalled(t) && t.wire == s.wire && t.completed == s.completed
    decreases |es|
  {
    if es != [] {
      StalledStep(s, es[0]);
      hide Stalled, Step, Enabled;
      StalledForever(Step(s, es[0]), es[1..]);
    }
  }

  /** The step puts an operation into a queue in which a close is waiting. */
  predicate QueuesBehindClose(s: State, e: Event) {
    e.Run? && s.strand != [] && s.strand[0].Enqueue? && CloseSend in s.queue
  }

  predicate SomeQueuedBehindClose(s: State, es: seq<Event>)
    requires Feasible(s, es)
    decreases |es|
  {
    es != [] && (QueuesBehindClose(s, es[0]) || SomeQueuedBehindClose(Step(s, es[0]), es[1..]))
  }

  /** Stalled already, or about to be: a close is waiting with something behind it. */
  ghost predicate Doomed(s: State) {
    Stalled(s) || Inside(s.queue, CloseSend)
  }

  lemma RunEnqueueDooms(s: State)
    requires Inv(s) && Enabled(s, Run) && s.strand[0].Enqueue?
    ensures Doomed(Step(s, Run)) <==> Doomed(s) || CloseSend in s.queue
  {
    RunStrand(s.strand);
    hide Inside;
    if s.queue != [] {
      EnqueueAppends(s);
      InsideAppend(s.queue, s.strand[0].op, CloseSend);
      InsideIn(s.queue, CloseSend);
      hide Inv, Step, RunEnqueue, Pending, Pops;
    } else if s.strand[0].op.CloseSend? {
      EnqueueCloses(s);
      InsideIn([], CloseSend);
    } else {
      EnqueueStarts(s);
      InsideAppend([], s.strand[0].op, CloseSend);
      InsideIn([], CloseSend);
    }
  }

  lemma BusyFront(s: State)
    requires Inv(s) && Enabled(s, Run) && s.strand[0].PopFront?
    ensures s.queue != [] && s.queue[0] != CloseSend && Busy(s)
  {}

  lemma RunPopDooms(s: State)
    requires Inv(s) && Enabled(s, Run) && s.strand[0].PopFront?
    ensures Doomed(Step(s, Run)) <==> Doomed(s)
  {
    PopFacts(s);
    BusyFront(s);
    if |s.queue| == 1 {
      PopEmpties(s);
    } else {
      InsideRest(s.queue, CloseSend);
      if s.queue[1].CloseSend? { PopCloses(s); } else { PopStarts(s); }
    }
    hide Inv, Step, RunPop, Pending, Pops;
    if |s.queue| > 1 && s.queue[1].CloseSend? {
      hide Inside;
      InsideIn(s.queue[2..], CloseSend);
    }
  }

  lemma StepDooms(s: State, e: Event)
    requires Inv(s) && Enabled(s, e)
    ensures Doomed(Step(s, e)) <==> Doomed(s) || QueuesBehindClose(s, e)
  {
    match e {
      case Post(op) => StrandAppend(s.strand, Enqueue(op));
      case Complete => StrandAppend(s.strand, PopFront);
      case Run => if s.strand[0].Enqueue? { RunEnqueueDooms(s); } else { RunPopDooms(s); }
    }
  }

  lemma {:induction false} RunDooms(s: State, es: seq<Event>)
    requires Inv(s) && Feasible(s, es)
    ensures Doomed(After(s, es)) <==> Doomed(s) || SomeQueuedBehindClose(s, es)
    decreases |es|
  {
    hide Inv, Enabled, Step, Doomed, QueuesBehindClose;
    if es != [] {
      StepInv(s, es[0]);
      StepDooms(s, es[0]);
      RunDooms(Step(s, es[0]), es[1..]);
    }
  }

  ghost predicate Standstill(s: State) {
    !Enabled(s, Run) && !Enabled(s, Complete)
  }

  lemma DoomedAtStandstill(s: State)
    requires Inv(s) && Standstill(s)
    ensures Doomed(s) <==> Stalled(s)
    ensures Stalled(s) <==> s.completed != s.posted
    ensures !Stalled(s) ==> s.wire == Payloads(s.posted) && s.outstanding == 0
  {
    RunEnabled(s);
    assert s.done + [] == s.done && s.done + s.queue + [] == s.done + s.queue;
  }

  /** Main result: once no handler and no write is left, everything dispatched has been written and
      completed if and only if no operation was ever queued while a close was waiting in the queue. */
  lemma StandstillIff(es: seq<Event>)
    requires Feasible(EMPTY, es) && Standstill(After(EMPTY, es))
    ensures var s := After(EMPTY, es);
            && (s.completed == s.posted <==> !SomeQueuedBehindClose(EMPTY, es))
            && (SomeQueuedBehindClose(EMPTY, es) <==> Stalled(s))
            && (!SomeQueuedBehindClose(EMPTY, es) ==> s.wire == Payloads(s.posted) && s.outstanding == 0)
  {
    InitInv();
    RunInv(EMPTY, es);
    RunDooms(EMPTY, es);
    assert !Doomed(EMPTY);
    DoomedAtStandstill(After(EMPTY, es));
    hide Feasible, After, Inv;
  }

  // ----- what the mStopped gate is for -----

  ghost predicate CloseIsLast(ops: seq<SendOp>) {
    forall i :: 0 <= i < |ops| - 1 ==> ops[i] != CloseSend
  }

  lemma PostedGrowsStep(s: State, e: Event)
    requires Enabled(s, e)
    ensures s.posted <= Step(s, e).posted
  {}

  lemma {:induction false} PostedGrows(s: State, es: seq<Event>)
    requires Feasible(s, es)
    ensures s.posted <= After(s, es).posted
    decreases |es|
  {
    if es != [] {
      PostedGrowsStep(s, es[0]);
      hide Step, Enabled;
      PostedGrows(Step(s, es[0]), es[1..]);
    }
  }

  /** An operation about to be queued behind a close was dispatched behind it. */
  lemma BehindCloseWasPosted(s: State, later: seq<SendOp>)
    requires Inv(s) && QueuesBehindClose(s, Run) && s.posted <= later
    ensures !CloseIsLast(later)
  {
    var i :| 0 <= i < |s.queue| && s.queue[i] == CloseSend;
    RunStrand(s.strand);
    assert s.posted[|s.done| + i] == CloseSend;
    assert later[|s.done| + i] == CloseSend && |s.done| + i < |later| - 1;
  }

  /** If no operation is dispatched after a close, none is queued behind one. */
  lemma {:induction false} GateSuffices(s: State, es: seq<Event>)
    requires Inv(s) && Feasible(s, es) && CloseIsLast(After(s, es).posted)
    ensures !SomeQueuedBehindClose(s, es)
    decreases |es|
  {
    if es != [] {
      StepInv(s, es[0]);
      PostedGrows(s, es);
      if QueuesBehindClose(s, es[0]) {
        BehindCloseWasPosted(s, After(s, es).posted);
      }
      hide Inv, Step, Enabled, CloseIsLast;
      GateSuffices(Step(s, es[0]), es[1..]);
    }
  }

  /** With the gate in place everything dispatched is on the wire and completed at a standstill. */
  lemma NothingIsForgotten(es: seq<Event>)
    requires Feasible(EMPTY, es) && Standstill(After(EMPTY, es)) && CloseIsLast(After(EMPTY, es).posted)
    ensures var s := After(EMPTY, es); s.completed == s.posted && s.wire == Payloads(s.posted) && s.outstanding == 0
  {
    InitInv();
    GateSuffices(EMPTY, es);
    StandstillIff(es);
  }

  // ----- a run that stalls -----

  /** A message, a close and any other operation, a second close among them, dispatched before the
      message is written. */
  function StallingRun(p: SendOp, q: SendOp): seq<Event> {
    [Post(p), Run, Post(CloseSend), Post(q), Run, Run, Complete, Run]
  }

  lemma RunOne(s: State, e: Event, es: seq<Event>)
    requires Enabled(s, e) && Feasible(Step(s, e), es)
    ensures Feasible(s, [e] + es) && After(s, [e] + es) == After(Step(s, e), es)
    ensures SomeQueuedBehindClose(s, [e] + es) <==> QueuesBehindClose(s, e) || SomeQueuedBehindClose(Step(s, e), es)
  {
    assert ([e] + es)[1..] == es;
    hide Enabled, Step, QueuesBehindClose;
  }

  lemma FirstSteps(p: SendOp, q: SendOp) returns (s1: State, s2: State, s3: State, s4: State)
    requires p.SendData? && 0 < p.Size() && (q.SendData? ==> 0 < q.Size())
    ensures Enabled(EMPTY, Post(p)) && s1 == Step(EMPTY, Post(p)) && Enabled(s1, Run) && s2 == Step(s1, Run)
    ensures Enabled(s2, Post(CloseSend)) && s3 == Step(s2, Post(CloseSend)) && Enabled(s3, Post(q)) && s4 == Step(s3, Post(q))
    ensures s4.strand == [Enqueue(CloseSend), Enqueue(q)] && s4.queue == [p] && s4.writing
    ensures s4.posted == [p, CloseSend, q] && s4.completed == [] && s4.wire == [p.payload]
  {
    hide AddU64, Max;
    s1 := Step(EMPTY, Post(p));
    assert s1.strand == [Enqueue(p)];
    s2 := Step(s1, Run);
    assert s2.queue == [p] && s2.strand == [];
    s3 := Step(s2, Post(CloseSend));
    s4 := Step(s3, Post(q));
  }

  lemma LastSteps(s4: State, p: SendOp, q: SendOp) returns (s5: State, s6: State, s7: State, s8: State)
    requires p.SendData? && s4.strand == [Enqueue(CloseSend), Enqueue(q)] && s4.queue == [p] && s4.writing && s4.completed == []
    ensures Enabled(s4, Run) && s5 == Step(s4, Run) && Enabled(s5, Run) && s6 == Step(s5, Run) && QueuesBehindClose(s5, Run)
    ensures Enabled(s6, Complete) && s7 == Step(s6, Complete) && Enabled(s7, Run) && s8 == Step(s7, Run)
    ensures s8.strand == [] && s8.queue == [q] && !s8.writing && s8.completed == [p, CloseSend]
    ensures s8.wire == s4.wire && s8.posted == s4.posted
  {
    hide AddU64, Max, SendOp.Size;
    s5 := Step(s4, Run);
    assert s5.queue == [p, CloseSend] && s5.strand == [Enqueue(q)];
    s6 := Step(s5, Run);
    assert s6.queue == [p, CloseSend, q] && s6.strand == [];
    s7 := Step(s6, Complete);
    assert s7.strand == [PopFront] && s7.queue == [p, CloseSend, q] && s7.completed == [p];
    var popped := s7.queue[1..];
    assert popped == [CloseSend, q] && popped[1..] == [q];
    s8 := Step(s7, Run);
  }

  lemma StandsStill(s: State)
    requires s.strand == [] && !s.writing && s.queue != []
    ensures Standstill(s) && Stalled(s)
  {}

  /** The first four events, before any others. */
  lemma FrontHalf(p: SendOp, q: SendOp, es: seq<Event>) returns (s: State)
    requires p.SendData? && 0 < p.Size() && (q.SendData? ==> 0 < q.Size())
    ensures s.strand == [Enqueue(CloseSend), Enqueue(q)] && s.queue == [p] && s.writing
    ensures s.posted == [p, CloseSend, q] && s.completed == [] && s.wire == [p.payload]
    ensures Feasible(s, es) ==>
              var run := [Post(p)] + ([Run] + ([Post(CloseSend)] + ([Post(q)] + es)));
              && Feasible(EMPTY, run) && After(EMPTY, run) == After(s, es)
              && (SomeQueuedBehindClose(s, es) ==> SomeQueuedBehindClose(EMPTY, run))
  {
    var s1, s2, s3;
    s1, s2, s3, s := FirstSteps(p, q);
    hide Step, Enabled, QueuesBehindClose, SendOp.Size;
    if Feasible(s, es) {
      RunOne(s3, Post(q), es);
      RunOne(s2, Post(CloseSend), [Post(q)] + es);
      hide Feasible, After, SomeQueuedBehindClose;
      RunOne(s1, Run, [Post(CloseSend)] + ([Post(q)] + es));
      RunOne(EMPTY, Post(p), [Run] + ([Post(CloseSend)] + ([Post(q)] + es)));
    }
  }

  lemma BackHalf(s: State, p: SendOp, q: SendOp) returns (t: State)
    requires p.SendData? && s.strand == [Enqueue(CloseSend), Enqueue(q)] && s.queue == [p] && s.writing && s.completed == []
    ensures var run := [Run] + ([Run] + ([Complete] + [Run]));
            Feasible(s, run) && t == After(s, run) && SomeQueuedBehindClose(s, run)
    ensures t.strand == [] && t.queue == [q] && !t.writing && t.completed == [p, CloseSend]
    ensures t.wire == s.wire && t.posted == s.posted
  {
    var s5, s6, s7;
    s5, s6, s7, t := LastSteps(s, p, q);
    hide Step, Enabled, QueuesBehindClose, SendOp.Size;
    RunOne(s7, Run, []);
    assert [Run] + [] == [Run];
    RunOne(s6, Complete, [Run]);
    hide Feasible, After, SomeQueuedBehindClose;
    RunOne(s5, Run, [Complete] + [Run]);
    RunOne(s, Run, [Run] + ([Complete] + [Run]));
  }

  lemma Literals(p: SendOp, q: SendOp)
    ensures [Post(p)] + ([Run] + ([Post(CloseSend)] + ([Post(q)] + ([Run] + ([Run] + ([Complete] + [Run])))))) == StallingRun(p, q)
  {}

  /** The message and the close complete, and q never will. */
  lemma StallingRunStalls(p: SendOp, q: SendOp)
    requires p.SendData? && 0 < p.Size() && (q.SendData? ==> 0 < q.Size())
    ensures Feasible(EMPTY, StallingRun(p, q))
    ensures var s := After(EMPTY, StallingRun(p, q));
            && Stalled(s) && Standstill(s) && s.queue == [q]
            && s.posted == [p, CloseSend, q] && s.completed == [p, CloseSend] && s.wire == [p.payload]
    ensures SomeQueuedBehindClose(EMPTY, StallingRun(p, q))
  {
    hide Feasible, After, SomeQueuedBehindClose, Stalled, Standstill, SendOp.Size, StallingRun;
    var back := [Run] + ([Run] + ([Complete] + [Run]));
    var s := FrontHalf(p, q, back);
    var t := BackHalf(s, p, q);
    StandsStill(t);
    Literals(p, q);
  }
}
