/** The whole exchange of `party` in frontend/OtBinMain.cpp: n parties, one channel for each ordered
    pair, any interleaving of their threads.  Sending does not block; a receive takes the first message
    of its channel and waits while there is none. */
module PartyProtocol {
  import opened Blocks
  import opened PayLoads
  import opened PartyRing

  type Row = seq<Block>

  /** The messages of a run: those of the two-direction phase and those of the ring round. */
  datatype Message = Direct(from: nat, to: nat) | Ring(from: nat)

  function Receiver(m: Message, n: nat): nat
    requires m.from < n
  {
    match m
    case Direct(_, to) => to
    case Ring(from) => Succ(from, n)
  }

  predicate Planned(m: Message, n: nat) {
    m.from < n && (m.Direct? ==> m.to < n && Sends(Phase1(m.from, m.to, n)))
  }

  /** What the receiving routine writes into its row for a message that the sender made from a row. */
  type Decoder = (Message, Row) -> Row

  /** The parties' tables, the channels, and the messages sent and received so far. */
  datatype State = State(send: seq<Rows>, recv: seq<Rows>, links: map<(nat, nat), seq<Row>>,
                         sent: set<Message>, got: set<Message>)

  datatype Event = Send(m: Message) | Receive(m: Message)

  function Link(s: State, a: nat, b: nat): seq<Row> {
    if (a, b) in s.links then s.links[(a, b)] else []
  }

  /** All threads that party i starts for the first phase have ended. */
  ghost predicate Joined(s: State, i: nat, n: nat) {
    forall p: nat :: p < n ==>
      && (Planned(Direct(i, p), n) ==> Direct(i, p) in s.sent)
      && (Planned(Direct(p, i), n) ==> Direct(p, i) in s.got)
  }

  /** A thread of the first phase sends and receives in the order of its branch; the ring round follows
      the join, and all parties but 0 receive before they send. */
  ghost predicate Enabled(s: State, e: Event, n: nat) {
    Planned(e.m, n) &&
    match e
    case Send(Direct(a, b)) => e.m !in s.sent && (Phase1(a, b, n).RecvThenSend? ==> Direct(b, a) in s.got)
    case Send(Ring(a)) => e.m !in s.sent && Joined(s, a, n) && (a > 0 ==> Ring(a - 1) in s.got)
    case Receive(Direct(a, b)) => e.m !in s.got && Link(s, a, b) != [] && (Phase1(b, a, n).SendThenRecv? ==> Direct(b, a) in s.sent)
    case Receive(Ring(a)) =>
      var b := Succ(a, n);
      e.m !in s.got && Link(s, a, b) != [] && Joined(s, b, n) && (b == 0 ==> Ring(0) in s.sent)
  }

  predicate Shapes(s: State, n: nat, setSize: nat) {
    && |s.send| == |s.recv| == n
    && forall i :: 0 <= i < n ==> Shape(s.send[i], n, setSize) && |s.recv[i]| == n
  }

  function Post(s: State, e: Event, n: nat, setSize: nat, decode: Decoder): State
    requires Enabled(s, e, n) && Shapes(s, n, setSize)
  {
    var a, b := e.m.from, Receiver(e.m, n);
    match e
    case Send(m) =>
      var row := if m.Direct? then s.send[a][b] else RowHandedOn(a, n, s.send[a], s.recv[a]);
      s.(send := s.send[a := s.send[a][b := row]], links := s.links[(a, b) := Link(s, a, b) + [row]], sent := s.sent + {m})
    case Receive(m) =>
      s.(recv := s.recv[b := s.recv[b][a := decode(m, Link(s, a, b)[0])]],
         links := s.links[(a, b) := Link(s, a, b)[1..]], got := s.got + {m})
  }

  function Initial(dealt: seq<Rows>, n: nat, setSize: nat): State {
    State(dealt, seq(n, _ => seq(n, _ => seq(setSize, _ => ZeroBlock))), map[], {}, {})
  }

  // ----- invariant -----

  /** What a message carries: a row as dealt, or the row handed round the ring. */
  function Carried(s: State, dealt: seq<Rows>, m: Message, n: nat, setSize: nat): Row
    requires Planned(m, n) && Shapes(s, n, setSize) && Dealing(dealt, n, setSize)
  {
    match m
    case Direct(a, b) => dealt[a][b]
    case Ring(a) => s.send[a][Succ(a, n)]
  }

  predicate Dealing(dealt: seq<Rows>, n: nat, setSize: nat) {
    |dealt| == n && forall i :: 0 <= i < n ==> Shape(dealt[i], n, setSize)
  }

  function Pending(s: State, dealt: seq<Rows>, m: Message, n: nat, setSize: nat): seq<Row>
    requires Shapes(s, n, setSize) && Dealing(dealt, n, setSize)
  {
    if Planned(m, n) && m in s.sent && m !in s.got then [Carried(s, dealt, m, n, setSize)] else []
  }

  /** A channel holds the direct message before the one of the ring round. */
  ghost predicate LinkOk(s: State, dealt: seq<Rows>, a: nat, b: nat, n: nat, setSize: nat)
    requires Shapes(s, n, setSize) && Dealing(dealt, n, setSize) && a < n
  {
    Link(s, a, b) == Pending(s, dealt, Direct(a, b), n, setSize)
                     + if b == Succ(a, n) then Pending(s, dealt, Ring(a), n, setSize) else []
  }

  /** Party a's send table: as dealt, but for the row it handed on. */
  ghost predicate SendOk(s: State, dealt: seq<Rows>, a: nat, n: nat, setSize: nat)
    requires Shapes(s, n, setSize) && Dealing(dealt, n, setSize) && a < n
  {
    && (forall k: nat :: k < n && (k == Succ(a, n) ==> Ring(a) !in s.sent) ==> s.send[a][k] == dealt[a][k])
    && (Ring(a) in s.sent ==> s.send[a][Succ(a, n)] == RowHandedOn(a, n, dealt[a], s.recv[a]))
  }

  /** Every receive row is the last message decoded into it; only the last party's row at party 0 is
      written twice. */
  ghost predicate RecvOk(s: State, dealt: seq<Rows>, m: Message, n: nat, setSize: nat, decode: Decoder)
    requires Shapes(s, n, setSize) && Dealing(dealt, n, setSize) && Planned(m, n)
  {
    m in s.got ==>
      || (m == Direct(n - 1, 0) && Ring(n - 1) in s.got)
      || s.recv[Receiver(m, n)][m.from] == decode(m, Carried(s, dealt, m, n, setSize))
  }

  ghost predicate Started(s: State, a: nat, n: nat)
    requires a < n
  {
    && (Ring(a) in s.sent ==> Joined(s, a, n) && (a > 0 ==> Ring(a - 1) in s.got))
    && (Ring(a) in s.got ==> Joined(s, Succ(a, n), n) && (Succ(a, n) == 0 ==> Ring(0) in s.sent))
  }

  ghost predicate Inv(s: State, dealt: seq<Rows>, n: nat, setSize: nat, decode: Decoder) {
    && 3 <= n && Shapes(s, n, setSize) && Dealing(dealt, n, setSize)
    && s.got <= s.sent && (forall m :: m in s.sent ==> Planned(m, n))
    && (forall a: nat :: a < n ==> Started(s, a, n))
    && (forall a: nat, b: nat :: a < n && b < n ==> LinkOk(s, dealt, a, b, n, setSize))
    && (forall a: nat :: a < n ==> SendOk(s, dealt, a, n, setSize))
    && (forall m :: Planned(m, n) ==> RecvOk(s, dealt, m, n, setSize, decode))
  }

  lemma InitInv(dealt: seq<Rows>, n: nat, setSize: nat, decode: Decoder)
    requires 3 <= n && Dealing(dealt, n, setSize)
    ensures Inv(Initial(dealt, n, setSize), dealt, n, setSize, decode)
  {
    var s := Initial(dealt, n, setSize);
    forall a: nat, b: nat | a < n && b < n ensures LinkOk(s, dealt, a, b, n, setSize) {}
  }

  lemma JoinedMonotone(s: State, t: State, i: nat, n: nat)
    requires Joined(s, i, n) && s.sent <= t.sent && s.got <= t.got
    ensures Joined(t, i, n)
  {}

  /** The message a party takes from a channel is the one it is waiting for. */
  lemma HeadIsExpected(s: State, dealt: seq<Rows>, m: Message, n: nat, setSize: nat, decode: Decoder)
    requires Inv(s, dealt, n, setSize, decode) && Enabled(s, Receive(m), n)
    ensures m in s.sent && Link(s, m.from, Receiver(m, n))[0] == Carried(s, dealt, m, n, setSize)
  {
    var a, b := m.from, Receiver(m, n);
    RingStep(a, n);
    assert LinkOk(s, dealt, a, b, n, setSize) && Started(s, a, n);
    hide Phase1;
  }

  lemma StepStarted(s: State, dealt: seq<Rows>, e: Event, n: nat, setSize: nat, decode: Decoder, a: nat)
    requires Inv(s, dealt, n, setSize, decode) && Enabled(s, e, n) && a < n
    ensures Started(Post(s, e, n, setSize, decode), a, n)
  {
    var t := Post(s, e, n, setSize, decode);
    RingStep(a, n);
    assert Started(s, a, n);
    hide Phase1, RowHandedOn, LinkOk, SendOk, RecvOk;
    if Joined(s, a, n) {
      JoinedMonotone(s, t, a, n);
    }
    if Joined(s, Succ(a, n), n) {
      JoinedMonotone(s, t, Succ(a, n), n);
    }
  }

  lemma StepShapes(s: State, e: Event, n: nat, setSize: nat, decode: Decoder)
    requires 3 <= n && Shapes(s, n, setSize) && Enabled(s, e, n)
    ensures Shapes(Post(s, e, n, setSize, decode), n, setSize)
  {
    hide Joined, Phase1, Accumulated, Link;
    RingStep(e.m.from, n);
    var t := Post(s, e, n, setSize, decode);
    if e.Send? {
      var a, b := e.m.from, Receiver(e.m, n);
      assert t.send[a] == s.send[a][b := t.send[a][b]];
      assert |t.send[a][b]| == setSize;
    }
  }

  /** Only a Send(Ring(a)) changes party a's send table, and only the row for its successor. */
  lemma SendEffect(s: State, dealt: seq<Rows>, e: Event, n: nat, setSize: nat, decode: Decoder, a: nat)
    requires 3 <= n && Shapes(s, n, setSize) && Enabled(s, e, n) && a < n
    requires Shapes(Post(s, e, n, setSize, decode), n, setSize)
    ensures Post(s, e, n, setSize, decode).send[a] ==
            if e == Send(Ring(a)) then s.send[a][Succ(a, n) := RowHandedOn(a, n, s.send[a], s.recv[a])] else s.send[a]
  {
    hide Joined, Phase1, RowHandedOn, Link;
    RingStep(e.m.from, n);
    if e.Send? && e.m.Direct? {
      assert s.send[e.m.from][e.m.to := s.send[e.m.from][e.m.to]] == s.send[e.m.from];
    }
  }

  /** The messages other than the one of the step stay pending as they are. */
  lemma OtherPending(s: State, dealt: seq<Rows>, e: Event, n: nat, setSize: nat, decode: Decoder, m: Message)
    requires 3 <= n && Shapes(s, n, setSize) && Dealing(dealt, n, setSize) && Enabled(s, e, n) && m != e.m
    requires Shapes(Post(s, e, n, setSize, decode), n, setSize)
    ensures Pending(Post(s, e, n, setSize, decode), dealt, m, n, setSize) == Pending(s, dealt, m, n, setSize)
  {
    hide Joined, Phase1, RowHandedOn, Link;
    if Planned(m, n) {
      SendEffect(s, dealt, e, n, setSize, decode, m.from);
    }
  }

  lemma OwnPending(s: State, dealt: seq<Rows>, e: Event, n: nat, setSize: nat, decode: Decoder)
    requires Inv(s, dealt, n, setSize, decode) && Enabled(s, e, n)
    requires Shapes(Post(s, e, n, setSize, decode), n, setSize)
    ensures var t := Post(s, e, n, setSize, decode);
            var a, b := e.m.from, Receiver(e.m, n);
            if e.Send? then
              && Pending(s, dealt, e.m, n, setSize) == []
              && Link(t, a, b) == Link(s, a, b) + Pending(t, dealt, e.m, n, setSize)
            else
              && Pending(t, dealt, e.m, n, setSize) == []
              && Link(s, a, b) == Pending(s, dealt, e.m, n, setSize) + Link(t, a, b)
  {
    var t := Post(s, e, n, setSize, decode);
    var a, b := e.m.from, Receiver(e.m, n);
    RingStep(a, n);
    assert Started(s, a, n) && SendOk(s, dealt, a, n, setSize);
    if e.Receive? {
      HeadIsExpected(s, dealt, e.m, n, setSize, decode);
    }
    hide Joined, Phase1, RowHandedOn, RecvOk, LinkOk, Started;
    SendEffect(s, dealt, e, n, setSize, decode, a);
  }

  lemma OtherLink(s: State, e: Event, n: nat, setSize: nat, decode: Decoder, a: nat, b: nat)
    requires Shapes(s, n, setSize) && Enabled(s, e, n) && (a != e.m.from || b != Receiver(e.m, n))
    ensures Link(Post(s, e, n, setSize, decode), a, b) == Link(s, a, b)
  {
    hide Joined, Phase1, RowHandedOn;
  }

  /** A ring message is sent after the direct one of its channel has been sent, and received after it
      has been received. */
  lemma ChannelOrder(s: State, dealt: seq<Rows>, e: Event, n: nat, setSize: nat, decode: Decoder)
    requires Inv(s, dealt, n, setSize, decode) && Enabled(s, e, n)
    requires Shapes(Post(s, e, n, setSize, decode), n, setSize)
    ensures var a, b := e.m.from, Receiver(e.m, n);
            && (e.m.Direct? && e.Send? && b == Succ(a, n) ==> Ring(a) !in s.sent)
            && (e.m.Ring? && e.Receive? ==> Pending(s, dealt, Direct(a, b), n, setSize) == [])
  {
    var a, b := e.m.from, Receiver(e.m, n);
    assert Started(s, a, n);
  }

  lemma StepLink(s: State, dealt: seq<Rows>, e: Event, n: nat, setSize: nat, decode: Decoder, a: nat, b: nat)
    requires Inv(s, dealt, n, setSize, decode) && Enabled(s, e, n) && a < n && b < n
    requires Shapes(Post(s, e, n, setSize, decode), n, setSize)
    ensures LinkOk(Post(s, e, n, setSize, decode), dealt, a, b, n, setSize)
  {
    assert LinkOk(s, dealt, a, b, n, setSize);
    if Direct(a, b) != e.m { OtherPending(s, dealt, e, n, setSize, decode, Direct(a, b)); }
    if Ring(a) != e.m { OtherPending(s, dealt, e, n, setSize, decode, Ring(a)); }
    if a != e.m.from || b != Receiver(e.m, n) {
      OtherLink(s, e, n, setSize, decode, a, b);
    } else {
      OwnPending(s, dealt, e, n, setSize, decode);
      ChannelOrder(s, dealt, e, n, setSize, decode);
    }
    hide Inv, Enabled, Post, Link, Shapes, Dealing;
  }

  /** The row handed on depends on the own row and on the receive rows that are accumulated. */
  lemma RowsHandedOn(a: nat, n: nat, send: Rows, recv: Rows, send': Rows, recv': Rows)
    requires 3 <= n && a < n == |send| == |send'| && send[Succ(a, n)] == send'[Succ(a, n)]
    requires forall p: nat, i: nat :: p < n && p != a && (a == 0 ==> p != n - 1) ==> At(recv, p, i) == At(recv', p, i)
    ensures RowHandedOn(a, n, send, recv) == RowHandedOn(a, n, send', recv')
  {
    RingStep(a, n);
    var own := send[Succ(a, n)];
    forall i | 0 <= i < |own| ensures Accumulated(a, n, own[i], recv, i) == Accumulated(a, n, own[i], recv', i) {
      OthersSumFrame(recv, recv', n, a, Prev(a, n), i);
    }
  }

  lemma RecvEffect(s: State, e: Event, n: nat, setSize: nat, decode: Decoder, a: nat, p: nat, i: nat)
    requires Shapes(s, n, setSize) && Enabled(s, e, n) && a < n && p < n
    requires e.Receive? && Receiver(e.m, n) == a ==> p != e.m.from
    ensures At(Post(s, e, n, setSize, decode).recv[a], p, i) == At(s.recv[a], p, i)
  {
    hide Joined, Phase1, RowHandedOn, Link, Succ;
  }

  /** After a party has handed its row on, only party 0 still receives, namely the last ring message. */
  lemma LateReceive(s: State, dealt: seq<Rows>, m: Message, n: nat, setSize: nat, decode: Decoder)
    requires Inv(s, dealt, n, setSize, decode) && Enabled(s, Receive(m), n) && Ring(Receiver(m, n)) in s.sent
    ensures m == Ring(n - 1) && Receiver(m, n) == 0
  {
    var a := Receiver(m, n);
    RingStep(m.from, n);
    assert Planned(Ring(a), n) && Started(s, a, n);
    hide Phase1, LinkOk, SendOk, RecvOk;
  }

  lemma StepSend(s: State, dealt: seq<Rows>, e: Event, n: nat, setSize: nat, decode: Decoder, a: nat)
    requires Inv(s, dealt, n, setSize, decode) && Enabled(s, e, n) && a < n
    requires Shapes(Post(s, e, n, setSize, decode), n, setSize)
    ensures SendOk(Post(s, e, n, setSize, decode), dealt, a, n, setSize)
  {
    var t := Post(s, e, n, setSize, decode);
    assert SendOk(s, dealt, a, n, setSize);
    SendEffect(s, dealt, e, n, setSize, decode, a);
    if e.Receive? && Receiver(e.m, n) == a && Ring(a) in s.sent {
      LateReceive(s, dealt, e.m, n, setSize, decode);
    }
    RingStep(a, n);
    hide Phase1, RowHandedOn, Joined, LinkOk, RecvOk, Started, Accumulated, Link;
    if e == Send(Ring(a)) || Ring(a) in s.sent {
      forall p: nat, i: nat | p < n && p != a && (a == 0 ==> p != n - 1) ensures At(s.recv[a], p, i) == At(t.recv[a], p, i) {
        RecvEffect(s, e, n, setSize, decode, a, p, i);
      }
      RowsHandedOn(a, n, dealt[a], s.recv[a], dealt[a], t.recv[a]);
      if e == Send(Ring(a)) {
        RowsHandedOn(a, n, s.send[a], s.recv[a], dealt[a], s.recv[a]);
      }
    }
  }

  lemma StepRecv(s: State, dealt: seq<Rows>, e: Event, n: nat, setSize: nat, decode: Decoder, m: Message)
    requires Inv(s, dealt, n, setSize, decode) && Enabled(s, e, n) && Planned(m, n)
    requires Shapes(Post(s, e, n, setSize, decode), n, setSize)
    ensures RecvOk(Post(s, e, n, setSize, decode), dealt, m, n, setSize, decode)
  {
    var t := Post(s, e, n, setSize, decode);
    RingStep(m.from, n);
    RingStep(e.m.from, n);
    assert RecvOk(s, dealt, m, n, setSize, decode) && Started(s, m.from, n);
    if e.Receive? {
      HeadIsExpected(s, dealt, e.m, n, setSize, decode);
    }
    hide Phase1, RowHandedOn;
  }

  lemma StepInv(s: State, dealt: seq<Rows>, e: Event, n: nat, setSize: nat, decode: Decoder)
    requires Inv(s, dealt, n, setSize, decode) && Enabled(s, e, n)
    ensures Inv(Post(s, e, n, setSize, decode), dealt, n, setSize, decode)
  {
    var t := Post(s, e, n, setSize, decode);
    StepShapes(s, e, n, setSize, decode);
    StepSets(s, dealt, e, n, setSize, decode);
    forall a: nat | a < n ensures Started(t, a, n) && SendOk(t, dealt, a, n, setSize) {
      StepStarted(s, dealt, e, n, setSize, decode, a);
      StepSend(s, dealt, e, n, setSize, decode, a);
    }
    forall a: nat, b: nat | a < n && b < n ensures LinkOk(t, dealt, a, b, n, setSize) {
      StepLink(s, dealt, e, n, setSize, decode, a, b);
    }
    forall m | Planned(m, n) ensures RecvOk(t, dealt, m, n, setSize, decode) {
      StepRecv(s, dealt, e, n, setSize, decode, m);
    }
    hide Planned, Shapes, Dealing, Post, Started, SendOk, LinkOk, RecvOk, Enabled;
  }

  lemma StepSets(s: State, dealt: seq<Rows>, e: Event, n: nat, setSize: nat, decode: Decoder)
    requires Inv(s, dealt, n, setSize, decode) && Enabled(s, e, n)
    ensures var t := Post(s, e, n, setSize, decode);
            && t.got <= t.sent && (forall m :: m in t.sent ==> Planned(m, n))
            && s.got <= t.got && s.sent <= t.sent && |t.sent| + |t.got| == |s.sent| + |s.got| + 1
  {
    if e.Receive? {
      HeadIsExpected(s, dealt, e.m, n, setSize, decode);
    }
    hide Phase1, RowHandedOn, Joined, LinkOk, SendOk, RecvOk, Started;
  }

  // ----- runs -----

  ghost predicate Allowed(s: State, es: seq<Event>, n: nat, setSize: nat, decode: Decoder)
    decreases |es|
  {
    es == [] ||
    (Shapes(s, n, setSize) && Enabled(s, es[0], n) && Allowed(Post(s, es[0], n, setSize, decode), es[1..], n, setSize, decode))
  }

  ghost function After(s: State, es: seq<Event>, n: nat, setSize: nat, decode: Decoder): State
    requires Allowed(s, es, n, setSize, decode)
    decreases |es|
  {
    if es == [] then s else After(Post(s, es[0], n, setSize, decode), es[1..], n, setSize, decode)
  }

  lemma {:induction false} RunInv(s: State, dealt: seq<Rows>, es: seq<Event>, n: nat, setSize: nat, decode: Decoder)
    requires Inv(s, dealt, n, setSize, decode) && Allowed(s, es, n, setSize, decode)
    ensures Inv(After(s, es, n, setSize, decode), dealt, n, setSize, decode)
    ensures var t := After(s, es, n, setSize, decode); |t.sent| + |t.got| == |s.sent| + |s.got| + |es|
    decreases |es|
  {
    hide Inv, Enabled, Post, Shapes;
    if es != [] {
      StepInv(s, dealt, es[0], n, setSize, decode);
      StepSets(s, dealt, es[0], n, setSize, decode);
      RunInv(Post(s, es[0], n, setSize, decode), dealt, es[1..], n, setSize, decode);
    }
  }

  function Messages(n: nat): set<Message> {
    (set a: nat, b: nat | a < n && b < n :: Direct(a, b)) + (set a: nat | a < n :: Ring(a))
  }

  lemma SentInMessages(t: State, dealt: seq<Rows>, n: nat, setSize: nat, decode: Decoder)
    requires Inv(t, dealt, n, setSize, decode)
    ensures t.sent <= Messages(n) && t.got <= Messages(n)
  {
    hide LinkOk, SendOk, RecvOk, Started, Shapes, Phase1;
    forall m | m in t.sent ensures m in Messages(n) {
      assert Planned(m, n);
    }
  }

  /** No run is longer than two events for each message. */
  lemma RunsEnd(dealt: seq<Rows>, es: seq<Event>, n: nat, setSize: nat, decode: Decoder)
    requires 3 <= n && Dealing(dealt, n, setSize) && Allowed(Initial(dealt, n, setSize), es, n, setSize, decode)
    ensures |es| <= 2 * |Messages(n)|
  {
    var s := Initial(dealt, n, setSize);
    InitInv(dealt, n, setSize, decode);
    RunInv(s, dealt, es, n, setSize, decode);
    var t := After(s, es, n, setSize, decode);
    assert s.sent == {} && s.got == {};
    SentInMessages(t, dealt, n, setSize, decode);
    hide *;
    Smaller(t.sent, Messages(n));
    Smaller(t.got, Messages(n));
  }

  lemma {:induction false} Smaller<T>(a: set<T>, b: set<T>)
    requires a <= b
    ensures |a| <= |b|
  {
    if a != {} {
      var x :| x in a;
      Smaller(a - {x}, b - {x});
    }
  }

  // ----- nobody waits for ever -----

  ghost predicate Standstill(s: State, n: nat) {
    forall e :: !Enabled(s, e, n)
  }

  lemma FirstOfPair(s: State, dealt: seq<Rows>, a: nat, b: nat, n: nat, setSize: nat, decode: Decoder)
    requires Inv(s, dealt, n, setSize, decode) && Standstill(s, n) && Planned(Direct(a, b), n)
    requires Phase1(a, b, n).RecvThenSend? ==> Direct(b, a) in s.got
    ensures Direct(a, b) in s.sent
    ensures (Phase1(b, a, n).SendThenRecv? ==> Direct(b, a) in s.sent) ==> Direct(a, b) in s.got
  {
    assert !Enabled(s, Send(Direct(a, b)), n);
    assert !Enabled(s, Receive(Direct(a, b)), n);
    assert LinkOk(s, dealt, a, b, n, setSize);
    hide Phase1, RecvOk, SendOk;
  }

  lemma DirectDone(s: State, dealt: seq<Rows>, a: nat, b: nat, n: nat, setSize: nat, decode: Decoder)
    requires Inv(s, dealt, n, setSize, decode) && Standstill(s, n) && Planned(Direct(a, b), n)
    ensures Direct(a, b) in s.sent && Direct(a, b) in s.got
  {
    Phase1Matches(a, b, n);
    Phase1Matches(b, a, n);
    hide Phase1, Inv, Standstill;
    if Phase1(a, b, n).RecvThenSend? {
      FirstOfPair(s, dealt, b, a, n, setSize, decode);
    }
    FirstOfPair(s, dealt, a, b, n, setSize, decode);
  }

  lemma AllJoined(s: State, dealt: seq<Rows>, i: nat, n: nat, setSize: nat, decode: Decoder)
    requires Inv(s, dealt, n, setSize, decode) && Standstill(s, n)
    ensures Joined(s, i, n)
  {
    hide Phase1, Inv, Standstill, Planned;
    forall p: nat | p < n
      ensures Planned(Direct(i, p), n) ==> Direct(i, p) in s.sent
      ensures Planned(Direct(p, i), n) ==> Direct(p, i) in s.got
    {
      if Planned(Direct(i, p), n) { DirectDone(s, dealt, i, p, n, setSize, decode); }
      if Planned(Direct(p, i), n) { DirectDone(s, dealt, p, i, n, setSize, decode); }
    }
  }

  lemma {:induction false} RingDone(s: State, dealt: seq<Rows>, i: nat, n: nat, setSize: nat, decode: Decoder)
    requires Inv(s, dealt, n, setSize, decode) && Standstill(s, n) && i < n
    ensures Ring(i) in s.sent && Ring(i) in s.got
  {
    RingStep(i, n);
    AllJoined(s, dealt, i, n, setSize, decode);
    AllJoined(s, dealt, Succ(i, n), n, setSize, decode);
    if i > 0 {
      RingDone(s, dealt, 0, n, setSize, decode);
      RingDone(s, dealt, i - 1, n, setSize, decode);
    }
    assert !Enabled(s, Send(Ring(i)), n);
    assert !Enabled(s, Receive(Ring(i)), n);
    assert LinkOk(s, dealt, i, Succ(i, n), n, setSize);
    hide Phase1, Joined, RecvOk, SendOk, Standstill;
  }

  /** Main result on waiting: whatever the interleaving, a run can only come to a standstill after every
      message has been sent and received. */
  lemma NobodyWaits(dealt: seq<Rows>, es: seq<Event>, n: nat, setSize: nat, decode: Decoder, m: Message)
    requires 3 <= n && Dealing(dealt, n, setSize) && Allowed(Initial(dealt, n, setSize), es, n, setSize, decode)
    requires Standstill(After(Initial(dealt, n, setSize), es, n, setSize, decode), n) && Planned(m, n)
    ensures var t := After(Initial(dealt, n, setSize), es, n, setSize, decode); m in t.sent && m in t.got
  {
    var s := Initial(dealt, n, setSize);
    InitInv(dealt, n, setSize, decode);
    RunInv(s, dealt, es, n, setSize, decode);
    var t := After(s, es, n, setSize, decode);
    hide After, Inv, Standstill;
    match m
    case Direct(a, b) => DirectDone(t, dealt, a, b, n, setSize, decode);
    case Ring(a) => RingDone(t, dealt, a, n, setSize, decode);
  }

  lemma {:induction false} OneMore(s: State, es: seq<Event>, e: Event, n: nat, setSize: nat, decode: Decoder)
    requires Allowed(s, es, n, setSize, decode)
    requires Shapes(After(s, es, n, setSize, decode), n, setSize) && Enabled(After(s, es, n, setSize, decode), e, n)
    ensures Allowed(s, es + [e], n, setSize, decode)
    ensures After(s, es + [e], n, setSize, decode) == Post(After(s, es, n, setSize, decode), e, n, setSize, decode)
    decreases |es|
  {
    hide Enabled, Post, Shapes;
    if es == [] {
      assert es + [e] == [e];
      assert [e][1..] == [];
      assert Allowed(Post(s, e, n, setSize, decode), [], n, setSize, decode);
    } else {
      OneMore(Post(s, es[0], n, setSize, decode), es[1..], e, n, setSize, decode);
      assert (es + [e])[0] == es[0] && (es + [e])[1..] == es[1..] + [e];
    }
  }

  /** Every run can be continued to one in which each message has been sent and received. */
  lemma {:induction false} RunCompletes(dealt: seq<Rows>, es: seq<Event>, n: nat, setSize: nat, decode: Decoder) returns (whole: seq<Event>)
    requires 3 <= n && Dealing(dealt, n, setSize) && Allowed(Initial(dealt, n, setSize), es, n, setSize, decode)
    ensures es <= whole && Allowed(Initial(dealt, n, setSize), whole, n, setSize, decode)
    ensures forall m :: Planned(m, n) ==>
              var t := After(Initial(dealt, n, setSize), whole, n, setSize, decode); m in t.sent && m in t.got
    decreases 2 * |Messages(n)| - |es|
  {
    var s := Initial(dealt, n, setSize);
    var t := After(s, es, n, setSize, decode);
    hide Enabled, Post, Planned, Messages, Initial, Dealing, After, Allowed;
    if Standstill(t, n) {
      whole := es;
      forall m | Planned(m, n) ensures m in t.sent && m in t.got {
        NobodyWaits(dealt, es, n, setSize, decode, m);
      }
    } else {
      var e :| Enabled(t, e, n);
      InitInv(dealt, n, setSize, decode);
      RunInv(s, dealt, es, n, setSize, decode);
      hide LinkOk, SendOk, RecvOk, Started;
      OneMore(s, es, e, n, setSize, decode);
      RunsEnd(dealt, es + [e], n, setSize, decode);
      whole := RunCompletes(dealt, es + [e], n, setSize, decode);
      assert es <= es + [e];
    }
  }

  // ----- the result -----

  /** Every message decodes the element correctly on the mask, whatever row it is made from. */
  ghost predicate Decodes(decode: Decoder, m: Message, position: nat -> nat, n: nat, setSize: nat, maskSize: nat)
    requires Planned(m, n) && maskSize <= BLOCK_SIZE && position(m.from) < setSize
  {
    forall row: Row :: |row| == setSize ==>
      Delivers(decode(m, row), position(Receiver(m, n)), row[position(m.from)], maskSize)
  }

  lemma RingArrives(s: State, dealt: seq<Rows>, position: nat -> nat, i: nat, n: nat, setSize: nat, maskSize: nat, decode: Decoder)
    requires Inv(s, dealt, n, setSize, decode) && Ring(n - 1) in s.got && i < n && maskSize <= BLOCK_SIZE
    requires Ring(i) in s.got && position(i) < setSize && Decodes(decode, Ring(i), position, n, setSize, maskSize)
    ensures Prefix(At(s.recv[Succ(i, n)], i, position(Succ(i, n))), maskSize)
         == Prefix(Accumulated(i, n, At(dealt[i], Succ(i, n), position(i)), s.recv[i], position(i)), maskSize)
  {
    assert RecvOk(s, dealt, Ring(i), n, setSize, decode) && SendOk(s, dealt, i, n, setSize);
    hide Phase1, Joined, LinkOk, Accumulated, Started;
    var row := s.send[i][Succ(i, n)];
    assert Delivers(decode(Ring(i), row), position(Succ(i, n)), row[position(i)], maskSize);
  }

  lemma DirectArrives(s: State, dealt: seq<Rows>, position: nat -> nat, j: nat, i: nat, n: nat, setSize: nat, maskSize: nat, decode: Decoder)
    requires Inv(s, dealt, n, setSize, decode) && i < n && maskSize <= BLOCK_SIZE
    requires Planned(Direct(j, i), n) && Direct(j, i) in s.got && j != Prev(i, n)
    requires position(j) < setSize && Decodes(decode, Direct(j, i), position, n, setSize, maskSize)
    ensures Prefix(At(s.recv[i], j, position(i)), maskSize) == Prefix(At(dealt[j], i, position(j)), maskSize)
  {
    RingStep(i, n);
    assert RecvOk(s, dealt, Direct(j, i), n, setSize, decode);
    hide Phase1, Joined, LinkOk, SendOk, Started;
    assert Delivers(decode(Direct(j, i), dealt[j][i]), position(i), dealt[j][i][position(j)], maskSize);
  }

  /** The ring message of the last party is the last of all. */
  lemma {:induction false} RingBefore(s: State, dealt: seq<Rows>, i: nat, n: nat, setSize: nat, decode: Decoder)
    requires Inv(s, dealt, n, setSize, decode) && Ring(n - 1) in s.got && i < n
    ensures Ring(i) in s.sent && Ring(i) in s.got && Joined(s, i, n)
    decreases n - i
  {
    if i < n - 1 {
      RingBefore(s, dealt, i + 1, n, setSize, decode);
      assert Started(s, i + 1, n);
    }
    assert Started(s, i, n);
    hide LinkOk, RecvOk, SendOk, Joined;
  }

  /** The run as seen at the element, for the accounting of the ring round. */
  function Accounting(s: State, dealt: seq<Rows>, position: nat -> nat, n: nat): Run
    requires 0 < n == |dealt| && |s.recv| == n
  {
    Run((i: nat) => if i < n then dealt[i] else [], (i: nat) => if i < n then s.recv[i] else [], At(s.recv[0], n - 1, position(0)), position)
  }

  lemma AccountingDealt(s: State, dealt: seq<Rows>, position: nat -> nat, n: nat, setSize: nat)
    requires 3 <= n && |s.recv| == n && Dealing(dealt, n, setSize)
    requires forall i: nat :: i < n ==> position(i) < setSize && SharesAddUp(dealt[i], i, n, setSize)
    ensures DealtOk(Accounting(s, dealt, position, n), n)
  {
    forall i: nat | i < n
      ensures At(dealt[i], Target(i, n), position(i)) == OthersSum(dealt[i], n, i, Target(i, n), position(i))
    {
      assert SharesAddUp(dealt[i], i, n, setSize);
    }
    hide OthersSum, At, SharesAddUp;
  }

  ghost predicate AllDecode(decode: Decoder, position: nat -> nat, n: nat, setSize: nat, maskSize: nat)
    requires maskSize <= BLOCK_SIZE && forall i: nat :: i < n ==> position(i) < setSize
  {
    forall m :: Planned(m, n) ==> Decodes(decode, m, position, n, setSize, maskSize)
  }

  lemma DirectOfPair(s: State, dealt: seq<Rows>, j: nat, i: nat, n: nat, setSize: nat, decode: Decoder)
    requires Inv(s, dealt, n, setSize, decode) && Ring(n - 1) in s.got
    requires i < n && j < n && j != i && j != Prev(i, n)
    ensures Planned(Direct(j, i), n) && Direct(j, i) in s.got
  {
    RingStep(i, n);
    RingStep(j, n);
    Phase1Matches(j, i, n);
    RingBefore(s, dealt, i, n, setSize, decode);
    hide Phase1, Inv;
  }

  lemma RingHop(s: State, dealt: seq<Rows>, position: nat -> nat, i: nat, n: nat, setSize: nat, maskSize: nat, decode: Decoder)
    requires Inv(s, dealt, n, setSize, decode) && Ring(n - 1) in s.got && i < n && maskSize <= BLOCK_SIZE
    requires forall k: nat :: k < n ==> position(k) < setSize
    requires AllDecode(decode, position, n, setSize, maskSize)
    ensures var run := Accounting(s, dealt, position, n);
            Prefix(RingArrival(run, i, n), maskSize) == Prefix(HandedOn(run, i, n), maskSize)
  {
    RingStep(i, n);
    RingBefore(s, dealt, i, n, setSize, decode);
    assert Planned(Ring(i), n) && Decodes(decode, Ring(i), position, n, setSize, maskSize);
    RingArrives(s, dealt, position, i, n, setSize, maskSize, decode);
    hide Accumulated, Decodes, At, Prefix;
  }

  lemma DirectHop(s: State, dealt: seq<Rows>, position: nat -> nat, i: nat, j: nat, n: nat, setSize: nat, maskSize: nat, decode: Decoder)
    requires Inv(s, dealt, n, setSize, decode) && Ring(n - 1) in s.got && maskSize <= BLOCK_SIZE
    requires forall k: nat :: k < n ==> position(k) < setSize
    requires AllDecode(decode, position, n, setSize, maskSize)
    requires i < n && j < n && j != i && j != Prev(i, n)
    ensures var run := Accounting(s, dealt, position, n);
            Prefix(Got(run, i, j), maskSize) == Prefix(Dealt(run, j, i), maskSize)
  {
    DirectOfPair(s, dealt, j, i, n, setSize, decode);
    assert Decodes(decode, Direct(j, i), position, n, setSize, maskSize);
    DirectArrives(s, dealt, position, j, i, n, setSize, maskSize, decode);
    hide Decodes, At, Prefix;
  }

  lemma FinishedRunAgrees(s: State, dealt: seq<Rows>, position: nat -> nat, n: nat, setSize: nat, maskSize: nat, decode: Decoder)
    requires Inv(s, dealt, n, setSize, decode) && Ring(n - 1) in s.got && maskSize <= BLOCK_SIZE
    requires forall i: nat :: i < n ==> position(i) < setSize && SharesAddUp(dealt[i], i, n, setSize)
    requires AllDecode(decode, position, n, setSize, maskSize)
    ensures Prefix(At(s.recv[0], n - 1, position(0)), maskSize) == Prefix(At(dealt[0], 0, position(0)), maskSize)
  {
    var run := Accounting(s, dealt, position, n);
    AccountingDealt(s, dealt, position, n, setSize);
    hide AllDecode, DealtOk, RingArrival, HandedOn, Got, Dealt, Prefix, Prev, SharesAddUp;
    forall i: nat | i < n ensures Prefix(RingArrival(run, i, n), maskSize) == Prefix(HandedOn(run, i, n), maskSize) {
      RingHop(s, dealt, position, i, n, setSize, maskSize, decode);
    }
    forall i: nat, j: nat | i < n && j < n && j != i && j != Prev(i, n)
      ensures Prefix(Got(run, i, j), maskSize) == Prefix(Dealt(run, j, i), maskSize)
    {
      DirectHop(s, dealt, position, i, j, n, setSize, maskSize, decode);
    }
    CommonElementIsReported(run, n, maskSize);
    FinalDealt(s, dealt, position, n);
  }

  lemma FinalDealt(s: State, dealt: seq<Rows>, position: nat -> nat, n: nat)
    requires 0 < n == |dealt| && |s.recv| == n
    ensures var run := Accounting(s, dealt, position, n);
            run.final == At(s.recv[0], n - 1, position(0)) && Dealt(run, 0, 0) == At(dealt[0], 0, position(0))
  {}

  /** Main result, end to end: the parties deal shares that add up, and their threads and channels run in
      any order.  When party 0 has received the last message, its test compares two values that agree on
      the mask for every element that all transfers decode, wherever the parties keep it. */
  lemma ProtocolReportsCommonElement(dealt: seq<Rows>, es: seq<Event>, position: nat -> nat, n: nat, setSize: nat,
                                     maskSize: nat, decode: Decoder)
    requires 3 <= n && Dealing(dealt, n, setSize) && maskSize <= BLOCK_SIZE
    requires forall i: nat :: i < n ==> position(i) < setSize && SharesAddUp(dealt[i], i, n, setSize)
    requires Allowed(Initial(dealt, n, setSize), es, n, setSize, decode)
    requires Ring(n - 1) in After(Initial(dealt, n, setSize), es, n, setSize, decode).got
    requires AllDecode(decode, position, n, setSize, maskSize)
    ensures var s := After(Initial(dealt, n, setSize), es, n, setSize, decode);
            && Shapes(s, n, setSize) && position(0) < |s.recv[0][n - 1]|
            && Prefix(s.send[0][0][position(0)], maskSize) == Prefix(s.recv[0][n - 1][position(0)], maskSize)
  {
    var s0 := Initial(dealt, n, setSize);
    InitInv(dealt, n, setSize, decode);
    RunInv(s0, dealt, es, n, setSize, decode);
    var s := After(s0, es, n, setSize, decode);
    hide After, Allowed;
    FinishedRunAgrees(s, dealt, position, n, setSize, maskSize, decode);
    LastRow(s, dealt, position, n, setSize, maskSize, decode);
    RingStep(0, n);
    assert SendOk(s, dealt, 0, n, setSize);
  }

  lemma LastRow(s: State, dealt: seq<Rows>, position: nat -> nat, n: nat, setSize: nat, maskSize: nat, decode: Decoder)
    requires Inv(s, dealt, n, setSize, decode) && Ring(n - 1) in s.got && maskSize <= BLOCK_SIZE
    requires forall i: nat :: i < n ==> position(i) < setSize
    requires AllDecode(decode, position, n, setSize, maskSize)
    ensures position(0) < |s.recv[0][n - 1]|
  {
    RingStep(n - 1, n);
    var m := Ring(n - 1);
    assert Planned(m, n) && RecvOk(s, dealt, m, n, setSize, decode) && Decodes(decode, m, position, n, setSize, maskSize);
    var row := s.send[n - 1][0];
    assert Delivers(decode(m, row), position(0), row[position(n - 1)], maskSize);
  }
}
