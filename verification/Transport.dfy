/** A socket with its two operation queues, as BtIOService.cpp and BtChannel.cpp change it, and what
    the two ends of a connection give together. */
module Transport {
  import opened Blocks
  import S = SendQueue
  import R = RecvQueue
  import opened Strand

  const U32: nat := 0x1_0000_0000

  class BtSocket {
    var mSendQueue: seq<S.SendOp>
    var mRecvQueue: seq<R.RecvOp>
    var mSendStrand: seq<Handler<S.SendOp>>
    var mRecvStrand: seq<Handler<R.RecvOp>>
    var mStopped: bool
    var mOutstandingSendData: nat
    var mMaxOutstandingSendData: nat
    var mTotalSentData: nat
    var mTotalRecvData: nat

    /** The part of the handle: an async_write under way, the phase of an async_read, the messages
        written, and the messages that arrived. */
    var writing: bool
    var phase: R.Phase
    var output: seq<S.Payload>
    var input: seq<R.Payload>
    /** The contents of the receive buffers whose promise was fulfilled. */
    var delivered: seq<R.Payload>

    ghost var sendPosted: seq<S.SendOp>
    ghost var sendDone: seq<S.SendOp>
    ghost var sendCompleted: seq<S.SendOp>
    ghost var recvPosted: seq<R.RecvOp>
    ghost var recvDone: seq<R.RecvOp>
    ghost var recvCompleted: seq<R.RecvOp>

    ghost function Sends(): S.State
      reads this
    {
      S.State(mSendStrand, mSendQueue, writing, mOutstandingSendData, mMaxOutstandingSendData, mTotalSentData,
              sendPosted, sendDone, output, sendCompleted)
    }

    ghost function Recvs(): R.State
      reads this
    {
      R.State(mRecvStrand, mRecvQueue, phase, mTotalRecvData, input, recvPosted, recvDone, delivered, recvCompleted)
    }

    /** Both queues are in a state that their invariants describe. */
    ghost predicate Valid()
      reads this
    {
      S.Inv(Sends()) && R.Inv(Recvs())
    }

    /** What the mStopped gate keeps as long as close is called once: no operation was dispatched after
        a close, and none was dispatched before the gate shut. */
    ghost predicate Gated()
      reads `mStopped, `sendPosted, `recvPosted
    {
      && S.CloseIsLast(sendPosted) && R.CloseIsLast(recvPosted)
      && (!mStopped ==> S.CloseSend !in sendPosted && R.CloseRecv !in recvPosted)
    }

    constructor ()
      ensures Valid() && Gated() && !mStopped && Sends() == S.EMPTY && Recvs() == R.EMPTY
    {
      mSendQueue, mRecvQueue, mSendStrand, mRecvStrand := [], [], [], [];
      mStopped, writing, phase := false, false, R.Idle;
      mOutstandingSendData, mMaxOutstandingSendData, mTotalSentData, mTotalRecvData := 0, 0, 0, 0;
      output, input, delivered := [], [], [];
      sendPosted, sendDone, sendCompleted := [], [], [];
      recvPosted, recvDone, recvCompleted := [], [], [];
      new;
      S.InitInv();
      R.InitInv();
    }

    // ----- BtIOService::dispatch -----

    method DispatchSend(op: S.SendOp) returns (thrown: bool)
      requires Valid()
      modifies `mSendStrand, `sendPosted
      ensures thrown <==> op.SendData? && op.Size() == 0
      ensures thrown ==> Sends() == old(Sends())
      ensures !thrown ==> S.Enabled(old(Sends()), S.Post(op)) && Sends() == S.Step(old(Sends()), S.Post(op))
      ensures S.Inv(Sends())
    {
      hide S.Inv;
      if op.SendData? && op.Size() == 0 {
        return true;
      }
      S.StepInv(Sends(), S.Post(op));
      mSendStrand := mSendStrand + [Enqueue(op)];
      sendPosted := sendPosted + [op];
      thrown := false;
    }

    method DispatchRecv(op: R.RecvOp) returns (thrown: bool)
      requires Valid()
      modifies `mRecvStrand, `recvPosted
      ensures thrown <==> op == R.RecvFixed(0)
      ensures thrown ==> Recvs() == old(Recvs())
      ensures !thrown ==> R.Enabled(old(Recvs()), R.Post(op)) && Recvs() == R.Step(old(Recvs()), R.Post(op))
      ensures R.Inv(Recvs())
    {
      hide R.Inv;
      if op.RecvFixed? && op.size == 0 {
        return true;
      }
      R.StepInv(Recvs(), R.Post(op));
      mRecvStrand := mRecvStrand + [Enqueue(op)];
      recvPosted := recvPosted + [op];
      thrown := false;
    }

    // ----- the handlers of the send strand, sendOne and the completion of a write -----

    method SendOne()
      requires mSendQueue != []
      modifies `mSendQueue, `writing, `output, `sendDone, `sendCompleted
      ensures Sends() == S.SendOne(old(Sends()))
    {
      var op := mSendQueue[0];
      match op {
        case SendData(payload) =>
          writing := true;
          output := output + [payload];
        case CloseSend =>
          mSendQueue := mSendQueue[1..];
          sendDone := sendDone + [op];
          sendCompleted := sendCompleted + [op];
      }
    }

    method RunEnqueueSend(op: S.SendOp)
      modifies `mSendQueue, `writing, `output, `sendDone, `sendCompleted, `mTotalSentData, `mOutstandingSendData, `mMaxOutstandingSendData
      ensures Sends() == S.RunEnqueue(old(Sends()), op)
    {
      hide S.SendOne;
      PutInQueue(op);
      if |mSendQueue| == 1 {
        SendOne();
      }
    }

    method PutInQueue(op: S.SendOp)
      modifies `mSendQueue, `mTotalSentData, `mOutstandingSendData, `mMaxOutstandingSendData
      ensures Sends() == S.Queued(old(Sends()), op)
    {
      hide S.SendOp.Size, S.Max, S.AddU64;
      mSendQueue := mSendQueue + [op];
      mTotalSentData := S.AddU64(mTotalSentData, op.Size());
      mOutstandingSendData := S.AddU64(mOutstandingSendData, op.Size());
      mMaxOutstandingSendData := S.Max(mOutstandingSendData, mMaxOutstandingSendData);
    }

    method RunPopSend()
      requires mSendQueue != []
      modifies `mSendQueue, `writing, `output, `sendDone, `sendCompleted
      ensures Sends() == S.RunPop(old(Sends()))
    {
      hide S.SendOne;
      sendDone := sendDone + [mSendQueue[0]];
      mSendQueue := mSendQueue[1..];
      if |mSendQueue| != 0 {
        SendOne();
      }
    }

    method RunSendStrand()
      requires Valid() && mSendStrand != []
      modifies `mSendStrand, `mSendQueue, `writing, `output, `sendDone, `sendCompleted, `mTotalSentData, `mOutstandingSendData, `mMaxOutstandingSendData
      ensures Valid() && S.Enabled(old(Sends()), S.Run) && Sends() == S.Step(old(Sends()), S.Run)
    {
      hide S.Inv, R.Inv, S.RunEnqueue, S.RunPop;
      ghost var before := Sends();
      S.RunEnabled(before);
      S.StepInv(before, S.Run);
      S.StepKeepsPosted(before);
      var handler := mSendStrand[0];
      mSendStrand := mSendStrand[1..];
      match handler {
        case Enqueue(op) => RunEnqueueSend(op);
        case PopFront => RunPopSend();
      }
    }

    method WriteCompleted()
      requires Valid() && writing
      modifies `mSendStrand, `writing, `mOutstandingSendData, `sendCompleted
      ensures Valid() && S.Enabled(old(Sends()), S.Complete) && Sends() == S.Step(old(Sends()), S.Complete)
    {
      hide S.Inv, R.Inv;
      S.RunEnabled(Sends());
      S.StepInv(Sends(), S.Complete);
      sendCompleted := sendCompleted + [mSendQueue[0]];
      mOutstandingSendData := (mOutstandingSendData - mSendQueue[0].Size()) % S.U64;
      writing := false;
      mSendStrand := mSendStrand + [PopFront];
    }

    // ----- the handlers of the receive strand, receiveOne and the completions of its two reads -----

    method ReceiveOne()
      requires mRecvQueue != []
      modifies `mRecvQueue, `phase, `recvDone, `recvCompleted
      ensures Recvs() == R.ReceiveOne(old(Recvs()))
    {
      var op := mRecvQueue[0];
      if op.CloseRecv? {
        mRecvQueue := mRecvQueue[1..];
        recvDone := recvDone + [op];
        recvCompleted := recvCompleted + [op];
      } else {
        phase := R.ReadingHeader;
      }
    }

    method RunEnqueueRecv(op: R.RecvOp)
      modifies `mRecvQueue, `phase, `recvDone, `recvCompleted, `mTotalRecvData
      ensures Recvs() == R.RunEnqueue(old(Recvs()), op)
    {
      hide R.ReceiveOne;
      mTotalRecvData := (mTotalRecvData + op.Size()) % R.U64;
      mRecvQueue := mRecvQueue + [op];
      if |mRecvQueue| == 1 {
        ReceiveOne();
      }
    }

    method RunPopRecv()
      requires mRecvQueue != []
      modifies `mRecvQueue, `phase, `recvDone, `recvCompleted
      ensures Recvs() == R.RunPop(old(Recvs()))
    {
      hide R.ReceiveOne;
      recvDone := recvDone + [mRecvQueue[0]];
      mRecvQueue := mRecvQueue[1..];
      if |mRecvQueue| != 0 {
        ReceiveOne();
      }
    }

    method RunRecvStrand()
      requires Valid() && mRecvStrand != []
      modifies `mRecvStrand, `mRecvQueue, `phase, `recvDone, `recvCompleted, `mTotalRecvData
      ensures Valid() && R.Enabled(old(Recvs()), R.Run) && Recvs() == R.Step(old(Recvs()), R.Run)
    {
      hide S.Inv, R.Inv, R.RunEnqueue, R.RunPop;
      ghost var before := Recvs();
      R.RunEnabled(before);
      R.StepInv(before, R.Run);
      R.StepKeepsPosted(before);
      var handler := mRecvStrand[0];
      mRecvStrand := mRecvStrand[1..];
      match handler {
        case Enqueue(op) => RunEnqueueRecv(op);
        case PopFront => RunPopRecv();
      }
    }

    method HeaderRead()
      requires Valid() && phase.ReadingHeader? && |delivered| < |input|
      modifies `phase
      ensures Valid() && R.Enabled(old(Recvs()), R.HeaderRead) && Recvs() == R.Step(old(Recvs()), R.HeaderRead)
      ensures mRecvQueue != [] && match mRecvQueue[0] {
                case RecvResizable => phase == R.ReadingBody
                case RecvFixed(n) => phase == if n == |input[|delivered|]| then R.ReadingBody else R.Refused
                case CloseRecv => false
              }
    {
      hide S.Inv, R.Inv;
      R.RunEnabled(Recvs());
      R.HeaderStep(Recvs());
      R.StepInv(Recvs(), R.HeaderRead);
      var size := |input[|delivered|]|;
      var op := mRecvQueue[0];
      if op.RecvResizable? || (op.RecvFixed? && op.size == size) {
        phase := R.ReadingBody;
      } else {
        phase := R.Refused;
      }
    }

    method BodyRead()
      requires Valid() && phase.ReadingBody? && |delivered| < |input|
      modifies `phase, `delivered, `recvCompleted, `mRecvStrand
      ensures Valid() && R.Enabled(old(Recvs()), R.BodyRead) && Recvs() == R.Step(old(Recvs()), R.BodyRead)
    {
      hide S.Inv, R.Inv;
      R.RunEnabled(Recvs());
      R.StepInv(Recvs(), R.BodyRead);
      phase := R.Idle;
      delivered := delivered + [input[|delivered|]];
      recvCompleted := recvCompleted + [mRecvQueue[0]];
      mRecvStrand := mRecvStrand + [PopFront];
    }

    // ----- BtChannel -----

    /** asyncSend: the size is cast to 32 bits, so only that many bytes are sent. */
    method AsyncSend(buff: seq<Byte>) returns (thrown: bool)
      requires Valid()
      modifies `mSendStrand, `sendPosted
      ensures Valid() && (thrown <==> mStopped || |buff| % U32 == 0) && (old(Gated()) ==> Gated())
      ensures thrown ==> Sends() == old(Sends())
      ensures !thrown ==> sendPosted == old(sendPosted) + [S.SendData(buff[..|buff| % U32])]
      ensures !thrown ==> mSendStrand == old(mSendStrand) + [Enqueue(S.SendData(buff[..|buff| % U32]))]
    {
      hide S.Inv, R.Inv;
      if mStopped {
        return true;
      }
      thrown := DispatchSend(S.SendData(buff[..|buff| % U32]));
    }

    method AsyncRecv(size: nat) returns (thrown: bool)
      requires Valid()
      modifies `mRecvStrand, `recvPosted
      ensures Valid() && (thrown <==> mStopped || size % U32 == 0) && (old(Gated()) ==> Gated())
      ensures thrown ==> Recvs() == old(Recvs())
      ensures !thrown ==> recvPosted == old(recvPosted) + [R.RecvFixed(size % U32)]
      ensures !thrown ==> mRecvStrand == old(mRecvStrand) + [Enqueue(R.RecvFixed(size % U32))]
    {
      hide S.Inv, R.Inv;
      if mStopped {
        return true;
      }
      thrown := DispatchRecv(R.RecvFixed(size % U32));
    }

    method AsyncRecvResizable() returns (thrown: bool)
      requires Valid()
      modifies `mRecvStrand, `recvPosted
      ensures Valid() && (thrown <==> mStopped) && (old(Gated()) ==> Gated())
      ensures thrown ==> Recvs() == old(Recvs())
      ensures !thrown ==> recvPosted == old(recvPosted) + [R.RecvResizable]
      ensures !thrown ==> mRecvStrand == old(mRecvStrand) + [Enqueue(R.RecvResizable)]
    {
      hide S.Inv, R.Inv;
      if mStopped {
        return true;
      }
      thrown := DispatchRecv(R.RecvResizable);
    }

    /** close shuts the gate first, so the first call makes the two close operations the last of their
        queues.  It does not look at the gate: another call dispatches them again. */
    method Close()
      requires Valid()
      modifies `mStopped, `mSendStrand, `sendPosted, `mRecvStrand, `recvPosted
      ensures Valid() && mStopped && (old(Gated()) && !old(mStopped) ==> Gated())
      ensures recvPosted == old(recvPosted) + [R.CloseRecv] && sendPosted == old(sendPosted) + [S.CloseSend]
      ensures mRecvStrand == old(mRecvStrand) + [Enqueue(R.CloseRecv)]
      ensures mSendStrand == old(mSendStrand) + [Enqueue(S.CloseSend)]
    {
      hide S.Inv, R.Inv;
      mStopped := true;
      var thrown := DispatchRecv(R.CloseRecv);
      thrown := DispatchSend(S.CloseSend);
    }
  }

  // ----- the two ends together -----

  /** Message i: the i-th message dispatched at one end, and wanted by the i-th receive at the other. */
  predicate SentAndReceived(s: S.State, r: R.State, i: nat) {
    && i < |r.delivered| && i < |S.Payloads(s.posted)| && S.Payloads(s.posted)[i] == r.delivered[i]
    && i < |R.DataOps(r.posted)|
    && (R.DataOps(r.posted)[i] == R.RecvResizable || R.DataOps(r.posted)[i] == R.RecvFixed(|r.delivered[i]|))
  }

  /** Main result: when the receiver's stream is what the sender's socket wrote so far, the i-th message
      delivered is the i-th message the sender dispatched, in a buffer of the size the receiver's i-th
      receive asked for, whatever closes were dispatched in between. */
  lemma DeliveredInOrder(s: S.State, r: R.State)
    requires S.Inv(s) && R.Inv(r) && r.stream <= s.wire
    ensures forall i :: 0 <= i < |r.delivered| ==> SentAndReceived(s, r, i)
  {
    hide S.Inv, R.Inv, S.Payloads, R.DataOps;
    S.InOrder(s);
    R.InOrder(r);
    forall i | 0 <= i < |r.delivered| ensures SentAndReceived(s, r, i) {
      PrefixAt(r.delivered, r.stream, i);
      PrefixAt(r.stream, s.wire, i);
      PrefixAt(s.wire, S.Payloads(s.posted), i);
    }
  }

  lemma PrefixAt(a: seq<S.Payload>, b: seq<S.Payload>, i: nat)
    requires a <= b && i < |a|
    ensures i < |b| && a[i] == b[i]
  {}
}
