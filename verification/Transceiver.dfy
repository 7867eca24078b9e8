/** The retransmitting sender of the serial link, over the linked queues of its buffers. */
module Transceiver {
  import opened SendSpec
  import opened SendRuns
  import BufferQueues
  import FrameParser

  const CMD_ACK: bv8 := 1
  const CMD_NACK: bv8 := 2

  /** Which frames go before the others. */
  predicate Urgent(u8Ctrl: bv8) {
    u8Ctrl & 0x3F == CMD_ACK || u8Ctrl & 0x3F == CMD_NACK
  }

  /** These are the replies to the other end, and no data is among them. */
  lemma UrgentAreReplies(u8Ctrl: bv8)
    ensures Urgent(u8Ctrl) <==> FrameParser.IsReply(u8Ctrl)
    ensures Urgent(u8Ctrl) ==> !FrameParser.IsData(u8Ctrl)
  {
    assert u8Ctrl & 0x3F == 1 <==> u8Ctrl & 0x20 == 0 && u8Ctrl & 0x1F == 1;
    assert u8Ctrl & 0x3F == 2 <==> u8Ctrl & 0x20 == 0 && u8Ctrl & 0x1F == 2;
  }

  /** What an action of the receiver does to the buffers. */
  ghost predicate Handled(action: FrameParser.Action, memory: bool, u8SeqRemote: nat, u8SeqCMDFrm: nat, p: Places,
                          i: nat, p': Places) {
    match action
    case NoAction => p' == p
    case RequestAck => if memory then Queued(p, u8SeqRemote, CMD_ACK, p') else p' == p
    case RequestNack => if memory then Queued(p, u8SeqRemote, CMD_NACK, p') else p' == p
    case RecvAck => Acked(p, u8SeqCMDFrm, i, p')
    case RecvNack => Nacked(p, u8SeqCMDFrm, i, p')
  }

  /** The frame has the sequence number and the control byte of the buffer. */
  predicate Carries(f: FrameParser.Frame, b: Buf) {
    |f.hdr| >= 6 && f.hdr[3] as nat == b.u8Seq && f.hdr[4] == b.u8Ctrl
  }

  /** What `FrameParser.BuildFrame` makes of a buffer carries what is in it. */
  lemma BuiltCarries(f: FrameParser.Frame, src: bv8, dst: bv8, seqNum: bv8, dlen: bv8, b: Buf)
    requires |f.hdr| >= 6 && f.hdr[..6] == [0x21, src, dst, seqNum, b.u8Ctrl, dlen] && seqNum as nat == b.u8Seq
    ensures Carries(f, b) && f.hdr[2] == dst
  {
    assert f.hdr[..6][3] == f.hdr[3] && f.hdr[..6][4] == f.hdr[4] && f.hdr[..6][2] == f.hdr[2];
  }

  /** An acknowledgement comes back: a good frame with the number `u8Seq` that asks for one makes the receiver queue a
      command, and the frame of that makes the sender done with the first frame that has this number and waits. */
  lemma AckComesBack(dst: bv8, u8Ctrl: bv8, u8Seq: nat, n: nat, p: Places, j: nat, p': Places, b: Buf,
                     f: FrameParser.Frame, memory: bool, m: nat, q: Places, i: nat, q': Places)
    requires u8Ctrl & 0x80 != 0 && dst != 0xFF && Handled(FrameParser.Answer(dst, u8Ctrl), true, u8Seq, n, p, j, p')
    requires p'.cmd == p.cmd + [b] && Carries(f, b)
    requires Handled(FrameParser.Answer(f.hdr[2], f.hdr[4]), memory, m, f.hdr[3] as nat, q, i, q')
    ensures Acked(q, u8Seq, i, q')
  {
    FrameParser.AnswerMeans(dst, u8Ctrl);
    FrameParser.AnswerMeans(f.hdr[2], f.hdr[4]);
    assert p'.cmd[|p.cmd|] == b;
  }

  /** So does a negative one, which makes the sender send the frame again that has the number `u8Seq`. */
  lemma NackComesBack(u8Seq: nat, n: nat, p: Places, j: nat, p': Places, b: Buf, f: FrameParser.Frame, memory: bool,
                      m: nat, q: Places, i: nat, q': Places)
    requires Handled(FrameParser.RequestNack, true, u8Seq, n, p, j, p') && p'.cmd == p.cmd + [b] && Carries(f, b)
    requires Handled(FrameParser.Answer(f.hdr[2], f.hdr[4]), memory, m, f.hdr[3] as nat, q, i, q')
    ensures Nacked(q, u8Seq, i, q')
  {
    FrameParser.AnswerMeans(f.hdr[2], f.hdr[4]);
    assert p'.cmd[|p.cmd|] == b;
  }

  class Trans {
    const q: BufferQueues.Buffers
    var bUpdateWaitingACKFrameState: bool
    var bSending: bool
    var bWaitingL1Send: bool
    var bL1Sending: bool
    /** The timer that guards the layer below is running. */
    var bL1Timer: bool
    var u8SeqLocal: nat
    var u8SeqRemote: nat
    /** A frame has been sent again because of a negative acknowledgement. */
    ghost var nacked: bool

    ghost function Repr(): set<object>
      reads this, q
    {
      {this, q, q.cmd, q.data, q.sent} + q.all
    }

    /** What holds between any two steps. */
    ghost predicate Valid()
      reads this, q, q.cmd, q.data, q.sent, q.all, q.cmd.nodes, q.data.nodes, q.sent.nodes, q.Flying()
    {
      && q.Valid() && Kept(q.P(), bWaitingL1Send, nacked)
      && (bSending <==> q.inFlight != null) && u8SeqLocal < 256
      && (bL1Timer ==> bSending && bWaitingL1Send && bL1Sending)
    }

    /** What its steps change, the sequence numbers apart. */
    ghost function S(): State
      reads this`bUpdateWaitingACKFrameState, this`bWaitingL1Send, this`bL1Sending, this`bL1Timer
      reads q, q.cmd, q.data, q.sent, q.cmd.nodes`body, q.data.nodes`body, q.sent.nodes`body, q.Flying()`body
    {
      State(q.P(), bUpdateWaitingACKFrameState, bWaitingL1Send, bL1Sending, bL1Timer)
    }

    constructor ()
      ensures Valid() && S() == Idle() && u8SeqLocal == 0 && u8SeqRemote == 0xFF
              && q.P() == Places([], [], [], [], [], [], 0) && !nacked
      ensures fresh(Repr())
    {
      q := new BufferQueues.Buffers();
      bUpdateWaitingACKFrameState, bSending, bWaitingL1Send, bL1Sending, bL1Timer := false, false, false, false, false;
      u8SeqLocal, u8SeqRemote, nacked := 0, 0xFF, false;
      new;
      forall id: nat ensures Count(q.P(), id) == 0 {}
    }

    method Enqueue(u8Seq: nat, u8Ctrl: bv8, ack: bool, urgent: bool)
      requires Valid() && InUse(q.P()) < 255
      modifies q`all, q`next, q.cmd, q.data, q.all
      ensures Valid() && old(q.all) <= q.all && fresh(q.all - old(q.all))
      ensures Step(old(S()), Put(Buf(old(q.P()).next, u8Seq, u8Ctrl, ack, 3, 50, 0), urgent), S())
    {
      JoinKeeps(q.P(), Buf(q.P().next, u8Seq, u8Ctrl, ack, 3, 50, 0), urgent, bWaitingL1Send, nacked);
      q.Allocate(u8Seq, u8Ctrl, ack, urgent);
    }

    /** The application has a frame to be sent, or the receiver a command, if there is memory for it. */
    method Send(u8Ctrl: bv8, bCmdFrm: bool, memory: bool) returns (sent: bool)
      requires Valid() && (memory ==> InUse(q.P()) < 255)
      modifies this`u8SeqLocal, q`all, q`next, q.cmd, q.data, q.all
      ensures Valid() && sent == memory && old(q.all) <= q.all && fresh(q.all - old(q.all))
      ensures u8SeqLocal == if sent && !bCmdFrm then (old(u8SeqLocal) + 1) % 256 else old(u8SeqLocal)
      ensures var u8Seq := if bCmdFrm then u8SeqRemote else old(u8SeqLocal);
        var b := Buf(old(q.P()).next, u8Seq, u8Ctrl, FrameParser.AckReq(u8Ctrl), 3, 50, 0);
        if sent then Step(old(S()), Put(b, Urgent(u8Ctrl)), S()) else S() == old(S())
    {
      if !memory { return false; }
      var u8Seq := u8SeqRemote;
      if !bCmdFrm {
        u8Seq := u8SeqLocal;
        u8SeqLocal := (u8SeqLocal + 1) % 256;
      }
      Enqueue(u8Seq, u8Ctrl, FrameParser.AckReq(u8Ctrl), Urgent(u8Ctrl));
      sent := true;
    }

    /** Data has been received; commands carry its sequence number. */
    method OnData(u8Seq: nat)
      requires Valid() && u8Seq < 256
      modifies this`u8SeqRemote
      ensures Valid() && S() == old(S()) && u8SeqRemote == u8Seq
    {
      u8SeqRemote := u8Seq;
    }

    /** The first frame with the number that waits for its acknowledgement has got it. */
    method OnAck(u8Seq: nat) returns (ghost i: nat)
      requires Valid()
      modifies q`freed, q.sent, q.all
      ensures Valid() && q.all == old(q.all) && Step(old(S()), Ack(u8Seq, i), S())
    {
      ghost var p := q.P();
      i := q.Acknowledge(u8Seq);
      AckKept(p, u8Seq, i, q.P(), bWaitingL1Send, nacked);
    }

    /** It is to be sent again. */
    method OnNack(u8Seq: nat) returns (ghost i: nat)
      requires Valid()
      modifies this`nacked, q.data, q.sent, q.all
      ensures Valid() && nacked && q.all == old(q.all) && Step(old(S()), Nack(u8Seq, i), S())
    {
      ghost var p := q.P();
      i := q.Requeue(u8Seq);
      NackKept(p, u8Seq, i, q.P(), bWaitingL1Send, nacked);
      nacked := true;
    }

    /** Does what the receiver of frames asks for; `u8SeqCMDFrm` is the number in the command it has received. */
    method RecvTask(action: FrameParser.Action, u8SeqCMDFrm: nat, memory: bool) returns (ghost i: nat)
      requires Valid() && (memory ==> InUse(q.P()) < 255)
      modifies this`u8SeqLocal, this`nacked, q, q.cmd, q.data, q.sent, q.all
      ensures Valid() && old(q.all) <= q.all && fresh(q.all - old(q.all))
      ensures nacked == (old(nacked) || action == FrameParser.RecvNack) && u8SeqLocal == old(u8SeqLocal)
      ensures Handled(action, memory, u8SeqRemote, u8SeqCMDFrm, old(q.P()), i, q.P()) && S() == old(S()).(p := q.P())
    {
      i := 0;
      match action
      case NoAction =>
      case RequestAck => var _ := Send(CMD_ACK, true, memory);
      case RequestNack => var _ := Send(CMD_NACK, true, memory);
      case RecvAck => i := OnAck(u8SeqCMDFrm);
      case RecvNack => i := OnNack(u8SeqCMDFrm);
    }

    /** The layer below has sent its frame. */
    method L1SendDone()
      requires Valid()
      modifies this`bL1Sending, this`bL1Timer
      ensures Valid() && Step(old(S()), SendDone, S())
    {
      bL1Sending := false;
      bL1Timer := false;
    }

    /** The timer ticks. */
    method UpdateTimer()
      requires Valid()
      modifies this`bUpdateWaitingACKFrameState
      ensures Valid() && Step(old(S()), Timer, S())
    {
      bUpdateWaitingACKFrameState := true;
    }

    /** The layer below has not sent its frame in time: the frame is given up. */
    method L1TimeOut()
      requires Valid() && bL1Timer
      modifies this`bL1Sending, this`bWaitingL1Send, this`bSending, this`bL1Timer, q`inFlight, q`freed
      ensures Valid() && Step(old(S()), TimeOut, S())
    {
      bL1Timer := false;
      if bL1Sending {
        DropKept(q.P(), bWaitingL1Send, nacked);
        bL1Sending := false;
        bWaitingL1Send := false;
        bSending := false;
        q.Drop();
        NoneFlying(q.P(), true, false, nacked);
      }
    }

    /** The frame in flight has been sent: it waits for its acknowledgement if it wants one. */
    method Finish()
      requires Valid() && bSending && bWaitingL1Send && !bL1Sending
      modifies this`bWaitingL1Send, this`bSending, q`inFlight, q`freed, q.sent, q.all
      ensures Valid() && !bSending && !bWaitingL1Send && q.P() == AfterRun(old(q.P()), true, false, false, false)
    {
      RunKept(q.P(), true, false, false, false, nacked);
      bSending := false;
      bWaitingL1Send := false;
      if q.inFlight.body.ack {
        q.Keep();
      } else {
        q.Drop();
      }
      NoneFlying(q.P(), true, false, nacked);
    }

    /** The frame in flight is given to the layer below. If that refuses it, it is forgotten without being freed. */
    method HandOver(accepted: bool)
      requires Valid() && bSending && !bWaitingL1Send
      modifies this`bL1Sending, this`bWaitingL1Send, this`bSending, this`bL1Timer, q`inFlight, q`leaked, q.all
      ensures Valid() && bWaitingL1Send && bL1Sending && bSending == bL1Timer == accepted
      ensures q.P() == AfterRun(old(q.P()), false, false, true, accepted)
    {
      RunKept(q.P(), false, false, true, accepted, nacked);
      bL1Sending := true;
      bWaitingL1Send := true;
      if accepted {
        q.Give();
        bL1Timer := true;
      } else {
        bSending := false;
        q.Forget();
      }
    }

    /** The frame in flight is given to the layer below, if that is ready, or is done with when it has been sent. */
    method RunSendFrame(l1Ready: bool, accepted: bool)
      requires Valid() && bSending
      modifies this`bL1Sending, this`bWaitingL1Send, this`bSending, this`bL1Timer
      modifies q`inFlight, q`freed, q`leaked, q.sent, q.all
      ensures Valid() && S() == Flown(old(S()), l1Ready, accepted)
    {
      if bWaitingL1Send {
        if !bL1Sending { Finish(); }
      } else if l1Ready {
        HandOver(accepted);
      }
    }

    /** Starts sending the next buffer, if there is one. */
    method LaunchNext()
      requires Valid() && !bSending
      modifies this`bSending, this`bWaitingL1Send, this`bL1Sending, q`inFlight, q.cmd, q.data, q.all
      ensures Valid() && S() == Loaded(old(S()))
    {
      LaunchKept(q.P(), bWaitingL1Send, nacked);
      q.Launch();
      bSending := q.inFlight != null;
      if bSending { bWaitingL1Send, bL1Sending := false, false; }
    }

    /** Counts the timers down if the timer has ticked. */
    method Tick()
      requires Valid()
      modifies this`bUpdateWaitingACKFrameState, q`freed, q.data, q.sent, q.all
      ensures Valid() && S() == old(S()).(p := AfterTick(old(q.P()), old(bUpdateWaitingACKFrameState)), due := false)
    {
      if bUpdateWaitingACKFrameState {
        bUpdateWaitingACKFrameState := false;
        TickKept(q.P(), bWaitingL1Send, nacked);
        q.CheckTimeOut();
      }
    }

    /** One run of the sending task. */
    method SendTask(l1Ready: bool, accepted: bool)
      requires Valid()
      modifies this`bUpdateWaitingACKFrameState, this`bL1Sending, this`bWaitingL1Send, this`bSending, this`bL1Timer
      modifies q`inFlight, q`freed, q`leaked, q.cmd, q.data, q.sent, q.all
      ensures Valid() && Step(old(S()), Task(l1Ready, accepted), S())
    {
      Tick();
      if !bSending { LaunchNext(); }
      if bSending { RunSendFrame(l1Ready, accepted); }
    }
  }
}
