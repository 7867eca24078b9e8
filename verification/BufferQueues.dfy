/** The buffers themselves: they are linked through the queues of the sender, never through two at a time. */
module BufferQueues {
  import opened SendSpec
  import Q = Queue

  /** The three queues, the buffer in flight, and the buffers that have been freed. */
  class Buffers {
    const cmd: Q.Queue
    const data: Q.Queue
    const sent: Q.Queue
    var inFlight: Q.Mem?
    /** What the freed buffers held. */
    ghost var freed: seq<Buf>
    /** What those held that have been lost. */
    ghost var leaked: seq<Buf>
    /** The buffers that have been allocated, and how many. */
    ghost var all: set<Q.Mem>
    var next: nat

    ghost function Flying(): set<Q.Mem>
      reads this
    {
      if inFlight == null then {} else {inFlight}
    }

    ghost function Fly(): (s: seq<Buf>)
      reads this, Flying()`body
    {
      if inFlight == null then [] else [inFlight.body]
    }

    // What the predicates that mention `Own` say is used only where it is mentioned.
    predicate Own(i: int) {
      true
    }

    ghost predicate Shows(p: Places)
      reads this, cmd, data, sent, cmd.nodes`body, data.nodes`body, sent.nodes`body, Flying()`body
    {
      forall i: int {:trigger Own(i)} | Own(i) ::
        p == Places(cmd.V(), data.V(), sent.V(), Fly(), freed, leaked, next)
    }

    /** Where the buffers are, and what they hold. */
    ghost function P(): (p: Places)
      reads this, cmd, data, sent, cmd.nodes`body, data.nodes`body, sent.nodes`body, Flying()`body
      ensures Shows(p) && p.next == next && p.fly == Fly()
      ensures |p.cmd| == |cmd.nodes| && |p.data| == |data.nodes| && |p.sent| == |sent.nodes|
    {
      assert Own(0);
      assert Shows(Places(cmd.V(), data.V(), sent.V(), Fly(), freed, leaked, next));
      var p :| Shows(p);
      p
    }

    /** Every buffer is linked in one queue at most, and the one in flight in none; the memory has room for 255. */
    ghost predicate Valid()
      reads this, cmd, data, sent, all`pNext, all`owner
    {
      && cmd.repr <= all && data.repr <= all && sent.repr <= all && Flying() <= all
      && forall i: int {:trigger Own(i)} | Own(i) :: Owned()
    }

    ghost predicate Owned()
      reads this, cmd, data, sent, all`pNext, all`owner
      requires cmd.repr <= all && data.repr <= all && sent.repr <= all && Flying() <= all
    {
      && cmd != data && cmd != sent && data != sent
      && |cmd.nodes| + |data.nodes| + |sent.nodes| + (if inFlight == null then 0 else 1) <= 255
      && cmd.Valid() && data.Valid() && sent.Valid()
      && (inFlight != null ==> inFlight.owner == null)
    }

    constructor ()
      ensures Valid() && P() == Places([], [], [], [], [], [], 0) && all == {} && inFlight == null
      ensures fresh(cmd) && fresh(data) && fresh(sent)
    {
      cmd := new Q.Queue();
      data := new Q.Queue();
      sent := new Q.Queue();
      inFlight, freed, leaked, all, next := null, [], [], {}, 0;
      new;
      assert Own(0);
    }

    /** A new buffer, which is in no queue yet. */
    method New(u8Seq: nat, u8Ctrl: bv8, ack: bool) returns (m: Q.Mem)
      requires Valid()
      modifies this`all, this`next
      ensures Valid() && fresh(m) && all == old(all) + {m} && m.owner == null
      ensures m.body == Buf(old(next), u8Seq, u8Ctrl, ack, 3, 50, 0)
      ensures P() == old(P()).(next := old(next) + 1) && inFlight == old(inFlight)
    {
      assert Own(0);
      m := new Q.Mem(Buf(next, u8Seq, u8Ctrl, ack, 3, 50, 0));
      all := all + {m};
      next := next + 1;
    }

    /** Puts a buffer that is in no queue to the end of the commands. */
    method PutCmd(m: Q.Mem)
      requires Valid() && m in all && m.owner == null && m != inFlight && InUse(P()) < 255
      modifies cmd, cmd.repr`pNext, m`pNext, m`owner
      ensures Valid() && P() == old(P()).(cmd := old(P()).cmd + [m.body])
    {
      assert Own(0);
      cmd.Append(m);
    }

    /** To the end of the data. */
    method PutData(m: Q.Mem)
      requires Valid() && m in all && m.owner == null && m != inFlight && InUse(P()) < 255
      modifies data, data.repr`pNext, m`pNext, m`owner
      ensures Valid() && P() == old(P()).(data := old(P()).data + [m.body])
      ensures m.pNext == null
    {
      assert Own(0);
      data.Append(m);
    }

    /** To the end of what has been sent. */
    method PutSent(m: Q.Mem)
      requires Valid() && m in all && m.owner == null && m != inFlight && InUse(P()) < 255
      modifies sent, sent.repr`pNext, m`pNext, m`owner
      ensures Valid() && P() == old(P()).(sent := old(P()).sent + [m.body])
    {
      assert Own(0);
      sent.Append(m);
    }

    /** A new buffer is queued. */
    method Allocate(u8Seq: nat, u8Ctrl: bv8, ack: bool, urgent: bool)
      requires Valid() && InUse(P()) < 255
      modifies this`all, this`next, cmd, data, all
      ensures Valid() && old(all) <= all && fresh(all - old(all))
      ensures P() == Joined(old(P()), Buf(old(P()).next, u8Seq, u8Ctrl, ack, 3, 50, 0), urgent)
    {
      var m := New(u8Seq, u8Ctrl, ack);
      if urgent {
        PutCmd(m);
      } else {
        PutData(m);
      }
    }

    /** Takes the first command. */
    method TakeCmd() returns (m: Q.Mem)
      requires Valid() && inFlight == null && cmd.nodes != []
      modifies cmd, cmd.repr`pNext, cmd.repr`owner
      ensures Valid() && P() == old(P()).(cmd := old(P()).cmd[1..])
      ensures m in all && m.owner == null && m.body == old(P()).cmd[0]
    {
      assert Own(0);
      m := cmd.Pop();
    }

    /** Takes the first data. */
    method TakeData() returns (m: Q.Mem)
      requires Valid() && inFlight == null && data.nodes != []
      modifies data, data.repr`pNext, data.repr`owner
      ensures Valid() && P() == old(P()).(data := old(P()).data[1..])
      ensures m in all && m.owner == null && m.body == old(P()).data[0]
    {
      assert Own(0);
      m := data.Pop();
    }

    /** Takes the first buffer with this sequence number out of what has been sent. */
    method TakeSent(u8Seq: nat) returns (m: Q.Mem?, ghost i: nat)
      requires Valid()
      modifies sent, sent.repr`pNext, sent.repr`owner
      ensures Valid()
      ensures m == null ==> P() == old(P()) && sent.nodes == old(sent.nodes)
      ensures m == null ==> forall j: nat | j < |P().sent| :: P().sent[j].u8Seq != u8Seq
      ensures m != null ==> FirstSeq(old(P()).sent, u8Seq, i) && P() == old(P()).(sent := Without(old(P()).sent, i))
      ensures m != null ==> m in all && m.owner == null && m.body == old(P()).sent[i]
      ensures m != null ==> m == old(sent.nodes)[i] && sent.nodes == Q.CutAt(old(sent.nodes), i)
                            && m.pNext == old(m.pNext) && m != inFlight
    {
      assert Own(0);
      m, i := sent.Remove(Q.WithSeq(u8Seq));
    }

    /** Changes what a sent buffer holds. */
    method Set(m: Q.Mem, b: Buf, ghost i: nat)
      requires Valid() && i < |sent.nodes| && m == sent.nodes[i]
      modifies m`body
      ensures Valid() && P() == old(P()).(sent := old(P()).sent[i := b]) && m.body == b
    {
      assert Own(0);
      assert m !in cmd.nodes && m !in data.nodes && m != inFlight && Q.Different(sent.nodes) by {
        assert Q.At(0);
        Q.MemberAt(sent.nodes, i);
        assert m in cmd.nodes ==> m in Q.Members(cmd.nodes);
        assert m in data.nodes ==> m in Q.Members(data.nodes);
      }
      m.body := b;
    }

    ghost predicate Unlinked(m: Q.Mem)
      reads this, cmd, data, sent, all`pNext, all`owner, m`owner
      requires Valid() && m.owner == null
      ensures m !in cmd.nodes && m !in data.nodes && m !in sent.nodes
    {
      assert Own(0);
      assert Q.At(0);
      assert m in cmd.nodes ==> m in Q.Members(cmd.nodes);
      assert m in data.nodes ==> m in Q.Members(data.nodes);
      assert m in sent.nodes ==> m in Q.Members(sent.nodes);
      true
    }

    /** Puts a buffer that is in no queue into flight. */
    method Load(m: Q.Mem, b: Buf)
      requires Valid() && inFlight == null && m in all && m.owner == null && InUse(P()) < 255
      modifies this`inFlight, m`body
      ensures Valid() && P() == old(P()).(fly := [b])
    {
      assert Own(0);
      assert Unlinked(m);
      m.body := b;
      inFlight := m;
    }

    /** Sets the timer of a buffer that is in no place. */
    method Reset(m: Q.Mem)
      requires Valid() && m.owner == null && m != inFlight
      modifies m`body
      ensures Valid() && P() == old(P()) && m.body == old(m.body).(i16TimeOut := 50)
    {
      assert Own(0);
      assert Unlinked(m);
      m.body := m.body.(i16TimeOut := 50);
    }

    /** The first command is taken to be sent. */
    method LaunchCmd()
      requires Valid() && inFlight == null && cmd.nodes != []
      modifies this`inFlight, cmd, all
      ensures Valid() && P() == AfterLaunch(old(P()))
    {
      assert Own(0);
      var m := TakeCmd();
      Load(m, Taken(m.body));
    }

    /** The first data, if there are no commands. */
    method LaunchData()
      requires Valid() && inFlight == null && cmd.nodes == [] && data.nodes != []
      modifies this`inFlight, data, all
      ensures Valid() && P() == AfterLaunch(old(P()))
    {
      assert Own(0);
      var m := TakeData();
      Load(m, Taken(m.body));
    }

    /** Starts sending the next buffer, if there is one. */
    method Launch()
      requires Valid() && inFlight == null
      modifies this`inFlight, cmd, data, all
      ensures Valid() && P() == AfterLaunch(old(P()))
    {
      assert Own(0);
      if cmd.u8Size > 0 {
        LaunchCmd();
      } else if data.u8Size > 0 {
        LaunchData();
      }
    }

    /** The frame in flight has been given to the layer below. */
    method Give()
      requires Valid() && inFlight != null
      modifies inFlight`body
      ensures Valid() && P() == old(P()).(fly := [Given(old(P()).fly[0])])
    {
      assert Own(0);
      assert Unlinked(inFlight);
      inFlight.body := Given(inFlight.body);
    }

    /** The buffer in flight is put to those that wait for their acknowledgements. */
    method Keep()
      requires Valid() && inFlight != null
      modifies this`inFlight, sent, all
      ensures Valid() && P() == old(P()).(fly := [], sent := old(P()).sent + old(P()).fly) && inFlight == null
    {
      assert Own(0);
      var m := inFlight;
      inFlight := null;
      PutSent(m);
    }

    /** The buffer in flight is done with, and is freed. */
    method Drop()
      requires Valid() && inFlight != null
      modifies this`inFlight, this`freed
      ensures Valid() && P() == old(P()).(fly := [], freed := old(P()).freed + old(P()).fly) && inFlight == null
    {
      assert Own(0);
      freed := freed + [inFlight.body];
      inFlight := null;
    }

    /** The buffer in flight is forgotten. */
    method Forget()
      requires Valid() && inFlight != null
      modifies this`inFlight, this`leaked
      ensures Valid() && P() == old(P()).(fly := [], leaked := old(P()).leaked + old(P()).fly) && inFlight == null
    {
      assert Own(0);
      leaked := leaked + [inFlight.body];
      inFlight := null;
    }

    /** The first buffer in the sent queue with this sequence number is taken out of it and freed. */
    method Acknowledge(u8Seq: nat) returns (ghost i: nat)
      requires Valid()
      modifies this`freed, sent, all
      ensures Valid() && Acked(old(P()), u8Seq, i, P())
    {
      assert Own(0);
      var m;
      m, i := TakeSent(u8Seq);
      if m != null {
        freed := freed + [m.body];
      } else {
        i := |P().sent|;
      }
    }

    /** It is taken out of it, and queued to be sent again with its timer reset. */
    method Requeue(u8Seq: nat) returns (ghost i: nat)
      requires Valid()
      modifies data, sent, all
      ensures Valid() && Nacked(old(P()), u8Seq, i, P())
    {
      assert Own(0);
      var m;
      m, i := TakeSent(u8Seq);
      if m != null {
        Reset(m);
        PutData(m);
      } else {
        i := |P().sent|;
      }
    }

    /** The first of what has been sent, found by its sequence number. */
    method TakeFirst(m: Q.Mem)
      requires Valid() && sent.nodes != [] && m == sent.nodes[0]
      modifies sent, sent.repr`pNext, sent.repr`owner
      ensures Valid() && P() == old(P()).(sent := old(P()).sent[1..])
      ensures m in all && m.owner == null && m != inFlight && m.body == old(P()).sent[0]
      ensures m.pNext == (if sent.nodes == [] then null else sent.nodes[0])
    {
      assert Own(0);
      ghost var q := P();
      assert Q.At(0);
      var r;
      ghost var i;
      r, i := TakeSent(m.body.u8Seq);
      assert q.sent[0] == m.body;
      assert Without(q.sent, 0) == q.sent[1..];
    }

    /** The first of what has been sent is to be sent again. Appending it clears its link, which is followed then. */
    method SendAgain(m: Q.Mem) returns (next: Q.Mem?)
      requires Valid() && sent.nodes != [] && m == sent.nodes[0]
      modifies data, sent, all
      ensures Valid() && next == null
      ensures P() == old(P()).(sent := old(P()).sent[1..], data := old(P()).data + [old(m.body).(i16TimeOut := 50)])
    {
      assert Own(0);
      TakeFirst(m);
      Reset(m);
      PutData(m);
      next := m.pNext;
    }

    /** The first of what has been sent is given up. Its link still leads to the next one. */
    method GiveUp(m: Q.Mem) returns (next: Q.Mem?)
      requires Valid() && sent.nodes != [] && m == sent.nodes[0]
      modifies this`freed, sent, all
      ensures Valid() && next == if sent.nodes == [] then null else sent.nodes[0]
      ensures P() == old(P()).(sent := old(P()).sent[1..], freed := old(P()).freed + [old(m.body)])
    {
      assert Own(0);
      TakeFirst(m);
      next := m.pNext;
      freed := freed + [m.body];
    }

    method CountDown(m: Q.Mem, ghost i: nat)
      requires Valid() && i < |sent.nodes| && m == sent.nodes[i]
      modifies all`body
      ensures Valid() && P() == old(P()).(sent := old(P()).sent[i := Tick1(old(P()).sent[i])])
      ensures m.body == Tick1(old(P()).sent[i])
      ensures m.pNext == if i + 1 < |sent.nodes| then sent.nodes[i + 1] else null
    {
      assert Own(0);
      assert m in all by {
        assert Q.At(i);
        Q.MemberAt(sent.nodes, i);
      }
      assert Q.At(i);
      Set(m, m.body.(i16TimeOut := m.body.i16TimeOut - 1), i);
    }

    /** Visits the buffer at place `k`; `done` if it has been sent again. */
    method Visit(m: Q.Mem, ghost p: Places, ghost s: seq<Buf>, ghost k: nat, ghost lost: seq<Buf>)
      returns (next: Q.Mem?, ghost s': seq<Buf>, ghost k': nat, ghost lost': seq<Buf>, ghost done: bool)
      requires Valid() && k < |sent.nodes| && m == sent.nodes[k] && Walking(p, s, k, P(), lost)
      modifies this`freed, data, sent, all
      ensures Valid() && k' <= |sent.nodes| && |sent.nodes| - k' < old(|sent.nodes|) - k
      ensures next == if done || k' == |sent.nodes| then null else sent.nodes[k']
      ensures if done then P() == AfterTick(p, true) else Walking(p, s', k', P(), lost')
    {
      assert Own(0);
      ghost var q := P();
      s', k', lost', done := s, k + 1, lost, false;
      CountDown(m, k);
      if m.body.i16TimeOut == 0 {
        k' := 0;
        if m.body.u8NumSend > 0 {
          WalkedAgain(p, s, k, q, lost);
          next := SendAgain(m);
          done := true;
        } else {
          WalkedOff(p, s, k, q, lost);
          next := GiveUp(m);
          s', lost' := s[1..], lost + [Tick1(s[0])];
        }
      } else {
        WalkedOn(p, s, k, q, lost);
        next := m.pNext;
      }
    }

    /** Goes through the buffers that wait for their acknowledgements along their links, once in a tick. */
    method CheckTimeOut()
      requires Valid() && InOrder(P().sent)
      modifies this`freed, data, sent, all
      ensures Valid() && P() == AfterTick(old(P()), true)
    {
      assert Own(0);
      ghost var p, s, lost, done := P(), P().sent, [], false;
      ghost var k: nat := 0;
      WalkBegins(p);
      var pMem := sent.Peek();
      while pMem != null
        invariant Valid() && k <= |sent.nodes|
        invariant pMem == if done || k == |sent.nodes| then null else sent.nodes[k]
        invariant if done then P() == AfterTick(p, true) else Walking(p, s, k, P(), lost)
        decreases |sent.nodes| - k
      {
        pMem, s, k, lost, done := Visit(pMem, p, s, k, lost);
      }
      if !done { WalkEnds(p, s, P(), lost); }
    }
  }
}
