/** Whole runs of the retransmitting sender: what its steps keep, and how fast its timers run. */
module SendRuns {
  import opened SendSpec

  /** The sender between two steps. `due`: the timer has ticked since the last run of the sending task; `guarded`: the
      timer that guards the layer below is running. */
  datatype State = State(p: Places, due: bool, waiting: bool, l1Sending: bool, guarded: bool)

  /** What happens to it. */
  datatype Event =
    | Put(b: Buf, urgent: bool)
    | Ack(u8Seq: nat, i: nat)
    | Nack(u8Seq: nat, i: nat)
    | Timer
    | SendDone
    | TimeOut
    | Task(l1Ready: bool, accepted: bool)

  /** The next buffer is taken to be sent, if none is in flight. */
  function Loaded(s: State): State {
    if s.p.fly != [] || AfterLaunch(s.p).fly == [] then s
    else s.(p := AfterLaunch(s.p), waiting := false, l1Sending := false)
  }

  /** A step of the frame in flight. */
  function Flown(s: State, l1Ready: bool, accepted: bool): State {
    if s.p.fly == [] || (if s.waiting then s.l1Sending else !l1Ready) then s
    else s.(p := AfterRun(s.p, s.waiting, s.l1Sending, l1Ready, accepted), waiting := !s.waiting,
            l1Sending := !s.waiting, guarded := !s.waiting && accepted)
  }

  /** A run of the sending task. */
  function TaskRun(s: State, l1Ready: bool, accepted: bool): State {
    Flown(Loaded(s.(p := AfterTick(s.p, s.due), due := false)), l1Ready, accepted)
  }

  ghost predicate Step(s: State, e: Event, s': State) {
    match e
    case Put(b, urgent) =>
      && b.id == s.p.next && b.u8NumSend == 3 && b.i16TimeOut == 50 && b.sends == 0
      && s' == s.(p := Joined(s.p, b, urgent))
    case Ack(u8Seq, i) => Acked(s.p, u8Seq, i, s'.p) && s' == s.(p := s'.p)
    case Nack(u8Seq, i) => Nacked(s.p, u8Seq, i, s'.p) && s' == s.(p := s'.p)
    case Timer => s' == s.(due := true)
    case SendDone => s' == s.(l1Sending := false, guarded := false)
    case TimeOut =>
      && s.guarded
      && s' == if !s.l1Sending then s.(guarded := false)
               else State(s.p.(fly := [], freed := s.p.freed + s.p.fly), s.due, false, false, false)
    case Task(l1Ready, accepted) => s' == TaskRun(s, l1Ready, accepted)
  }

  /** `run` are the states that the events lead through. */
  ghost predicate Run(run: seq<State>, es: seq<Event>) {
    |run| == |es| + 1 && forall i: nat {:trigger es[i]} | i < |es| :: Step(run[i], es[i], run[i + 1])
  }

  // ---------- What every run keeps

  lemma TaskKept(s: State, l1Ready: bool, accepted: bool, nacked: bool)
    requires Kept(s.p, s.waiting, nacked)
    ensures var s' := TaskRun(s, l1Ready, accepted); Kept(s'.p, s'.waiting, nacked)
  {
    TickKept(s.p, s.waiting, nacked);
    var s1 := s.(p := AfterTick(s.p, s.due), due := false);
    if s1.p.fly == [] { LaunchKept(s1.p, s1.waiting, nacked); }
    var s2 := Loaded(s1);
    RunKept(s2.p, s2.waiting, s2.l1Sending, l1Ready, accepted, nacked);
    var s3 := Flown(s2, l1Ready, accepted);
    if s2.waiting && s3 != s2 { NoneFlying(s3.p, true, false, nacked); }
  }

  lemma StepKept(s: State, e: Event, s': State, nacked: bool)
    requires Kept(s.p, s.waiting, nacked) && Step(s, e, s')
    ensures Kept(s'.p, s'.waiting, nacked || e.Nack?)
  {
    match e
    case Put(b, urgent) => JoinKeeps(s.p, b, urgent, s.waiting, nacked);
    case Ack(u8Seq, i) => AckKept(s.p, u8Seq, i, s'.p, s.waiting, nacked);
    case Nack(u8Seq, i) => NackKept(s.p, u8Seq, i, s'.p, s.waiting, nacked);
    case Timer =>
    case SendDone =>
    case TimeOut =>
      if s.l1Sending {
        DropKept(s.p, s.waiting, nacked);
        NoneFlying(s'.p, s.waiting, false, nacked);
      }
    case Task(l1Ready, accepted) => TaskKept(s, l1Ready, accepted, nacked);
  }

  /** A sender that has just been started. */
  function Idle(): State {
    State(Places([], [], [], [], [], [], 0), false, false, false, false)
  }

  lemma {:induction false} IdleKept()
    ensures Kept(Idle().p, false, false)
  {
    forall id: nat ensures Count(Idle().p, id) == 0 {}
  }

  lemma {:induction false} AlwaysKept(run: seq<State>, es: seq<Event>, k: nat)
    requires Run(run, es) && run[0] == Idle() && k <= |es|
    ensures Kept(run[k].p, run[k].waiting, exists i: nat | i < k :: es[i].Nack?)
  {
    if k == 0 {
      IdleKept();
    } else {
      AlwaysKept(run, es, k - 1);
      var before := exists i: nat | i < k - 1 :: es[i].Nack?;
      assert Step(run[k - 1], es[k - 1], run[k]);
      StepKept(run[k - 1], es[k - 1], run[k], before);
      assert (before || es[k - 1].Nack?) == exists i: nat | i < k :: es[i].Nack?;
    }
  }

  /** The timer that guards the layer below runs exactly while that has a frame to send. */
  predicate Watched(s: State) {
    (s.guarded <==> s.p.fly != [] && s.l1Sending) && (s.l1Sending ==> s.waiting)
  }

  lemma WatchKept(s: State, e: Event, s': State)
    requires Watched(s) && Step(s, e, s')
    ensures Watched(s')
  {
  }

  /** So it does in every run from the start on. */
  lemma {:induction false} AlwaysWatched(run: seq<State>, es: seq<Event>, k: nat)
    requires Run(run, es) && run[0] == Idle() && k <= |es|
    ensures Watched(run[k])
  {
    if k > 0 {
      AlwaysWatched(run, es, k - 1);
      assert Step(run[k - 1], es[k - 1], run[k]);
      WatchKept(run[k - 1], es[k - 1], run[k]);
    }
  }

  /** In a run without negative acknowledgements, every buffer that has been allocated is in one place, and no frame is
      sent more than three times. */
  lemma NeverMoreThanThrice(run: seq<State>, es: seq<Event>, k: nat)
    requires Run(run, es) && run[0] == Idle() && k <= |es| && forall i: nat | i < k :: !es[i].Nack?
    ensures Partition(run[k].p)
    ensures var p := run[k].p;
      forall b | b in p.cmd + p.data + p.sent + p.fly + p.freed + p.leaked :: b.sends <= 3
  {
    AlwaysKept(run, es, k);
    assert Keep(0);
    var p := run[k].p;
    forall b | b in p.cmd + p.data + p.sent + p.fly + p.freed + p.leaked
      ensures b.sends <= 3
    {
      SentAtMostThrice(p, run[k].waiting, b);
    }
  }

  // ---------- How fast the timers run

  ghost predicate Alive(p: Places, b: Buf) {
    b in p.cmd || b in p.data || b in p.sent || b in p.fly
  }

  /** What has been done with stays that. */
  ghost predicate Stays(p: Places, p': Places) {
    && p.next <= p'.next
    && forall id: nat :: (In(p.freed, id) ==> In(p'.freed, id)) && (In(p.leaked, id) ==> In(p'.leaked, id))
  }

  ghost predicate Source(p: Places, b': Buf, c: nat) {
    exists b :: Alive(p, b) && b.id == b'.id && b'.i16TimeOut >= b.i16TimeOut - c
  }

  /** Every timer in `p'` has its full value, or has been counted down at most `c` times since `p`. */
  ghost predicate From(p: Places, p': Places, c: nat) {
    forall b' | Alive(p', b') :: b'.i16TimeOut == 50 || Source(p, b', c)
  }

  /** No timer has been counted down more than `c` times. */
  ghost predicate Slower(p: Places, p': Places, c: nat) {
    forall b, b' | Alive(p, b) && Alive(p', b') && b.id == b'.id :: b'.i16TimeOut >= b.i16TimeOut - c
  }

  lemma InAt(s: seq<Buf>, b: Buf, b': Buf)
    requires Distinct(s) && b.id == b'.id
    ensures b in s || b' in s ==> In(s, b.id)
    ensures b in s && b' in s ==> b == b'
  {
    if b in s {
      var i: nat :| i < |s| && s[i] == b;
      assert s[i].id == b.id;
      if b' in s {
        var j: nat :| j < |s| && s[j] == b';
        assert i == j;
      }
    } else if b' in s {
      var j: nat :| j < |s| && s[j] == b';
      assert s[j].id == b.id;
    }
  }

  /** There is one buffer of that number. */
  lemma Unique(p: Places, b: Buf, b': Buf)
    requires Partition(p) && Alive(p, b) && Alive(p, b') && b.id == b'.id
    ensures b == b' && b.id < p.next && !In(p.freed, b.id) && !In(p.leaked, b.id)
  {
    assert Count(p, b.id) == One(b.id < p.next);
    InAt(p.cmd, b, b');
    InAt(p.data, b, b');
    InAt(p.sent, b, b');
    InAt(p.fly, b, b');
  }

  /** What has not been done with is alive. */
  lemma StillAlive(p: Places, id: nat) returns (b: Buf)
    requires Partition(p) && id < p.next && !In(p.freed, id) && !In(p.leaked, id)
    ensures Alive(p, b) && b.id == id
  {
    assert Count(p, id) == 1;
    if In(p.cmd, id) {
      var i: nat :| i < |p.cmd| && p.cmd[i].id == id;
      b := p.cmd[i];
    } else if In(p.data, id) {
      var i: nat :| i < |p.data| && p.data[i].id == id;
      b := p.data[i];
    } else if In(p.sent, id) {
      var i: nat :| i < |p.sent| && p.sent[i].id == id;
      b := p.sent[i];
    } else {
      var i: nat :| i < |p.fly| && p.fly[i].id == id;
      b := p.fly[i];
    }
  }

  lemma FullAtMost(p: Places, b: Buf)
    requires Timed(p) && Alive(p, b)
    ensures b.i16TimeOut <= 50
  {
  }

  lemma FromSlower(p: Places, p': Places, c: nat)
    requires Partition(p) && Timed(p) && From(p, p', c)
    ensures Slower(p, p', c)
  {
    forall b, b' | Alive(p, b) && Alive(p', b') && b.id == b'.id
      ensures b'.i16TimeOut >= b.i16TimeOut - c
    {
      FullAtMost(p, b);
      if b'.i16TimeOut != 50 {
        var b0 :| Alive(p, b0) && b0.id == b'.id && b'.i16TimeOut >= b0.i16TimeOut - c;
        Unique(p, b, b0);
      }
    }
  }

  /** Counting down adds up. */
  lemma SlowerOn(p: Places, p1: Places, p2: Places, c1: nat, c2: nat)
    requires Partition(p) && Partition(p1) && Partition(p2) && Stays(p, p1) && Stays(p1, p2)
    requires Slower(p, p1, c1) && Slower(p1, p2, c2)
    ensures Slower(p, p2, c1 + c2) && Stays(p, p2)
  {
    forall b, b2 | Alive(p, b) && Alive(p2, b2) && b.id == b2.id
      ensures b2.i16TimeOut >= b.i16TimeOut - (c1 + c2)
    {
      Unique(p, b, b);
      Unique(p2, b2, b2);
      var b1 := StillAlive(p1, b.id);
    }
  }

  lemma InMore(s: seq<Buf>, t: seq<Buf>, id: nat)
    ensures In(s, id) ==> In(s + t, id)
  {
    if In(s, id) {
      var i: nat :| i < |s| && s[i].id == id;
      assert (s + t)[i].id == id;
    }
  }

  lemma StaysMore(p: Places, p': Places, t: seq<Buf>, u: seq<Buf>)
    requires p'.freed == p.freed + t && p'.leaked == p.leaked + u && p.next <= p'.next
    ensures Stays(p, p')
  {
    forall id: nat
      ensures (In(p.freed, id) ==> In(p'.freed, id)) && (In(p.leaked, id) ==> In(p'.leaked, id))
    {
      InMore(p.freed, t, id);
      InMore(p.leaked, u, id);
    }
  }

  /** A tick counts down once, or sends again with the timer reset. */
  lemma TickFrom(p: Places)
    requires InOrder(p.sent)
    ensures From(p, AfterTick(p, true), 1) && Stays(p, AfterTick(p, true))
  {
    var s, r, p' := p.sent, Pass(p.sent), AfterTick(p, true);
    PassMeaning(s);
    StaysMore(p, p', r.lost, []);
    forall b' | Alive(p', b')
      ensures b'.i16TimeOut == 50 || Source(p, b', 1)
    {
      if b' in r.sent {
        var i: nat :| i < |r.sent| && r.sent[i] == b';
        var b := if r.again != [] then s[|r.lost|..][i + 1] else s[|r.lost|..][i];
        assert b in s && Alive(p, b) && b.id == b'.id && b'.i16TimeOut >= b.i16TimeOut - 1;
      } else if b' !in r.again {
        assert Alive(p, b');
      }
    }
  }

  /** All but the ones with a full timer are there as they were. */
  lemma SameFrom(p: Places, p': Places, t: seq<Buf>, u: seq<Buf>)
    requires p'.freed == p.freed + t && p'.leaked == p.leaked + u && p.next <= p'.next
    requires forall b' | Alive(p', b') :: b'.i16TimeOut == 50 || Alive(p, b')
    ensures From(p, p', 0) && Stays(p, p')
  {
    StaysMore(p, p', t, u);
    forall b' | Alive(p', b') && b'.i16TimeOut != 50
      ensures Source(p, b', 0)
    {
      assert Alive(p, b') && b'.i16TimeOut >= b'.i16TimeOut - 0;
    }
  }

  lemma LaunchFrom(p: Places)
    requires Timed(p)
    ensures From(p, AfterLaunch(p), 0) && Stays(p, AfterLaunch(p))
  {
    assert p.freed + [] == p.freed && p.leaked + [] == p.leaked;
    SameFrom(p, AfterLaunch(p), [], []);
  }

  lemma RunFrom(p: Places, waiting: bool, l1Sending: bool, l1Ready: bool, accepted: bool)
    requires Timed(p)
    ensures var p' := AfterRun(p, waiting, l1Sending, l1Ready, accepted); From(p, p', 0) && Stays(p, p')
  {
    var p' := AfterRun(p, waiting, l1Sending, l1Ready, accepted);
    assert p.freed + [] == p.freed && p.leaked + [] == p.leaked;
    SameFrom(p, p', if p'.freed == p.freed then [] else p.fly, if p'.leaked == p.leaked then [] else p.fly);
  }

  /** From `p` to `p'`, timers have been counted down at most `c` times. */
  ghost predicate Aged(p: Places, p': Places, c: nat) {
    Kept(p, false, true) && Kept(p', false, true) && Slower(p, p', c) && Stays(p, p')
  }

  lemma Settled(p: Places, waiting: bool, nacked: bool)
    requires Kept(p, waiting, nacked)
    ensures Kept(p, false, true)
  {
    assert Keep(0);
  }

  lemma AgedFrom(p: Places, p': Places, c: nat)
    requires Kept(p, false, true) && Kept(p', false, true) && From(p, p', c) && Stays(p, p')
    ensures Aged(p, p', c)
  {
    assert Keep(0);
    FromSlower(p, p', c);
  }

  lemma AgedOn(p: Places, p1: Places, p2: Places, c1: nat, c2: nat)
    requires Aged(p, p1, c1) && Aged(p1, p2, c2)
    ensures Aged(p, p2, c1 + c2)
  {
    assert Keep(0);
    SlowerOn(p, p1, p2, c1, c2);
  }

  lemma AgedSame(p: Places)
    requires Kept(p, false, true)
    ensures Aged(p, p, 0)
  {
    assert p.freed + [] == p.freed && p.leaked + [] == p.leaked;
    SameFrom(p, p, [], []);
    AgedFrom(p, p, 0);
  }

  lemma LaunchAged(s: State)
    requires Kept(s.p, s.waiting, true)
    ensures Aged(s.p, Loaded(s).p, 0) && Kept(Loaded(s).p, Loaded(s).waiting, true)
  {
    Settled(s.p, s.waiting, true);
    AgedSame(s.p);
    if s.p.fly == [] {
      LaunchKept(s.p, s.waiting, true);
      Settled(AfterLaunch(s.p), s.waiting && AfterLaunch(s.p).fly == [], true);
      assert Keep(0);
      LaunchFrom(s.p);
      AgedFrom(s.p, AfterLaunch(s.p), 0);
    }
  }

  lemma RunAged(s: State, l1Ready: bool, accepted: bool)
    requires Kept(s.p, s.waiting, true)
    ensures Aged(s.p, Flown(s, l1Ready, accepted).p, 0)
  {
    var p' := AfterRun(s.p, s.waiting, s.l1Sending, l1Ready, accepted);
    Settled(s.p, s.waiting, true);
    AgedSame(s.p);
    RunKept(s.p, s.waiting, s.l1Sending, l1Ready, accepted, true);
    Settled(p', s.waiting || l1Ready, true);
    assert Keep(0);
    RunFrom(s.p, s.waiting, s.l1Sending, l1Ready, accepted);
    AgedFrom(s.p, p', 0);
  }

  /** A run of the task counts down once, and only if the timer has ticked. */
  lemma TaskAged(s: State, l1Ready: bool, accepted: bool)
    requires Kept(s.p, s.waiting, true)
    ensures Aged(s.p, TaskRun(s, l1Ready, accepted).p, One(s.due))
  {
    var s1 := s.(p := AfterTick(s.p, s.due), due := false);
    Settled(s.p, s.waiting, true);
    AgedSame(s.p);
    TickKept(s.p, s.waiting, true);
    Settled(AfterTick(s.p, true), s.waiting, true);
    TickFrom(s.p);
    AgedFrom(s.p, AfterTick(s.p, true), 1);
    var s2 := Loaded(s1);
    LaunchAged(s1);
    RunAged(s2, l1Ready, accepted);
    AgedOn(s.p, s1.p, s2.p, One(s.due), 0);
    AgedOn(s.p, s2.p, Flown(s2, l1Ready, accepted).p, One(s.due), 0);
  }

  lemma EventFrom(s: State, e: Event, s': State)
    requires Step(s, e, s') && !e.Task?
    ensures From(s.p, s'.p, 0) && Stays(s.p, s'.p)
  {
    var p := s.p;
    assert p.freed + [] == p.freed && p.leaked + [] == p.leaked;
    var t := if e.Ack? && e.i < |p.sent| then [p.sent[e.i]] else if e.TimeOut? && s.l1Sending then p.fly else [];
    SameFrom(p, s'.p, t, []);
  }

  lemma StepAged(s: State, e: Event, s': State)
    requires Kept(s.p, s.waiting, true) && Step(s, e, s')
    ensures Aged(s.p, s'.p, if e.Task? then One(s.due) else 0) && Kept(s'.p, s'.waiting, true)
  {
    StepKept(s, e, s', true);
    if e.Task? {
      TaskAged(s, e.l1Ready, e.accepted);
    } else {
      Settled(s.p, s.waiting, true);
      Settled(s'.p, s'.waiting, true);
      EventFrom(s, e, s');
      AgedFrom(s.p, s'.p, 0);
    }
  }

  /** How often the timer has ticked. */
  function Ticks(es: seq<Event>, k: nat): nat
    requires k <= |es|
  {
    if k == 0 then 0 else Ticks(es, k - 1) + One(es[k - 1].Timer?)
  }

  lemma AgedStep(p: Places, s: State, e: Event, s': State, c: nat)
    requires Kept(s.p, s.waiting, true) && Step(s, e, s') && One(s.due) <= c && Aged(p, s.p, c - One(s.due))
    ensures One(s'.due) <= c + One(e.Timer?) && Aged(p, s'.p, c + One(e.Timer?) - One(s'.due))
    ensures Kept(s'.p, s'.waiting, true)
  {
    StepAged(s, e, s');
    AgedOn(p, s.p, s'.p, c - One(s.due), if e.Task? then One(s.due) else 0);
  }

  lemma AgedNext(run: seq<State>, es: seq<Event>, k: nat)
    requires Run(run, es) && k < |es| && Kept(run[k].p, run[k].waiting, true)
    requires One(run[k].due) <= One(run[0].due) + Ticks(es, k)
    requires Aged(run[0].p, run[k].p, One(run[0].due) + Ticks(es, k) - One(run[k].due))
    ensures One(run[k + 1].due) <= One(run[0].due) + Ticks(es, k + 1)
    ensures Aged(run[0].p, run[k + 1].p, One(run[0].due) + Ticks(es, k + 1) - One(run[k + 1].due))
    ensures Kept(run[k + 1].p, run[k + 1].waiting, true)
  {
    AgedStep(run[0].p, run[k], es[k], run[k + 1], One(run[0].due) + Ticks(es, k));
  }

  lemma {:induction false} AgedAlong(run: seq<State>, es: seq<Event>, k: nat)
    requires Run(run, es) && Kept(run[0].p, run[0].waiting, true) && k <= |es|
    ensures Kept(run[k].p, run[k].waiting, true)
    ensures One(run[k].due) <= One(run[0].due) + Ticks(es, k)
    ensures Aged(run[0].p, run[k].p, One(run[0].due) + Ticks(es, k) - One(run[k].due))
  {
    if k == 0 {
      Settled(run[0].p, run[0].waiting, true);
      AgedSame(run[0].p);
    } else {
      AgedAlong(run, es, k - 1);
      AgedNext(run, es, k - 1);
    }
  }

  /** However often the task runs, and whatever else happens, the timer of a frame is counted down at most once for each
      tick: at most once between two of them. */
  lemma CountedDownAtMost(run: seq<State>, es: seq<Event>, b: Buf, b': Buf)
    requires Run(run, es) && Kept(run[0].p, run[0].waiting, true)
    requires Alive(run[0].p, b) && Alive(run[|es|].p, b') && b.id == b'.id
    ensures b'.i16TimeOut >= b.i16TimeOut - One(run[0].due) - Ticks(es, |es|)
  {
    AgedAlong(run, es, |es|);
  }

  // ---------- Which frames are sent, and which are given up

  /** If nothing is in flight, the first that is queued is launched: commands go before data, and each in the order in
      which they were queued. */
  lemma InTurn(s: State)
    requires Partition(s.p) && s.p.fly == []
    ensures var queued, p := s.p.cmd + s.p.data, Loaded(s).p;
      if queued == [] then p == s.p
      else |p.fly| == 1 && p.fly[0].(u8NumSend := queued[0].u8NumSend) == queued[0] && p.cmd + p.data == queued[1..]
           && !In(p.cmd, queued[0].id) && !In(p.data, queued[0].id)
  {
    var queued, p := s.p.cmd + s.p.data, Loaded(s).p;
    if queued != [] {
      var id := queued[0].id;
      assert p.cmd + p.data == queued[1..];
      assert Count(s.p, id) == One(id < s.p.next);
      if s.p.cmd != [] { assert In(s.p.cmd, s.p.cmd[0].id); }
    }
  }

  /** What a tick gives up has been sent three times. */
  lemma TickFrees(p: Places, waiting: bool, k: nat)
    requires Kept(p, waiting, false) && |p.freed| <= k < |AfterTick(p, true).freed|
    ensures var b := AfterTick(p, true).freed[k]; b.sends == 3 && b.u8NumSend == 0 && b.i16TimeOut == 0
  {
    assert Keep(0);
    PassMeaning(p.sent);
    GivenUpAfterThree(p.sent, Pass(p.sent).lost[k - |p.freed|]);
  }

  /** A step of the frame in flight frees it only if it wants no acknowledgement. */
  lemma RunFrees(s: State, l1Ready: bool, accepted: bool, k: nat)
    requires |s.p.freed| <= k < |Flown(s, l1Ready, accepted).p.freed| && |s.p.fly| <= 1
    ensures !Flown(s, l1Ready, accepted).p.freed[k].ack
  {
  }

  lemma TaskFrees(s: State, l1Ready: bool, accepted: bool, k: nat)
    requires Kept(s.p, s.waiting, false) && |s.p.freed| <= k < |TaskRun(s, l1Ready, accepted).p.freed|
    ensures var b := TaskRun(s, l1Ready, accepted).p.freed[k];
      b.ack ==> s.due && b.sends == 3 && b.u8NumSend == 0 && b.i16TimeOut == 0
  {
    var s1 := s.(p := AfterTick(s.p, s.due), due := false);
    assert Loaded(s1).p.freed == s1.p.freed;
    assert |Loaded(s1).p.fly| <= 1 by { assert Keep(0); }
    if k < |s1.p.freed| {
      TickFrees(s.p, s.waiting, k);
    } else {
      RunFrees(Loaded(s1), l1Ready, accepted, k);
    }
  }

  /** A frame that wants an acknowledgement is freed only when it is acknowledged, when the layer below does not send it
      in time, or when it has been sent three times and its timer has run out once more. */
  lemma FreedOnlyFor(s: State, e: Event, s': State, k: nat)
    requires Step(s, e, s') && Kept(s.p, s.waiting, false) && |s.p.freed| <= k < |s'.p.freed|
    ensures var b := s'.p.freed[k];
      match e
      case Ack(u8Seq, i) => b.u8Seq == u8Seq
      case TimeOut => s.p.fly == [b]
      case Task(l1Ready, accepted) => b.ack ==> s.due && b.sends == 3 && b.u8NumSend == 0 && b.i16TimeOut == 0
      case _ => false
  {
    if e.Task? {
      TaskFrees(s, e.l1Ready, e.accepted, k);
    } else {
      assert Keep(0);
    }
  }
}
