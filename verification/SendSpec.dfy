/** What the retransmitting sender does to its buffers: where every buffer is from its allocation until it is freed, and
    how often its frame is sent. */
module SendSpec {

  /** A buffer with a frame, as far as sending is concerned. `id` tells it from all other buffers; `sends` counts how
      many times it has been given to the layer below. */
  datatype Buf = Buf(id: nat, u8Seq: nat, u8Ctrl: bv8, ack: bool, u8NumSend: nat, i16TimeOut: int, sends: nat)

  /** Where the buffers are: in one of the queues, in flight (at most one), freed, or lost without being freed. */
  datatype Places = Places(cmd: seq<Buf>, data: seq<Buf>, sent: seq<Buf>, fly: seq<Buf>, freed: seq<Buf>,
                           leaked: seq<Buf>, next: nat)

  /** How many buffers are in use. */
  function InUse(p: Places): nat {
    |p.cmd| + |p.data| + |p.sent| + |p.fly|
  }

  ghost predicate In(s: seq<Buf>, id: nat) {
    exists i: nat :: i < |s| && s[i].id == id
  }

  ghost predicate Distinct(s: seq<Buf>) {
    forall i: nat, j: nat | i < j < |s| :: s[i].id != s[j].id
  }

  function One(b: bool): nat {
    if b then 1 else 0
  }

  /** In how many places the buffer is. */
  ghost function Count(p: Places, id: nat): nat {
    One(In(p.cmd, id)) + One(In(p.data, id)) + One(In(p.sent, id)) + One(In(p.fly, id)) + One(In(p.freed, id))
    + One(In(p.leaked, id))
  }

  ghost predicate AllDistinct(p: Places) {
    && Distinct(p.cmd) && Distinct(p.data) && Distinct(p.sent) && Distinct(p.freed) && Distinct(p.leaked)
    && |p.fly| <= 1
  }

  /** Every buffer that has been allocated is in exactly one place, once. */
  ghost predicate Partition(p: Places) {
    && AllDistinct(p)
    && forall id: nat :: Count(p, id) == One(id < p.next)
  }

  // ---------- Lists of buffers

  lemma Appended(s: seq<Buf>, b: Buf, id: nat)
    ensures In(s + [b], id) <==> In(s, id) || b.id == id
  {
    if In(s, id) {
      var i: nat :| i < |s| && s[i].id == id;
      assert (s + [b])[i].id == id;
    }
    assert (s + [b])[|s|] == b;
  }

  lemma AppendDistinct(s: seq<Buf>, b: Buf)
    requires Distinct(s) && !In(s, b.id)
    ensures Distinct(s + [b])
  {
  }

  function Without(s: seq<Buf>, i: nat): (t: seq<Buf>)
    requires i < |s|
    ensures |t| == |s| - 1 && forall j: nat | j < |t| :: t[j] == s[if j < i then j else j + 1]
  {
    s[..i] + s[i + 1..]
  }

  lemma Removed(s: seq<Buf>, i: nat, id: nat)
    requires Distinct(s) && i < |s|
    ensures Distinct(Without(s, i)) && !In(Without(s, i), s[i].id)
    ensures id != s[i].id ==> (In(Without(s, i), id) <==> In(s, id))
    ensures In(s, s[i].id)
  {
    var t := Without(s, i);
    if id != s[i].id && In(s, id) {
      var j: nat :| j < |s| && s[j].id == id;
      assert t[if j < i then j else j - 1].id == id;
    }
  }

  // ---------- Moves

  /** A new buffer goes to the end of a queue. */
  lemma Allocated(p: Places, b: Buf, cmd: bool)
    requires Partition(p) && b.id == p.next
    ensures Partition(if cmd then p.(cmd := p.cmd + [b], next := p.next + 1)
                      else p.(data := p.data + [b], next := p.next + 1))
  {
    assert Count(p, b.id) == 0;
    AppendDistinct(p.cmd, b);
    AppendDistinct(p.data, b);
    var p' := if cmd then p.(cmd := p.cmd + [b], next := p.next + 1) else p.(data := p.data + [b], next := p.next + 1);
    forall id: nat
      ensures Count(p', id) == One(id < p'.next)
    {
      assert Count(p, id) == One(id < p.next);
      Appended(p.cmd, b, id);
      Appended(p.data, b, id);
    }
  }

  /** What a move changes: the buffer `b` leaves one place and enters another one, possibly with other counters. */
  ghost predicate Moved(p: Places, p': Places, id: nat) {
    && p'.next == p.next
    && AllDistinct(p')
    && Count(p', id) == 1 && Count(p, id) == 1
    && forall x: nat | x != id :: Count(p', x) == Count(p, x)
  }

  lemma MoveKeeps(p: Places, p': Places, id: nat)
    requires Partition(p) && Moved(p, p', id)
    ensures Partition(p')
  {
    forall x: nat
      ensures Count(p', x) == One(x < p'.next)
    {
      assert Count(p, x) == One(x < p.next);
    }
  }

  lemma Launched(p: Places, cmd: bool, b: Buf)
    requires Partition(p) && p.fly == []
    requires if cmd then p.cmd != [] && p.cmd[0].id == b.id else p.data != [] && p.data[0].id == b.id
    ensures Partition(if cmd then p.(cmd := p.cmd[1..], fly := [b]) else p.(data := p.data[1..], fly := [b]))
  {
    var p' := if cmd then p.(cmd := p.cmd[1..], fly := [b]) else p.(data := p.data[1..], fly := [b]);
    forall x: nat
      ensures Distinct(p'.cmd) && Distinct(p'.data)
      ensures x == b.id ==> Count(p', x) == 1 && Count(p, x) == 1
      ensures x != b.id ==> Count(p', x) == Count(p, x)
    {
      assert Count(p, x) == One(x < p.next);
      assert [b][0].id == b.id;
      if cmd {
        assert p.cmd[1..] == Without(p.cmd, 0);
        Removed(p.cmd, 0, x);
      } else {
        assert p.data[1..] == Without(p.data, 0);
        Removed(p.data, 0, x);
      }
    }
    assert Count(p', b.id) == 1;
    MoveKeeps(p, p', b.id);
  }

  lemma Landed(p: Places, b: Buf, keep: bool)
    requires Partition(p) && p.fly == [b]
    ensures Partition(if keep then p.(fly := [], sent := p.sent + [b]) else p.(fly := [], freed := p.freed + [b]))
  {
    var p' := if keep then p.(fly := [], sent := p.sent + [b]) else p.(fly := [], freed := p.freed + [b]);
    assert p.fly[0].id == b.id && Count(p, b.id) == One(b.id < p.next);
    AppendDistinct(p.sent, b);
    AppendDistinct(p.freed, b);
    forall x: nat
      ensures x == b.id ==> Count(p', x) == 1
      ensures x != b.id ==> Count(p', x) == Count(p, x)
    {
      Appended(p.sent, b, x);
      Appended(p.freed, b, x);
    }
    assert Count(p', b.id) == 1;
    MoveKeeps(p, p', b.id);
  }

  lemma Refused(p: Places, b: Buf)
    requires Partition(p) && p.fly == [b]
    ensures Partition(p.(fly := [], leaked := p.leaked + [b]))
  {
    var p' := p.(fly := [], leaked := p.leaked + [b]);
    assert p.fly[0].id == b.id && Count(p, b.id) == One(b.id < p.next);
    AppendDistinct(p.leaked, b);
    forall x: nat
      ensures x == b.id ==> Count(p', x) == 1
      ensures x != b.id ==> Count(p', x) == Count(p, x)
    {
      Appended(p.leaked, b, x);
    }
    assert Count(p', b.id) == 1;
    MoveKeeps(p, p', b.id);
  }

  lemma TakenBack(p: Places, i: nat, b: Buf, again: bool)
    requires Partition(p) && i < |p.sent| && b.id == p.sent[i].id
    ensures Partition(if again then p.(sent := Without(p.sent, i), data := p.data + [b])
                      else p.(sent := Without(p.sent, i), freed := p.freed + [b]))
  {
    var p' := if again then p.(sent := Without(p.sent, i), data := p.data + [b])
              else p.(sent := Without(p.sent, i), freed := p.freed + [b]);
    Removed(p.sent, i, b.id);
    assert Count(p, b.id) == One(b.id < p.next);
    AppendDistinct(p.data, b);
    AppendDistinct(p.freed, b);
    forall x: nat
      ensures x == b.id ==> Count(p', x) == 1
      ensures x != b.id ==> Count(p', x) == Count(p, x)
    {
      Removed(p.sent, i, x);
      Appended(p.data, b, x);
      Appended(p.freed, b, x);
    }
    assert Count(p', b.id) == 1;
    MoveKeeps(p, p', b.id);
  }

  /** Only counters have changed. */
  ghost predicate SameIds(s: seq<Buf>, t: seq<Buf>) {
    |s| == |t| && forall i: nat | i < |s| :: s[i].id == t[i].id
  }

  lemma Relabelled(p: Places, sent: seq<Buf>, fly: seq<Buf>)
    requires Partition(p) && SameIds(p.sent, sent) && SameIds(p.fly, fly)
    ensures Partition(p.(sent := sent, fly := fly))
  {
    forall id: nat
      ensures Count(p.(sent := sent, fly := fly), id) == One(id < p.next)
    {
      assert Count(p, id) == One(id < p.next);
      assert In(p.sent, id) <==> In(sent, id) by {
        if i: nat :| i < |sent| && sent[i].id == id { assert p.sent[i].id == id; }
        if i: nat :| i < |p.sent| && p.sent[i].id == id { assert sent[i].id == id; }
      }
      assert In(p.fly, id) <==> In(fly, id) by {
        if i: nat :| i < |fly| && fly[i].id == id { assert p.fly[i].id == id; }
        if i: nat :| i < |p.fly| && p.fly[i].id == id { assert fly[i].id == id; }
      }
    }
  }

  // ---------- Timers and counters

  /** The timers have not run out, and none runs out before one that precedes it. */
  predicate InOrder(s: seq<Buf>) {
    && (forall i: nat | i < |s| :: 1 <= s[i].i16TimeOut <= 50)
    && forall i: nat, j: nat | i < j < |s| :: s[i].i16TimeOut <= s[j].i16TimeOut
  }

  predicate AtRest(s: seq<Buf>) {
    forall i: nat | i < |s| :: s[i].i16TimeOut == 50
  }

  /** Outside the sent queue the timers stand at their full value. */
  predicate Timed(p: Places) {
    AtRest(p.cmd) && AtRest(p.data) && AtRest(p.fly) && InOrder(p.sent)
  }

  /** Sends and sends left make up the limit, `due` of them being under way. */
  predicate Tallied(s: seq<Buf>, due: nat, least: nat) {
    forall i: nat | i < |s| :: s[i].u8NumSend >= least && s[i].u8NumSend + s[i].sends + due == 3
  }

  predicate Limited(s: seq<Buf>) {
    forall i: nat | i < |s| :: s[i].sends <= 3
  }

  predicate Counted(p: Places, waiting: bool) {
    && Tallied(p.cmd, 0, 1) && Tallied(p.data, 0, 1) && Tallied(p.sent, 0, 0)
    && Tallied(p.fly, One(!waiting), 0) && Limited(p.freed) && Limited(p.leaked)
  }

  // What it says is used only where `Keep` is mentioned.
  predicate Keep(i: int) {
    true
  }

  /** What holds in every run: every buffer is in one place, timers run out in order, and as long as there is no
      negative acknowledgement the counts are right. */
  ghost predicate Kept(p: Places, waiting: bool, nacked: bool) {
    forall i: int {:trigger Keep(i)} | Keep(i) :: Partition(p) && Timed(p) && (!nacked ==> Counted(p, waiting))
  }

  /** `b` is queued as a new buffer. */
  function Joined(p: Places, b: Buf, urgent: bool): Places {
    if urgent then p.(cmd := p.cmd + [b], next := p.next + 1) else p.(data := p.data + [b], next := p.next + 1)
  }

  lemma JoinKeeps(p: Places, b: Buf, urgent: bool, waiting: bool, nacked: bool)
    requires Kept(p, waiting, nacked)
    requires b.id == p.next && b.u8NumSend == 3 && b.i16TimeOut == 50 && b.sends == 0
    ensures Kept(Joined(p, b, urgent), waiting, nacked)
  {
    assert Keep(0);
    Allocated(p, b, urgent);
  }

  /** What a tick of the timer does to the sent queue: what stays in it, what is to be sent again (at most one buffer),
      and what is given up. */
  datatype Ticked = Ticked(sent: seq<Buf>, again: seq<Buf>, lost: seq<Buf>)

  function Tick1(b: Buf): Buf {
    b.(i16TimeOut := b.i16TimeOut - 1)
  }

  function TickAll(s: seq<Buf>): (t: seq<Buf>)
    ensures |t| == |s| && forall i: nat | i < |s| :: t[i] == Tick1(s[i])
  {
    seq(|s|, i requires 0 <= i < |s| => Tick1(s[i]))
  }

  /** The buffers whose timers run out are the first ones. Those that may not be sent again are given up; the first that
      may is sent again, and then the timers behind it miss this tick. */
  function Pass(s: seq<Buf>): Ticked {
    if s == [] then Ticked([], [], [])
    else if s[0].i16TimeOut != 1 then Ticked(TickAll(s), [], [])
    else if s[0].u8NumSend > 0 then Ticked(s[1..], [s[0].(i16TimeOut := 50)], [])
    else
      var r := Pass(s[1..]);
      Ticked(r.sent, r.again, [Tick1(s[0])] + r.lost)
  }

  ghost predicate SentOn(t: seq<Buf>, r: Ticked)
    requires r.again != []
  {
    && t != [] && t[0].i16TimeOut == 1 && t[0].u8NumSend > 0
    && r.again[0] == t[0].(i16TimeOut := 50) && r.sent == t[1..]
  }

  ghost predicate CountedDown(t: seq<Buf>, q: seq<Buf>) {
    |q| == |t| && forall i: nat | i < |t| :: q[i] == Tick1(t[i]) && t[i].i16TimeOut > 1
  }

  /** Exactly the buffers at the front whose timers run out without sends left are given up; the next one, if its timer
      runs out too, is sent again; the timers of the others count down, but only if none is sent again. */
  ghost predicate TickMeans(s: seq<Buf>, r: Ticked) {
    && |r.lost| + |r.again| + |r.sent| == |s| && |r.again| <= 1
    && (forall i: nat | i < |r.lost| :: r.lost[i] == Tick1(s[i]) && s[i].i16TimeOut == 1 && s[i].u8NumSend == 0)
    && if r.again != [] then SentOn(s[|r.lost|..], r) else CountedDown(s[|r.lost|..], r.sent)
  }

  lemma TickMeansMore(s: seq<Buf>, r: Ticked)
    requires s != [] && s[0].i16TimeOut == 1 && s[0].u8NumSend == 0 && TickMeans(s[1..], r)
    ensures TickMeans(s, Ticked(r.sent, r.again, [Tick1(s[0])] + r.lost))
  {
    assert s[1..][|r.lost|..] == s[|r.lost| + 1..];
  }

  lemma {:induction false} PassMeaning(s: seq<Buf>)
    requires InOrder(s)
    ensures TickMeans(s, Pass(s))
  {
    assert s[0..] == s;
    if s != [] && s[0].i16TimeOut == 1 && s[0].u8NumSend == 0 {
      PassMeaning(s[1..]);
      TickMeansMore(s, Pass(s[1..]));
    } else if s != [] && s[0].i16TimeOut != 1 {
      assert CountedDown(s, TickAll(s));
    }
  }

  /** As long as there is no negative acknowledgement, a frame is given up after three sends, and sent again after
      fewer. */
  lemma GivenUpAfterThree(s: seq<Buf>, b: Buf)
    requires InOrder(s) && Tallied(s, 0, 0)
    ensures b in Pass(s).lost ==> b.sends == 3
    ensures b in Pass(s).again ==> b.sends < 3
  {
    PassMeaning(s);
  }

  function After(lost: seq<Buf>, r: Ticked): Ticked {
    r.(lost := lost + r.lost)
  }

  /** The queue while it is being gone through: the timers before `k` have been counted down. */
  predicate Halfway(s: seq<Buf>, q: seq<Buf>, k: nat) {
    k <= |s| == |q| && forall i: nat | i < |s| :: q[i] == if i < k then Tick1(s[i]) else s[i]
  }

  // ---------- The sending task

  function AfterTick(p: Places, due: bool): Places {
    if !due then p
    else p.(sent := Pass(p.sent).sent, data := p.data + Pass(p.sent).again, freed := p.freed + Pass(p.sent).lost)
  }

  /** Or it is given up. */
  function Lost(p: Places): Places
    requires p.sent != []
  {
    p.(sent := Without(p.sent, 0), freed := p.freed + [Tick1(p.sent[0])])
  }

  /** The first of the sent queue is sent again. */
  function Again(p: Places): Places
    requires p.sent != []
  {
    p.(sent := Without(p.sent, 0), data := p.data + [p.sent[0].(i16TimeOut := 50)])
  }

  lemma AgainNext(p: Places)
    requires p.sent != [] && p.sent[0].i16TimeOut == 1 && p.sent[0].u8NumSend > 0
    ensures AfterTick(p, true) == Again(p)
  {
    assert p.freed + [] == p.freed;
  }

  lemma LostNext(p: Places)
    requires p.sent != [] && p.sent[0].i16TimeOut == 1 && p.sent[0].u8NumSend == 0
    ensures AfterTick(p, true) == AfterTick(Lost(p), true)
  {
    var s, b := p.sent, Tick1(p.sent[0]);
    assert Without(s, 0) == s[1..];
    var lost := Pass(s[1..]).lost;
    assert p.freed + ([b] + lost) == p.freed + [b] + lost;
  }

  lemma FirstLeaves(p: Places, waiting: bool)
    requires Timed(p) && p.sent != []
    ensures Timed(Again(p)) && Timed(Lost(p))
    ensures Counted(p, waiting) ==> Counted(Lost(p), waiting)
    ensures Counted(p, waiting) && p.sent[0].u8NumSend > 0 ==> Counted(Again(p), waiting)
  {
  }

  lemma FirstIsLeast(s: seq<Buf>, k: nat)
    requires InOrder(s) && k < |s|
    ensures 1 <= s[0].i16TimeOut <= s[k].i16TimeOut
  {
  }

  lemma NoneRunsOut(p: Places, waiting: bool)
    requires Partition(p) && Timed(p) && p.sent != [] && p.sent[0].i16TimeOut != 1
    ensures Partition(AfterTick(p, true)) && Timed(AfterTick(p, true))
    ensures Counted(p, waiting) ==> Counted(AfterTick(p, true), waiting)
  {
    var s := p.sent;
    Relabelled(p, TickAll(s), p.fly);
    assert p.data + [] == p.data && p.freed + [] == p.freed;
    assert AfterTick(p, true) == p.(sent := TickAll(s));
    forall i: nat | i < |s|
      ensures s[i].i16TimeOut > 1
    {
      FirstIsLeast(s, i);
    }
  }

  /** A tick leaves every buffer in one place, the timers in order and the counts right. */
  lemma {:induction false} TickKeeps(p: Places, waiting: bool)
    requires Partition(p) && Timed(p)
    ensures Partition(AfterTick(p, true)) && Timed(AfterTick(p, true))
    ensures Counted(p, waiting) ==> Counted(AfterTick(p, true), waiting)
    decreases |p.sent|
  {
    var s := p.sent;
    if s == [] {
      assert p.data + [] == p.data && p.freed + [] == p.freed;
      assert AfterTick(p, true) == p;
    } else if s[0].i16TimeOut != 1 {
      NoneRunsOut(p, waiting);
    } else if s[0].u8NumSend > 0 {
      AgainNext(p);
      TakenBack(p, 0, s[0].(i16TimeOut := 50), true);
      FirstLeaves(p, waiting);
    } else {
      LostNext(p);
      TakenBack(p, 0, Tick1(s[0]), false);
      FirstLeaves(p, waiting);
      TickKeeps(Lost(p), waiting);
    }
  }

  function Taken(b: Buf): Buf {
    b.(u8NumSend := (b.u8NumSend + 255) % 256)
  }

  /** The commands go before the data. */
  function AfterLaunch(p: Places): Places {
    if p.fly != [] then p
    else if p.cmd != [] then p.(cmd := p.cmd[1..], fly := [Taken(p.cmd[0])])
    else if p.data != [] then p.(data := p.data[1..], fly := [Taken(p.data[0])])
    else p
  }

  lemma LaunchKeeps(p: Places)
    requires Partition(p) && Timed(p) && p.fly == [] && (p.cmd != [] || p.data != [])
    ensures Partition(AfterLaunch(p)) && Timed(AfterLaunch(p))
    ensures Counted(p, false) ==> Counted(AfterLaunch(p), false)
  {
    Launched(p, p.cmd != [], Taken(if p.cmd != [] then p.cmd[0] else p.data[0]));
  }

  function Given(b: Buf): Buf {
    b.(sends := b.sends + 1)
  }

  /** The frame in flight is given to the layer below, if that is ready, or is done with when that has sent it. If the
      layer below refuses it, it is lost without being freed. */
  function AfterRun(p: Places, waiting: bool, l1Sending: bool, l1Ready: bool, accepted: bool): Places {
    if p.fly == [] then p
    else if !waiting then
      if !l1Ready then p
      else if accepted then p.(fly := [Given(p.fly[0])])
      else p.(fly := [], leaked := p.leaked + p.fly)
    else if l1Sending then p
    else if p.fly[0].ack then p.(fly := [], sent := p.sent + p.fly)
    else p.(fly := [], freed := p.freed + p.fly)
  }

  /** It leaves every buffer in one place, the timers in order and the counts right. */
  lemma RunKeeps(p: Places, waiting: bool, l1Sending: bool, l1Ready: bool, accepted: bool)
    requires Partition(p) && Timed(p)
    ensures var p' := AfterRun(p, waiting, l1Sending, l1Ready, accepted);
      && Partition(p') && Timed(p')
      && (Counted(p, waiting) ==> Counted(p', waiting || l1Ready))
  {
    if p.fly != [] {
      var b := p.fly[0];
      assert p.fly == [b];
      Landed(p, b, b.ack);
      Refused(p, b);
      Relabelled(p, p.sent, [Given(b)]);
    }
  }

  /** As long as there is no negative acknowledgement, no frame is ever sent more than three times. */
  lemma SentAtMostThrice(p: Places, waiting: bool, b: Buf)
    requires Counted(p, waiting) && b in p.cmd + p.data + p.sent + p.fly + p.freed + p.leaked
    ensures b.sends <= 3
  {
    var all := [p.cmd, p.data, p.sent, p.fly, p.freed, p.leaked];
    assert forall s | s in all && b in s :: b.sends <= 3;
  }

  // What a pass does is used only where `Open` is mentioned.

  predicate Open(i: int) {
    true
  }

  /** What has been brought about so far, and what is still to come, is what the tick is to do. */
  ghost predicate Passing(s0: seq<Buf>, s: seq<Buf>, k: nat, q: seq<Buf>, lost: seq<Buf>) {
    && Halfway(s, q, k)
    && forall i: int {:trigger Open(i)} :: Open(i) ==>
         InOrder(s) && (k > 0 ==> s[0].i16TimeOut > 1) && Pass(s0) == After(lost, Pass(s))
  }

  lemma PassBegins(s: seq<Buf>)
    requires InOrder(s)
    ensures Passing(s, s, 0, s, [])
  {
    assert [] + Pass(s).lost == Pass(s).lost;
  }

  lemma PassedOn(s0: seq<Buf>, s: seq<Buf>, k: nat, q: seq<Buf>, lost: seq<Buf>)
    requires Passing(s0, s, k, q, lost) && k < |s| && q[k].i16TimeOut - 1 != 0
    ensures Passing(s0, s, k + 1, q[k := Tick1(q[k])], lost)
  {
    assert Open(0);
    FirstIsLeast(s, k);
  }

  /** Only the first timer can run out. */
  lemma RunsOutFirst(s0: seq<Buf>, s: seq<Buf>, k: nat, q: seq<Buf>, lost: seq<Buf>)
    requires Passing(s0, s, k, q, lost) && k < |s| && q[k].i16TimeOut - 1 == 0
    ensures k == 0 && q == s && s[0].i16TimeOut == 1
  {
    assert Open(0);
    FirstIsLeast(s, k);
    if k == 0 { assert q == s; }
  }

  lemma RestInOrder(s: seq<Buf>)
    requires InOrder(s) && s != []
    ensures InOrder(s[1..]) && Without(s, 0) == s[1..]
  {
  }

  lemma SentAgain(s0: seq<Buf>, s: seq<Buf>, q: seq<Buf>, lost: seq<Buf>)
    requires Passing(s0, s, 0, q, lost) && s != [] && s[0].i16TimeOut == 1 && s[0].u8NumSend > 0
    ensures Pass(s0) == Ticked(s[1..], [s[0].(i16TimeOut := 50)], lost) && InOrder(s[1..]) && Without(s, 0) == s[1..]
  {
    assert Open(0);
    RestInOrder(s);
    assert lost + [] == lost;
  }

  lemma PassOver(s: seq<Buf>)
    requires s != [] && s[0].i16TimeOut == 1 && s[0].u8NumSend == 0
    ensures Pass(s) == After([Tick1(s[0])], Pass(s[1..]))
  {
  }

  lemma AfterMore(lost: seq<Buf>, b: Buf, r: Ticked)
    ensures After(lost, After([b], r)) == After(lost + [b], r)
  {
    assert lost + ([b] + r.lost) == lost + [b] + r.lost;
  }

  lemma GivenUp(s0: seq<Buf>, s: seq<Buf>, q: seq<Buf>, lost: seq<Buf>)
    requires Passing(s0, s, 0, q, lost) && s != [] && s[0].i16TimeOut == 1 && s[0].u8NumSend == 0
    ensures Passing(s0, s[1..], 0, s[1..], lost + [Tick1(s[0])]) && Without(s, 0) == s[1..]
  {
    assert Open(0);
    RestInOrder(s);
    PassOver(s);
    AfterMore(lost, Tick1(s[0]), Pass(s[1..]));
  }

  lemma PassedAll(s0: seq<Buf>, s: seq<Buf>, q: seq<Buf>, lost: seq<Buf>)
    requires Passing(s0, s, |s|, q, lost)
    ensures Pass(s0) == Ticked(q, [], lost)
    ensures InOrder(q)
  {
    assert Open(0);
    assert q == TickAll(s);
    assert s == [] ==> q == [];
    assert lost + [] == lost;
    forall i: nat | i < |q|
      ensures 1 <= q[i].i16TimeOut <= 50
    {
      assert s[0].i16TimeOut <= s[i].i16TimeOut;
    }
  }

  /** Apart from the sent queue and what has been given up, everything is as it was when the pass began. */
  ghost predicate Walking(p: Places, s: seq<Buf>, k: nat, q: Places, lost: seq<Buf>) {
    q == p.(sent := q.sent, freed := p.freed + lost) && Passing(p.sent, s, k, q.sent, lost)
  }

  lemma WalkBegins(p: Places)
    requires InOrder(p.sent)
    ensures Walking(p, p.sent, 0, p, [])
  {
    PassBegins(p.sent);
    assert p.freed + [] == p.freed;
  }

  lemma WalkedOn(p: Places, s: seq<Buf>, k: nat, q: Places, lost: seq<Buf>)
    requires Walking(p, s, k, q, lost) && k < |s| && q.sent[k].i16TimeOut - 1 != 0
    ensures Walking(p, s, k + 1, q.(sent := q.sent[k := Tick1(q.sent[k])]), lost)
  {
    PassedOn(p.sent, s, k, q.sent, lost);
  }

  lemma WalkEnds(p: Places, s: seq<Buf>, q: Places, lost: seq<Buf>)
    requires Walking(p, s, |s|, q, lost)
    ensures q == AfterTick(p, true)
  {
    PassedAll(p.sent, s, q.sent, lost);
    assert p.data + [] == p.data;
  }

  lemma WalkedAgain(p: Places, s: seq<Buf>, k: nat, q: Places, lost: seq<Buf>)
    requires Walking(p, s, k, q, lost) && k < |s| && q.sent[k].i16TimeOut - 1 == 0 && q.sent[k].u8NumSend > 0
    ensures k == 0 && AfterTick(p, true) == q.(sent := q.sent[1..], data := q.data + [q.sent[0].(i16TimeOut := 50)])
  {
    RunsOutFirst(p.sent, s, k, q.sent, lost);
    SentAgain(p.sent, s, q.sent, lost);
  }

  lemma WalkedOff(p: Places, s: seq<Buf>, k: nat, q: Places, lost: seq<Buf>)
    requires Walking(p, s, k, q, lost) && k < |s| && q.sent[k].i16TimeOut - 1 == 0 && q.sent[k].u8NumSend == 0
    ensures k == 0 && q.sent == s
    ensures var b := Tick1(s[0]);
      Walking(p, s[1..], 0, q.(sent := s[1..], freed := q.freed + [b]), lost + [b])
  {
    RunsOutFirst(p.sent, s, k, q.sent, lost);
    GivenUp(p.sent, s, q.sent, lost);
    assert p.freed + lost + [Tick1(s[0])] == p.freed + (lost + [Tick1(s[0])]);
  }

  /** `i` is the place of the first buffer with this sequence number. */
  ghost predicate FirstSeq(s: seq<Buf>, u8Seq: nat, i: nat) {
    i < |s| && s[i].u8Seq == u8Seq && forall j: nat | j < i :: s[j].u8Seq != u8Seq
  }

  /** A new command is queued, which answers the frame with this sequence number. */
  ghost predicate Queued(p: Places, u8Seq: nat, u8Ctrl: bv8, p': Places) {
    p' == p.(cmd := p.cmd + [Buf(p.next, u8Seq, u8Ctrl, false, 3, 50, 0)], next := p.next + 1)
  }

  /** What an acknowledgement does: the first frame that waits for it is done with. */
  ghost predicate Acked(p: Places, u8Seq: nat, i: nat, p': Places) {
    if i < |p.sent| then
      FirstSeq(p.sent, u8Seq, i) && p' == p.(sent := Without(p.sent, i), freed := p.freed + [p.sent[i]])
    else p' == p && forall j: nat | j < |p.sent| :: p.sent[j].u8Seq != u8Seq
  }

  /** What a negative one does: that frame is sent again, whatever its count. */
  ghost predicate Nacked(p: Places, u8Seq: nat, i: nat, p': Places) {
    if i < |p.sent| then
      FirstSeq(p.sent, u8Seq, i)
      && p' == p.(sent := Without(p.sent, i), data := p.data + [p.sent[i].(i16TimeOut := 50)])
    else p' == p && forall j: nat | j < |p.sent| :: p.sent[j].u8Seq != u8Seq
  }
  // ---------- What the steps keep

  lemma NoneFlying(p: Places, waiting: bool, waiting': bool, nacked: bool)
    requires Kept(p, waiting, nacked) && p.fly == []
    ensures Kept(p, waiting', nacked)
  {
    assert Keep(0);
  }

  lemma TickKept(p: Places, waiting: bool, nacked: bool)
    requires Kept(p, waiting, nacked)
    ensures InOrder(p.sent) && Kept(AfterTick(p, true), waiting, nacked)
  {
    assert Keep(0);
    TickKeeps(p, waiting);
  }

  lemma LaunchKept(p: Places, waiting: bool, nacked: bool)
    requires Kept(p, waiting, nacked) && p.fly == []
    ensures Kept(AfterLaunch(p), waiting && AfterLaunch(p).fly == [], nacked)
  {
    assert Keep(0);
    if p.cmd != [] || p.data != [] { LaunchKeeps(p); }
  }

  lemma RunKept(p: Places, waiting: bool, l1Sending: bool, l1Ready: bool, accepted: bool, nacked: bool)
    requires Kept(p, waiting, nacked)
    ensures Kept(AfterRun(p, waiting, l1Sending, l1Ready, accepted), waiting || l1Ready, nacked)
  {
    assert Keep(0);
    RunKeeps(p, waiting, l1Sending, l1Ready, accepted);
  }

  lemma DropKept(p: Places, waiting: bool, nacked: bool)
    requires Kept(p, waiting, nacked)
    ensures Kept(p.(fly := [], freed := p.freed + p.fly), waiting, nacked)
  {
    assert Keep(0);
    if p.fly == [] {
      assert p.freed + p.fly == p.freed && p.(fly := []) == p;
    } else {
      assert p.fly == [p.fly[0]];
      Landed(p, p.fly[0], false);
    }
  }

  lemma AckKept(p: Places, u8Seq: nat, i: nat, p': Places, waiting: bool, nacked: bool)
    requires Kept(p, waiting, nacked) && Acked(p, u8Seq, i, p')
    ensures Kept(p', waiting, nacked)
  {
    assert Keep(0);
    if i < |p.sent| { TakenBack(p, i, p.sent[i], false); }
  }

  lemma NackKept(p: Places, u8Seq: nat, i: nat, p': Places, waiting: bool, nacked: bool)
    requires Kept(p, waiting, nacked) && Nacked(p, u8Seq, i, p')
    ensures Kept(p', waiting, true)
  {
    assert Keep(0);
    if i < |p.sent| { TakenBack(p, i, p.sent[i].(i16TimeOut := 50), true); }
  }
}
