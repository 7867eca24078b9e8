/** Frames on the serial link: building them, finding them in a stream of bytes, and judging a received one. */
module FrameParser {
  import opened Crc
  import opened Fifo

  const CST_PREAMBLE: bv8 := 0x21

  ghost predicate IsLen(b: bv8, n: nat) {
    n < 256 && forall i: int {:trigger Open(i)} :: Open(i) ==> n == b as nat
  }

  /** The value of a byte. */
  ghost function Len(b: bv8): (n: nat)
    ensures n < 256
  {
    assert IsLen(b, b as nat);
    var n :| IsLen(b, n);
    n
  }

  method GetLen(b: bv8) returns (n: nat)
    ensures n == Len(b)
  {
    n := b as nat;
    assert Open(0);
  }

  /** A frame: the eight bytes of the header, and the data. */
  datatype Frame = Frame(hdr: seq<bv8>, data: seq<bv8>)

  // ---------- Building

  /** The header is one: it starts with the preamble, and its checksum is right. */
  ghost predicate GoodHeader(h: seq<bv8>) {
    |h| == 8 && h[0] == 0x21 && Crc8(h[1..7]) == h[7]
  }

  /** A frame as the sender builds it. */
  ghost predicate Built(f: Frame) {
    && GoodHeader(f.hdr) && |f.data| == Len(f.hdr[5]) <= 240
    && f.hdr[6] == if f.data == [] then 0 else Crc8(f.data)
  }

  /** Builds a frame with the first `dlen` bytes of `buf`; it fails when that is too long. */
  method BuildFrame(src: bv8, dst: bv8, seqNum: bv8, ctrl: bv8, dlen: bv8, buf: seq<bv8>) returns (ok: bool, f: Frame)
    requires Len(dlen) <= |buf|
    ensures ok <==> Len(dlen) <= 240
    ensures ok ==> Built(f) && f.data == buf[..Len(dlen)] && f.hdr[..6] == [0x21, src, dst, seqNum, ctrl, dlen]
  {
    var n := GetLen(dlen);
    if n > 240 { return false, Frame([], []); }
    var data := buf[..n];
    var crcd: bv8 := 0;
    if n != 0 { crcd := CrcByTable(data); }
    var fields := [src, dst, seqNum, ctrl, dlen, crcd];
    var crch := CrcByTable(fields);
    f := Frame([CST_PREAMBLE] + fields + [crch], data);
    assert f.hdr[1..7] == fields;
    return true, f;
  }

  // ---------- Parsing, one step after the other

  /** The parser waits for a header, or has one and collects the data. */
  datatype PState = Idle | Data(hdr: seq<bv8>, got: seq<bv8>)

  /** What one step does: nothing for want of bytes, or it takes `n` bytes and may complete a frame. */
  datatype Step = Wait | Take(n: nat, st: PState, frame: seq<Frame>)

  /** Data beyond the size of the receive buffer is dropped. */
  function Clip(data: seq<bv8>): seq<bv8> {
    if |data| <= 240 then data else data[..240]
  }

  ghost predicate StOk(st: PState) {
    st.Data? ==> GoodHeader(st.hdr) && |st.got| < Len(st.hdr[5])
  }

  /** One round of the parser's loop on the bytes `q` it has. */
  ghost function Round(st: PState, q: seq<bv8>): (s: Step)
    requires StOk(st)
    ensures s.Take? ==> 1 <= s.n <= |q| && StOk(s.st)
  {
    match st
    case Idle =>
      if |q| < 8 then Wait
      else if !GoodHeader(q[..8]) then Take(1, Idle, [])
      else if Len(q[5]) == 0 then Take(8, Idle, [Frame(q[..8], [])])
      else Take(8, Data(q[..8], []), [])
    case Data(h, got) =>
      if q == [] then Wait
      else if |got| + 1 < Len(h[5]) then Take(1, Data(h, got + [q[0]]), [])
      else Take(1, Idle, [Frame(h, Clip(got + [q[0]]))])
  }

  ghost predicate IsRound(st: PState, q: seq<bv8>, s: Step)
    requires StOk(st)
  {
    && (s.Take? ==> 1 <= s.n <= |q| && StOk(s.st))
    && forall i: int {:trigger Open(i)} :: Open(i) ==> s == Round(st, q)
  }

  /** The same, for proofs that do not need to know what a round does. */
  ghost function Next(st: PState, q: seq<bv8>): (s: Step)
    requires StOk(st)
    ensures s.Take? ==> 1 <= s.n <= |q| && StOk(s.st)
  {
    assert IsRound(st, q, Round(st, q));
    var s :| IsRound(st, q, s);
    s
  }

  lemma NextIs(st: PState, q: seq<bv8>)
    requires StOk(st)
    ensures Next(st, q) == Round(st, q)
  {
    assert Open(0);
  }

  /** Everything the parser makes of the bytes `q`: the frames, and what it is left with. */
  datatype Outcome = Outcome(frames: seq<Frame>, st: PState, rest: seq<bv8>)

  ghost function Parse(st: PState, q: seq<bv8>): (o: Outcome)
    requires StOk(st)
    ensures StOk(o.st)
    decreases |q|
  {
    match Next(st, q)
    case Wait => Outcome([], st, q)
    case Take(n, st', fs) =>
      var o := Parse(st', q[n..]);
      Outcome(fs + o.frames, o.st, o.rest)
  }

  // ---------- Arrivals

  /** One outcome after the other. */
  function Then(o: Outcome, o': Outcome): Outcome {
    Outcome(o.frames + o'.frames, o'.st, o'.rest)
  }

  lemma DropAppend<X>(q: seq<X>, r: seq<X>, n: nat)
    requires n <= |q|
    ensures (q + r)[n..] == q[n..] + r
  {
  }

  lemma FirstOfRest<X>(q: seq<X>, i: nat, x: X, s: seq<X>)
    requires i < |q| && q[i..] == [x] + s
    ensures x == q[i] && s == q[i + 1..]
  {
    assert q[i..][0] == x && q[i..][1..] == s;
  }

  lemma OneMore<X>(q: seq<X>, i: nat)
    requires 1 <= i < |q|
    ensures q[1..i] + [q[i]] == q[1..i + 1]
  {
  }

  lemma OneArrived<X>(q: seq<X>, bytes: seq<X>, i: nat)
    requires i < |bytes|
    ensures q + bytes[..i] + [bytes[i]] == q + bytes[..i + 1]
  {
  }

  lemma NextMore(st: PState, q: seq<bv8>, r: seq<bv8>)
    requires StOk(st) && Next(st, q).Take?
    ensures Next(st, q + r) == Next(st, q)
    ensures (q + r)[Next(st, q).n..] == q[Next(st, q).n..] + r
  {
    NextIs(st, q);
    NextIs(st, q + r);
    var n := Next(st, q).n;
    assert st.Idle? ==> (q + r)[..8] == q[..8];
    assert (q + r)[0] == q[0];
    DropAppend(q, r, n);
  }

  lemma ParseStep(st: PState, q: seq<bv8>, n: nat, st': PState, fs: seq<Frame>, q': seq<bv8>)
    requires StOk(st) && Next(st, q) == Take(n, st', fs) && q' == q[n..]
    ensures StOk(st') && Parse(st, q) == (var o := Parse(st', q'); Outcome(fs + o.frames, o.st, o.rest))
  {
  }

  lemma Assoc<X>(a: seq<X>, b: seq<X>, c: seq<X>)
    ensures a + (b + c) == a + b + c && [] + c == c
  {
  }

  /** Bytes that arrive later change nothing of what has been made of the earlier ones. */
  lemma {:induction false} ParseMore(st: PState, q: seq<bv8>, r: seq<bv8>)
    requires StOk(st)
    ensures var o := Parse(st, q);
      Parse(st, q + r) == Then(o, Parse(o.st, o.rest + r))
    decreases |q|
  {
    var o := Parse(st, q);
    var o' := Parse(o.st, o.rest + r);
    match Next(st, q)
    case Wait =>
      Assoc<Frame>([], [], o'.frames);
    case Take(n, st', fs) =>
      NextMore(st, q, r);
      ParseStep(st, q, n, st', fs, q[n..]);
      ParseStep(st, q + r, n, st', fs, q[n..] + r);
      ParseMore(st', q[n..], r);
      Assoc(fs, Parse(st', q[n..]).frames, o'.frames);
  }

  /** The stream arrives in parts, and the parser is run after each. */
  ghost function ParseParts(st: PState, q: seq<bv8>, parts: seq<seq<bv8>>): (o: Outcome)
    requires StOk(st)
    ensures StOk(o.st)
    decreases |parts|
  {
    if parts == [] then Parse(st, q)
    else
      var o := Parse(st, q + parts[0]);
      Then(o, ParseParts(o.st, o.rest, parts[1..]))
  }

  ghost function Joined(parts: seq<seq<bv8>>): seq<bv8> {
    if parts == [] then [] else parts[0] + Joined(parts[1..])
  }

  lemma JoinFirst(q: seq<bv8>, parts: seq<seq<bv8>>)
    requires parts != []
    ensures q + parts[0] + Joined(parts[1..]) == q + Joined(parts)
  {
  }

  /** However the stream is cut into arrivals, the parser finds the same frames in it. */
  lemma {:induction false} Chunking(st: PState, q: seq<bv8>, parts: seq<seq<bv8>>)
    requires StOk(st)
    ensures ParseParts(st, q, parts) == Parse(st, q + Joined(parts))
    decreases |parts|
  {
    if parts == [] {
      assert q + [] == q;
    } else {
      var o := Parse(st, q + parts[0]);
      Chunking(o.st, o.rest, parts[1..]);
      assert ParseParts(st, q, parts) == Then(o, ParseParts(o.st, o.rest, parts[1..]));
      ParseMore(st, q + parts[0], Joined(parts[1..]));
      JoinFirst(q, parts);
    }
  }

  /** Between arrivals fewer than eight bytes are left over, so that a queue of 512 bytes always has room for 504. */
  lemma {:induction false} FewLeft(st: PState, q: seq<bv8>)
    requires StOk(st)
    ensures |Parse(st, q).rest| < 8
    decreases |q|
  {
    NextIs(st, q);
    match Next(st, q)
    case Wait =>
    case Take(n, st', fs) => FewLeft(st', q[n..]);
  }

  // ---------- Round trip

  /** Noise in which no frame seems to start. */
  predicate Quiet(noise: seq<bv8>) {
    forall i | 0 <= i < |noise| :: noise[i] != 0x21
  }

  function Bytes(f: Frame): seq<bv8> {
    f.hdr + f.data
  }

  /** Noise and a frame, time after time, and noise at the end. */
  function Stream(noise: seq<seq<bv8>>, fs: seq<Frame>, last: seq<bv8>): seq<bv8>
    requires |noise| == |fs|
  {
    if fs == [] then last else noise[0] + Bytes(fs[0]) + Stream(noise[1..], fs[1..], last)
  }

  lemma {:induction false} ParseQuiet(noise: seq<bv8>, q: seq<bv8>)
    requires Quiet(noise) && |q| >= 8
    ensures Parse(Idle, noise + q) == Parse(Idle, q)
    decreases |noise|
  {
    NextIs(Idle, noise + q);
    if noise == [] {
      assert noise + q == q;
    } else {
      var s := noise + q;
      assert s[..8][0] == noise[0];
      assert s[1..] == noise[1..] + q;
      ParseQuiet(noise[1..], q);
    }
  }

  lemma {:induction false} ParseLast(last: seq<bv8>)
    requires Quiet(last)
    ensures Parse(Idle, last).frames == [] && Parse(Idle, last).st == Idle
    decreases |last|
  {
    NextIs(Idle, last);
    if |last| >= 8 {
      assert last[..8][0] == last[0];
      ParseLast(last[1..]);
    }
  }

  lemma {:induction false} ParseData(h: seq<bv8>, got: seq<bv8>, data: seq<bv8>, q: seq<bv8>)
    requires GoodHeader(h) && |got| + |data| == Len(h[5]) && data != []
    ensures Parse(Data(h, got), data + q)
         == (var o := Parse(Idle, q); Outcome([Frame(h, Clip(got + data))] + o.frames, o.st, o.rest))
    decreases |data|
  {
    NextIs(Data(h, got), data + q);
    var s := data + q;
    assert s[1..] == data[1..] + q;
    assert got + [data[0]] + data[1..] == got + data;
    if |data| > 1 {
      ParseData(h, got + [data[0]], data[1..], q);
    } else {
      assert data[1..] + q == q && got + [data[0]] == got + data;
    }
  }

  lemma NextFrame(f: Frame, s: seq<bv8>)
    requires Built(f) && |s| >= 8 && s[..8] == f.hdr
    ensures Next(Idle, s) == if f.data == [] then Take(8, Idle, [f]) else Take(8, Data(f.hdr, []), [])
  {
    NextIs(Idle, s);
    assert s[5] == s[..8][5];
  }

  lemma ParseFrameData(f: Frame, q: seq<bv8>)
    requires Built(f) && f.data != []
    ensures StOk(Data(f.hdr, []))
    ensures Parse(Data(f.hdr, []), f.data + q) == (var o := Parse(Idle, q); Outcome([f] + o.frames, o.st, o.rest))
  {
    ParseData(f.hdr, [], f.data, q);
    assert [] + f.data == f.data;
  }

  lemma ParseFull(f: Frame, s: seq<bv8>, q: seq<bv8>)
    requires Built(f) && f.data != [] && |s| >= 8 && s[8..] == f.data + q
    requires Next(Idle, s) == Take(8, Data(f.hdr, []), [])
    ensures Parse(Idle, s) == (var o := Parse(Idle, q); Outcome([f] + o.frames, o.st, o.rest))
  {
    ParseStep(Idle, s, 8, Data(f.hdr, []), [], f.data + q);
    ParseFrameData(f, q);
    Assoc<Frame>([], [], Parse(Data(f.hdr, []), f.data + q).frames);
  }

  lemma ParseFrame(f: Frame, q: seq<bv8>)
    requires Built(f)
    ensures Parse(Idle, Bytes(f) + q) == (var o := Parse(Idle, q); Outcome([f] + o.frames, o.st, o.rest))
  {
    var s := Bytes(f) + q;
    assert s[..8] == f.hdr && s[8..] == f.data + q;
    NextFrame(f, s);
    if f.data == [] {
      assert f.data + q == q;
      ParseStep(Idle, s, 8, Idle, [f], q);
    } else {
      ParseFull(f, s, q);
    }
  }

  /** Frames that the sender has built, with quiet noise between them, are parsed back to exactly these frames. */
  lemma {:induction false} RoundTrip(noise: seq<seq<bv8>>, fs: seq<Frame>, last: seq<bv8>)
    requires |noise| == |fs| && (forall i | 0 <= i < |noise| :: Quiet(noise[i])) && Quiet(last)
    requires forall i | 0 <= i < |fs| :: Built(fs[i])
    ensures Parse(Idle, Stream(noise, fs, last)).frames == fs && Parse(Idle, Stream(noise, fs, last)).st == Idle
    decreases |fs|
  {
    if fs == [] {
      ParseLast(last);
    } else {
      var q := Stream(noise[1..], fs[1..], last);
      RoundTrip(noise[1..], fs[1..], last);
      ParseQuiet(noise[0], Bytes(fs[0]) + q);
      assert noise[0] + Bytes(fs[0]) + q == noise[0] + (Bytes(fs[0]) + q);
      ParseFrame(fs[0], q);
      assert [fs[0]] + fs[1..] == fs;
    }
  }

  // ---------- The receiver

  /** The sender wants the frame to be acknowledged. */
  predicate AckReq(ctrl: bv8) {
    ctrl & 0x80 != 0
  }

  predicate IsData(ctrl: bv8) {
    ctrl & 0x20 != 0
  }

  function FrmType(ctrl: bv8): bv8 {
    ctrl & 0x1F
  }

  /** What the receiver asks for. */
  datatype Action = NoAction | RecvAck | RecvNack | RequestAck | RequestNack

  /** A command that acknowledges a frame, or rejects it. */
  predicate IsReply(ctrl: bv8) {
    !IsData(ctrl) && (FrmType(ctrl) == 1 || FrmType(ctrl) == 2)
  }

  /** What a frame for this node that is not damaged leads to. A broadcast is never answered. */
  function Answer(dst: bv8, ctrl: bv8): Action {
    if AckReq(ctrl) && dst != 0xFF then RequestAck
    else if !IsReply(ctrl) then NoAction
    else if FrmType(ctrl) == 1 then RecvAck
    else RecvNack
  }

  /** When a frame is to be acknowledged, when it acknowledges one that was sent, and when it rejects one: the control
      bytes 0x01 and 0x02 do so, and a data frame with bit 0x80 asks for it. */
  lemma AnswerMeans(dst: bv8, ctrl: bv8)
    ensures Answer(dst, ctrl) == RequestAck <==> ctrl & 0x80 != 0 && dst != 0xFF
    ensures Answer(dst, ctrl) == RecvAck <==> ctrl & 0x3F == 0x01 && (ctrl & 0x80 == 0 || dst == 0xFF)
    ensures Answer(dst, ctrl) == RecvNack <==> ctrl & 0x3F == 0x02 && (ctrl & 0x80 == 0 || dst == 0xFF)
    ensures Answer(dst, 0x01) == RecvAck && Answer(dst, 0x02) == RecvNack
    ensures dst != 0xFF ==> Answer(dst, 0xA0) == RequestAck
  {
    assert ctrl & 0x3F == 0x01 <==> ctrl & 0x20 == 0 && ctrl & 0x1F == 0x01;
    assert ctrl & 0x3F == 0x02 <==> ctrl & 0x20 == 0 && ctrl & 0x1F == 0x02;
  }

  class Receiver {
    const fifo: Fifo
    const frmRecv: array<bv8>
    const u8NodeID: bv8
    const bCheckSeqNum: bool
    var u16RecvCount: nat
    var u16DLen: nat
    var u8SeqRemote: bv8
    var u8SeqCMDFrm: bv8
    /** The data received of the current frame, dropped bytes included. */
    ghost var got: seq<bv8>

    /** The buffer holds as much of the data as it has room for. */
    ghost predicate Stored(data: seq<bv8>)
      requires frmRecv.Length == 248
      reads frmRecv
    {
      forall i: nat | i < |data| && i < 240 :: frmRecv[8 + i] == data[i]
    }

    ghost predicate Valid()
      reads this, fifo, fifo.arrBuff, frmRecv
    {
      && Shape() && !fifo.bEnProtect
      && (u16RecvCount != 0 ==>
            && u16RecvCount == 8 + |got| && u16DLen == Len(frmRecv[5]) && |got| < u16DLen
            && GoodHeader(frmRecv[..8])
            && Stored(got))
    }

    ghost predicate Shape()
      reads this, fifo, fifo.arrBuff, frmRecv
    {
      fifo.Valid() && fifo.Capacity() == 512 && frmRecv.Length == 248 && frmRecv != fifo.arrBuff
    }

    ghost function State(): (st: PState)
      requires Valid()
      reads this, fifo, fifo.arrBuff, frmRecv
      ensures StOk(st)
    {
      if u16RecvCount == 0 then Idle else Data(frmRecv[..8], got)
    }

    constructor (u8NodeID: bv8, bCheckSeqNum: bool)
      ensures Valid() && State() == Idle && fifo.Contents() == [] && fresh(fifo) && fresh(frmRecv)
    {
      this.u8NodeID, this.bCheckSeqNum := u8NodeID, bCheckSeqNum;
      fifo := new Fifo(512);
      frmRecv := new bv8[248](i => 0);
      u16RecvCount, u16DLen, u8SeqRemote, u8SeqCMDFrm, got := 0, 0, 0xFF, 0, [];
    }

    /** The frame is in the buffer. */
    ghost predicate InBuffer(f: Frame)
      requires frmRecv.Length == 248
      reads frmRecv
    {
      f.hdr == frmRecv[..8] && |f.data| <= 240 && f.data == frmRecv[8..8 + |f.data|]
    }

    /** Puts all bytes back but the first one. */
    method PutBack(ghost q: seq<bv8>)
      requires Shape() && |q| >= 8 && fifo.Contents() == q[8..] && fifo.bEnProtect && fifo.intact
               && fifo.past == q[1..8]
      modifies fifo`u16Size, fifo`u16Head, fifo`past, fifo`bEnProtect
      ensures Shape() && !fifo.bEnProtect && fifo.Contents() == q[1..]
    {
      fifo.RewindHead();
      fifo.DisableProtect();
      assert q[1..8] + q[8..] == q[1..];
    }

    /** Looks at the length once the header is right. */
    method TakeHeader(ghost q: seq<bv8>) returns (done: bool, ghost f: Frame)
      requires Shape() && !fifo.bEnProtect && u16RecvCount == 0 && |q| >= 8
      requires frmRecv[..8] == q[..8] && GoodHeader(q[..8]) && fifo.Contents() == q[8..]
      modifies this`u16RecvCount, this`u16DLen, this`got
      ensures Valid() && fifo.Contents() == q[8..]
      ensures Next(Idle, q) == Take(8, State(), if done then [f] else []) && (done ==> InBuffer(f))
    {
      NextIs(Idle, q);
      assert q[5] == q[..8][5] == frmRecv[..8][5];
      u16DLen := GetLen(frmRecv[5]);
      f := Frame(frmRecv[..8], []);
      if u16DLen != 0 {
        u16RecvCount, got := 8, [];
        return false, f;
      }
      return true, f;
    }

    /** Checks the header: if it is wrong, all but the first byte are put back. */
    method JudgeHeader(ghost q: seq<bv8>) returns (done: bool, ghost f: Frame)
      requires Shape() && u16RecvCount == 0 && |q| >= 8 && q[0] == 0x21 && fifo.Contents() == q[8..] && fifo.bEnProtect
      requires fifo.intact && fifo.past == q[1..8] && frmRecv[..8] == q[..8]
      modifies this`u16RecvCount, this`u16DLen, this`got, fifo`u16Size, fifo`u16Head, fifo`past, fifo`bEnProtect
      ensures Valid()
      ensures exists n: nat :: n <= |q| && fifo.Contents() == q[n..] &&
                               Next(Idle, q) == Take(n, State(), if done then [f] else [])
      ensures done ==> InBuffer(f)
    {
      NextIs(Idle, q);
      done, f := false, Frame([], []);
      var crch := CrcByTable(frmRecv[1..7]);
      assert frmRecv[1..7] == q[..8][1..7] && frmRecv[7] == q[..8][7];
      if crch != frmRecv[7] {
        PutBack(q);
        return;
      }
      fifo.DisableProtect();
      done, f := TakeHeader(q);
    }

    method RecvByte(ghost q: seq<bv8>, i: nat)
      requires Shape() && 1 <= i < 8 <= |q| && fifo.Contents() == q[i..] && fifo.past == q[1..i]
      modifies fifo`u16Size, fifo`u16Head, fifo`past, frmRecv
      ensures Shape() && fifo.Contents() == q[i + 1..] && fifo.past == q[1..i + 1] && frmRecv[i] == q[i]
      ensures forall j | 0 <= j < 248 && j != i :: frmRecv[j] == old(frmRecv[j])
    {
      var _, b := fifo.Pop();
      ghost var rest := fifo.Contents();
      FirstOfRest(q, i, b, rest);
      OneMore(q, i);
      frmRecv[i] := b;
      assert fifo.Contents() == rest;
    }

    /** Takes the rest of the header. */
    method RecvHeader(ghost q: seq<bv8>)
      requires Shape() && |q| >= 8 && fifo.Contents() == q[1..] && fifo.past == [] && fifo.intact && fifo.bEnProtect
      requires frmRecv[0] == 0x21 == q[0]
      modifies fifo`u16Size, fifo`u16Head, fifo`past, frmRecv
      ensures Shape() && fifo.Contents() == q[8..] && fifo.past == q[1..8] && frmRecv[..8] == q[..8]
    {
      for i := 1 to 8
        invariant Shape() && fifo.Contents() == q[i..] && fifo.past == q[1..i]
        invariant forall j | 0 <= j < i :: frmRecv[j] == q[j]
      {
        RecvByte(q, i);
      }
      assert frmRecv[..8] == q[..8];
    }

    /** What follows the preamble is taken for a header. */
    method AfterPreamble(ghost q: seq<bv8>) returns (done: bool, ghost f: Frame)
      requires Shape() && u16RecvCount == 0 && |q| >= 8 && q[0] == 0x21 == frmRecv[0] && fifo.Contents() == q[1..]
      modifies this`u16RecvCount, this`u16DLen, this`got, fifo, frmRecv
      ensures Valid() && frmRecv[0] == 0x21
      ensures exists n: nat :: n <= |q| && fifo.Contents() == q[n..] &&
                               Next(Idle, q) == Take(n, State(), if done then [f] else [])
      ensures done ==> InBuffer(f)
    {
      fifo.EnableProtect();
      RecvHeader(q);
      assert frmRecv[0] == frmRecv[..8][0];
      done, f := JudgeHeader(q);
    }

    /** One round while waiting for a header. */
    method HeaderStep() returns (done: bool, ghost f: Frame)
      requires Valid() && u16RecvCount == 0 && fifo.u16Size >= 8 && frmRecv[0] == 0x21
      modifies this`u16RecvCount, this`u16DLen, this`got, fifo, frmRecv
      ensures Valid() && frmRecv[0] == 0x21 && fifo.u16Size < old(fifo.u16Size)
      ensures Next(Idle, old(fifo.Contents()))
           == Take(old(fifo.u16Size) - fifo.u16Size, State(), if done then [f] else [])
      ensures fifo.Contents() == old(fifo.Contents())[old(fifo.u16Size) - fifo.u16Size..]
      ensures done ==> InBuffer(f)
    {
      NextIs(Idle, fifo.Contents());
      done, f := false, Frame([], []);
      ghost var q := fifo.Contents();
      var _, b := fifo.Pop();
      assert fifo.Contents() == q[1..] && q[..8][0] == b;
      if b == CST_PREAMBLE { done, f := AfterPreamble(q); }
    }

    /** Stores a byte of the data, if there is room for it. */
    method StoreByte(n: nat, b: bv8)
      requires frmRecv.Length == 248 && frmRecv != fifo.arrBuff && n == |got| && Stored(got)
      modifies this`got, frmRecv
      ensures got == old(got) + [b] && Stored(got) && frmRecv[..8] == old(frmRecv[..8])
    {
      if n < 240 { frmRecv[8 + n] := b; }
      got := got + [b];
    }

    /** One round while collecting data. */
    method DataStep() returns (done: bool, ghost f: Frame)
      requires Valid() && u16RecvCount != 0 && fifo.u16Size > 0
      modifies this`u16RecvCount, this`got, fifo`u16Size, fifo`u16Head, fifo`past, frmRecv
      ensures Valid() && frmRecv[0] == old(frmRecv[0]) && fifo.u16Size == old(fifo.u16Size) - 1
      ensures Next(old(State()), old(fifo.Contents())) == Take(1, State(), if done then [f] else [])
      ensures fifo.Contents() == old(fifo.Contents())[1..]
      ensures done ==> InBuffer(f)
    {
      NextIs(State(), fifo.Contents());
      ghost var q, h := fifo.Contents(), frmRecv[..8];
      var n := u16RecvCount - 8;
      var _, b := fifo.Pop();
      assert fifo.Contents() == q[1..];
      StoreByte(n, b);
      assert frmRecv[5] == h[5];
      u16RecvCount := u16RecvCount + 1;
      f := Frame(h, Clip(got));
      assert f.data == frmRecv[8..8 + |f.data|];
      n := n + 1;
      if n < u16DLen { return false, f; }
      u16RecvCount := 0;
      return true, f;
    }

    /** Takes bytes until a frame is complete (`done`) or there are too few. */
    method ProcessRecvData() returns (done: bool, ghost f: Frame)
      requires Valid()
      modifies this`u16RecvCount, this`u16DLen, this`got, fifo, frmRecv
      ensures Valid()
      ensures var o, o' := Parse(old(State()), old(fifo.Contents())), Parse(State(), fifo.Contents());
        if done then o == Outcome([f] + o'.frames, o'.st, o'.rest) && InBuffer(f)
        else o == Outcome([], State(), fifo.Contents())
      ensures fifo.u16Size <= old(fifo.u16Size) && (done ==> fifo.u16Size < old(fifo.u16Size))
    {
      ghost var o := Parse(State(), fifo.Contents());
      f := Frame([], []);
      frmRecv[0] := CST_PREAMBLE;
      assert Valid() && Parse(State(), fifo.Contents()) == o;
      while fifo.u16Size > 0
        invariant Valid() && Parse(State(), fifo.Contents()) == o && frmRecv[0] == 0x21
        invariant fifo.u16Size <= old(fifo.u16Size)
        decreases fifo.u16Size
      {
        if u16RecvCount == 0 {
          if fifo.u16Size < 8 { break; }
          done, f := HeaderStep();
        } else {
          done, f := DataStep();
        }
        if done { return; }
      }
      NextIs(State(), fifo.Contents());
      done := false;
    }

    /** Runs the parser until it finds no more frames. */
    method Drain() returns (ghost frames: seq<Frame>)
      requires Valid()
      modifies this`u16RecvCount, this`u16DLen, this`got, fifo, frmRecv
      ensures Valid() && Parse(old(State()), old(fifo.Contents())) == Outcome(frames, State(), fifo.Contents())
    {
      ghost var o := Parse(State(), fifo.Contents());
      frames := [];
      var done := true;
      while done
        invariant Valid()
        invariant done ==> var o' := Parse(State(), fifo.Contents()); o == Outcome(frames + o'.frames, o'.st, o'.rest)
        invariant !done ==> o == Outcome(frames, State(), fifo.Contents())
        decreases fifo.u16Size, done
      {
        ghost var f;
        done, f := ProcessRecvData();
        if done {
          Assoc(frames, [f], Parse(State(), fifo.Contents()).frames);
          frames := frames + [f];
        }
      }
    }

    /** A byte arrives. */
    method Arrive(b: bv8)
      requires Valid() && fifo.u16Size < 512
      modifies fifo`u16Size, fifo`u16Tail, fifo`intact, fifo.arrBuff
      ensures Valid() && State() == old(State()) && fifo.Contents() == old(fifo.Contents()) + [b]
    {
      ghost var h := frmRecv[..8];
      var _ := fifo.Push(b);
      assert frmRecv[..8] == h;
    }

    /** Bytes arrive, and the parser is run. */
    method Feed(bytes: seq<bv8>) returns (ghost frames: seq<Frame>)
      requires Valid() && fifo.u16Size + |bytes| <= 512
      modifies this`u16RecvCount, this`u16DLen, this`got, fifo, fifo.arrBuff, frmRecv
      ensures Valid() && Parse(old(State()), old(fifo.Contents()) + bytes) == Outcome(frames, State(), fifo.Contents())
    {
      ghost var q := fifo.Contents();
      assert q + bytes[..0] == q;
      for i := 0 to |bytes|
        invariant Valid() && State() == old(State()) && fifo.Contents() == q + bytes[..i]
      {
        Arrive(bytes[i]);
        OneArrived(q, bytes, i);
      }
      assert bytes[..|bytes|] == bytes;
      frames := Drain();
    }

    /** The frame in the buffer is for this node. */
    predicate ForMe()
      requires frmRecv.Length == 248
      reads frmRecv
    {
      frmRecv[2] == u8NodeID || frmRecv[2] == 0xFF
    }

    /** The frame says that its data is longer than the buffer; broadcasts are let through. */
    ghost predicate TooLong()
      requires frmRecv.Length == 248
      reads frmRecv
    {
      Len(frmRecv[5]) > 240 && frmRecv[2] != 0xFF
    }

    /** The data that is checked: what is in the buffer and, for a broadcast that is too long, bytes behind it. */
    ghost function Checked(behind: seq<bv8>): seq<bv8>
      requires frmRecv.Length == 248 && |behind| == 15
      reads frmRecv
    {
      (frmRecv[8..] + behind)[..Len(frmRecv[5])]
    }

    /** The data checksum is right, or there is no data. */
    ghost predicate DataOk(behind: seq<bv8>)
      requires frmRecv.Length == 248 && |behind| == 15
      reads frmRecv
    {
      Len(frmRecv[5]) == 0 || frmRecv[6] == Crc8(Checked(behind))
    }

    /** The frame in the buffer is for this node, is not too long, and its data is not damaged. */
    ghost predicate Fine(behind: seq<bv8>)
      requires frmRecv.Length == 248 && |behind| == 15
      reads frmRecv
    {
      ForMe() && !TooLong() && DataOk(behind)
    }

    /** What is looked at lies inside the buffer. */
    ghost predicate Inside()
      requires frmRecv.Length == 248
      reads frmRecv
    {
      !ForMe() || frmRecv[2] != 0xFF || Len(frmRecv[5]) <= 240
    }

    method Drop()
      requires Valid()
      modifies fifo`u16Size, fifo`u16Head, fifo`u16Tail, fifo`bEnProtect, fifo`u16ProtectPtr
      ensures Valid() && fifo.Contents() == []
    {
      fifo.Reset();
    }

    /** The rest of it: a frame for this node that is not damaged. */
    method OnGoodFrame(dst: bv8, seqNum: bv8, ctrl: bv8) returns (action: Action, deliver: bool)
      modifies this`u8SeqRemote, this`u8SeqCMDFrm
      ensures deliver == (IsData(ctrl) && (!bCheckSeqNum || seqNum != old(u8SeqRemote)))
      ensures u8SeqRemote == if IsData(ctrl) then seqNum else old(u8SeqRemote)
      ensures action == Answer(dst, ctrl)
      ensures u8SeqCMDFrm == if IsReply(ctrl) then seqNum else old(u8SeqCMDFrm)
    {
      action, deliver := NoAction, false;
      if IsData(ctrl) {
        if !bCheckSeqNum || seqNum != u8SeqRemote {
          deliver := true;
          u8SeqRemote := seqNum;
        }
      } else {
        var kind := FrmType(ctrl);
        if kind == 1 {
          action := RecvAck;
          u8SeqCMDFrm := seqNum;
        } else if kind == 2 {
          action := RecvNack;
          u8SeqCMDFrm := seqNum;
        }
      }
      if AckReq(ctrl) && dst != 0xFF { action := RequestAck; }
    }

    /** All of it but the loss of the bytes that follow. */
    method Judge(behind: seq<bv8>) returns (action: Action, deliver: bool, damaged: bool, ghost upTo: nat)
      requires frmRecv.Length == 248 && |behind| == 15
      modifies this`u8SeqRemote, this`u8SeqCMDFrm
      ensures deliver == (Fine(behind) && IsData(frmRecv[4]) && (!bCheckSeqNum || frmRecv[3] != old(u8SeqRemote)))
      ensures u8SeqRemote == if Fine(behind) && IsData(frmRecv[4]) then frmRecv[3] else old(u8SeqRemote)
      ensures !ForMe() ==> action == NoAction
      ensures Fine(behind) ==> action == Answer(frmRecv[2], frmRecv[4])
      ensures u8SeqCMDFrm == if Fine(behind) && IsReply(frmRecv[4]) then frmRecv[3] else old(u8SeqCMDFrm)
      ensures ForMe() && !Fine(behind) ==>
                action == if TooLong() || (AckReq(frmRecv[4]) && frmRecv[2] != 0xFF) then RequestNack else NoAction
      ensures damaged == (ForMe() && !TooLong() && !DataOk(behind))
      ensures upTo <= 248 <==> Inside()
    {
      action, deliver, damaged, upTo := NoAction, false, false, 8;
      var dlen := GetLen(frmRecv[5]);
      if frmRecv[2] != u8NodeID && frmRecv[2] != 0xFF { return; }
      if dlen > 240 && frmRecv[2] != 0xFF { return RequestNack, false, false, 8; }
      upTo := 8 + dlen;
      var crcd := CrcByTable((frmRecv[8..] + behind)[..dlen]);
      if dlen != 0 && frmRecv[6] != crcd {
        if AckReq(frmRecv[4]) && frmRecv[2] != 0xFF { action := RequestNack; }
        damaged := true;
        return;
      }
      action, deliver := OnGoodFrame(frmRecv[2], frmRecv[3], frmRecv[4]);
    }

    /** Judges the frame in the buffer. `deliver`: its data goes to the layer above; `upTo`: the bytes before this index
        have been looked at; `behind`: what lies behind the buffer in memory. */
    method OnRecvFrame(behind: seq<bv8>) returns (action: Action, deliver: bool, ghost upTo: nat)
      requires Valid() && |behind| == 15
      modifies this`u8SeqRemote, this`u8SeqCMDFrm, fifo`u16Size, fifo`u16Head, fifo`u16Tail, fifo`bEnProtect,
               fifo`u16ProtectPtr
      ensures Valid()
      // what is not for this node, too long or damaged is never delivered, and what is delivered once is not delivered
      // again as long as sequence numbers are checked
      ensures deliver == (Fine(behind) && IsData(frmRecv[4]) && (!bCheckSeqNum || frmRecv[3] != old(u8SeqRemote)))
      ensures u8SeqRemote == if Fine(behind) && IsData(frmRecv[4]) then frmRecv[3] else old(u8SeqRemote)
      ensures !ForMe() ==> action == NoAction
      ensures Fine(behind) ==> action == Answer(frmRecv[2], frmRecv[4])
      ensures u8SeqCMDFrm == if Fine(behind) && IsReply(frmRecv[4]) then frmRecv[3] else old(u8SeqCMDFrm)
      ensures ForMe() && !Fine(behind) ==>
                action == if TooLong() || (AckReq(frmRecv[4]) && frmRecv[2] != 0xFF) then RequestNack else NoAction
      // a frame with damaged data takes the bytes after it along
      ensures if ForMe() && !TooLong() && !DataOk(behind) then fifo.Contents() == []
              else fifo.Contents() == old(fifo.Contents())
      ensures upTo <= 248 <==> Inside()
    {
      var damaged;
      action, deliver, damaged, upTo := Judge(behind);
      if damaged { Drop(); }
    }
  }

  /** A header with these fields. */
  ghost function HeaderOf(fields: seq<bv8>): (h: seq<bv8>)
    requires |fields| == 6
    ensures GoodHeader(h) && h[1..7] == fields
  {
    var h := [0x21] + fields + [Crc8(fields)];
    assert h[1..7] == fields;
    h
  }

  /** A broadcast may claim more data than the buffer holds, and the parser delivers it like any other frame. */
  lemma LongBroadcast(data: seq<bv8>, q: seq<bv8>) returns (h: seq<bv8>)
    requires |data| == 241
    ensures GoodHeader(h) && h[2] == 0xFF && Len(h[5]) == 241
    ensures Parse(Idle, h + data + q)
            == (var o := Parse(Idle, q); Outcome([Frame(h, data[..240])] + o.frames, o.st, o.rest))
  {
    h := HeaderOf([1, 0xFF, 0, 0x20, 241, 0]);
    assert h[1..7][1] == h[2] && h[1..7][4] == h[5];
    assert Open(0);
    var s := h + data + q;
    assert s[..8] == h && s[5] == h[5] && s[8..] == data + q;
    NextIs(Idle, s);
    ParseStep(Idle, s, 8, Data(h, []), [], data + q);
    ParseData(h, [], data, q);
    assert [] + data == data;
    Assoc<Frame>([], [], Parse(Data(h, []), data + q).frames);
  }

  /** Whether such a frame passes for undamaged then depends on a byte behind the buffer. */
  lemma DecidedBehind(room: seq<bv8>, crcd: bv8, b: bv8, b': bv8)
    requires |room| == 240 && b != b' && crcd == Crc8(room + [b])
    ensures crcd != Crc8(room + [b'])
  {
    ByteDetected(room + [b], room + [b'], 240);
  }

  /** A frame that was built, and received, passes at the node it is for, or everywhere if it is a broadcast, and at no
      other; so that its control byte decides what happens then. */
  lemma BuiltIsFine(r: Receiver, f: Frame, src: bv8, dst: bv8, seqNum: bv8, ctrl: bv8, dlen: bv8, behind: seq<bv8>)
    requires Built(f) && f.hdr[..6] == [0x21, src, dst, seqNum, ctrl, dlen]
    requires r.frmRecv.Length == 248 && r.InBuffer(f) && |behind| == 15
    ensures r.Fine(behind) <==> dst == r.u8NodeID || dst == 0xFF
    ensures r.ForMe() ==> r.Fine(behind)
    ensures r.frmRecv[3] == seqNum && r.frmRecv[4] == ctrl
  {
    var n := Len(dlen);
    assert forall i | 0 <= i < 6 :: r.frmRecv[i] == f.hdr[i] == f.hdr[..6][i];
    assert r.frmRecv[6] == f.hdr[6];
    assert r.Checked(behind) == f.data;
  }

  /** Damage to one byte of the data shows in the checksum. */
  lemma DamageShows(f: Frame, data: seq<bv8>, i: nat)
    requires Built(f) && |data| == |f.data| && i < |data| && data[i] != f.data[i]
    requires forall j | 0 <= j < |data| && j != i :: data[j] == f.data[j]
    ensures Crc8(data) != f.hdr[6]
  {
    ByteDetected(data, f.data, i);
  }

  /** So does damage to one byte of the header, but for the preamble. */
  lemma HeaderDamageShows(f: Frame, h: seq<bv8>, i: nat)
    requires Built(f) && |h| == 8 && 1 <= i < 8 && h[i] != f.hdr[i]
    requires forall j | 0 <= j < 8 && j != i :: h[j] == f.hdr[j]
    ensures !GoodHeader(h)
  {
    if i < 7 {
      ByteDetected(h[1..7], f.hdr[1..7], i - 1);
    } else {
      assert h[1..7] == f.hdr[1..7];
    }
  }
}
