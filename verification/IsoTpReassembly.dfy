/** The receiver against a reference: whatever frames arrive, in any order and at any time, its buffer, offset, sequence
    number and block counter stand for the bytes accepted so far. */
module IsoTpReassembly {
  import opened Bytes
  import opened Clock
  import opened IsoTp

  /** A message as far as it has been accepted. */
  datatype Assembly = Nothing | Partial(total: nat, bytes: seq<byte>, deadline: int) | Whole(bytes: seq<byte>)

  datatype Input =
    | Arrives(frame: Frame, now: int)
    | Polled(now: int, ok: bool)
    | Sends(payload: seq<byte>, now: int, ok: bool)
    | Fetched(room: nat)

  // ----- the reference

  function SingleArrives(a: Assembly, msg: Frame, len: nat): Assembly
    requires |msg| == 8 && 2 <= len <= 8
  {
    var dl := msg[0] % 16;
    if 1 <= dl <= len - 1 then Whole(msg[1..1 + dl]) else a
  }

  function FirstArrives(c: Clock, a: Assembly, msg: Frame, len: nat, now: int, room: nat): Assembly
    requires |msg| == 8
  {
    var high: nat := msg[0] % 16;
    var total: nat := high * 256 + msg[1];
    if len < 8 || total <= 7 then a
    else if total > room then Nothing
    else Partial(total, msg[2..8], Plus(c, now, RESPONSE_TIMEOUT))
  }

  /** The k-th consecutive frame behind the first one must carry k modulo 16, and seven bytes or the rest. */
  function ConsecutiveArrives(c: Clock, a: Assembly, msg: Frame, len: nat, now: int): Assembly
    requires |msg| == 8 && len <= 8
  {
    match a
    case Partial(total, bytes, deadline) =>
      if (|bytes| + 1) / 7 % 16 != msg[0] % 16 then Nothing
      else
        var n := Min(total - |bytes|, 7);
        if n < 0 || n >= len then a
        else
          var more := bytes + msg[1..1 + n];
          if |more| == total then Whole(more) else Partial(total, more, Plus(c, now, RESPONSE_TIMEOUT))
    case _ => a
  }

  function FrameArrives(c: Clock, a: Assembly, frame: Frame, now: int, room: nat): Assembly {
    var len := |frame|;
    if len < 2 || len > 8 then a
    else
      var msg := frame + Zeros(8 - len);
      var kind := msg[0] / 16;
      if kind == 0 then SingleArrives(a, msg, len)
      else if kind == 1 then FirstArrives(c, a, msg, len, now, room)
      else if kind == 2 then ConsecutiveArrives(c, a, msg, len, now)
      else a
  }

  const CONTINUE_FRAME: Frame := [0x30, 8, 0, 0, 0, 0, 0, 0]
  const OVERFLOW_FRAME: Frame := [0x32, 0, 0, 0, 0, 0, 0, 0]

  /** What is answered: a first frame is granted a block or refused for want of room, and every eighth consecutive
      frame of an incomplete message is granted another block. */
  function Replies(c: Clock, a: Assembly, frame: Frame, now: int, room: nat): seq<Frame> {
    var len := |frame|;
    if len < 2 || len > 8 then []
    else
      var msg := frame + Zeros(8 - len);
      var kind := msg[0] / 16;
      if kind == 1 then FirstReplies(msg, len, room)
      else if kind == 2 then ConsecutiveReplies(a, ConsecutiveArrives(c, a, msg, len, now))
      else []
  }

  function FirstReplies(msg: Frame, len: nat, room: nat): seq<Frame>
    requires |msg| == 8
  {
    var high: nat := msg[0] % 16;
    var total: nat := high * 256 + msg[1];
    if len < 8 || total <= 7 then [] else if total > room then [OVERFLOW_FRAME] else [CONTINUE_FRAME]
  }

  function ConsecutiveReplies(a: Assembly, a1: Assembly): seq<Frame> {
    if a.Partial? && a1.Partial? && |a1.bytes| > |a.bytes| && (|a1.bytes| - 6) / 7 % 8 == 0 then [CONTINUE_FRAME]
    else []
  }

  /** The protocol result that the receiver reports after an input, `before` being the one so far. */
  function Reports(c: Clock, a: Assembly, before: ProtocolResult, i: Input, room: nat): ProtocolResult {
    match i
    case Arrives(frame, _) =>
      if |frame| < 2 || |frame| > 8 then before else FrameReports(a, before, frame + Zeros(8 - |frame|), |frame|, room)
    case Polled(now, _) => if a.Partial? && After(c, now, a.deadline) then TimeoutCr else before
    case _ => before
  }

  function FrameReports(a: Assembly, before: ProtocolResult, msg: Frame, len: nat, room: nat): ProtocolResult
    requires |msg| == 8
  {
    var kind := msg[0] / 16;
    if kind == 1 && FirstReplies(msg, len, room) == [OVERFLOW_FRAME] then BufferOverflow
    else if kind <= 1 then (if a.Partial? then UnexpectedPdu else ResultOk)
    else if kind != 2 then before
    else if !a.Partial? then UnexpectedPdu
    else if (|a.bytes| + 1) / 7 % 16 != msg[0] % 16 then WrongSn
    else before
  }

  /** What isotp_receive hands out. */
  function HandsOut(a: Assembly, room: nat): seq<byte> {
    if a.Whole? then a.bytes[..Min(|a.bytes|, room)] else []
  }

  function Next(c: Clock, a: Assembly, i: Input, room: nat): Assembly {
    match i
    case Arrives(frame, now) => FrameArrives(c, a, frame, now, room)
    case Polled(now, _) => if a.Partial? && After(c, now, a.deadline) then Nothing else a
    case Sends(_, _, _) => a
    case Fetched(_) => if a.Whole? then Nothing else a
  }

  function Assemble(c: Clock, a: Assembly, inputs: seq<Input>, room: nat): Assembly
    decreases |inputs|
  {
    if inputs == [] then a else Assemble(c, Next(c, a, inputs[0], room), inputs[1..], room)
  }

  // ----- the link

  function Step(c: Clock, l: Link, i: Input): (r: Link)
    requires ValidLink(l)
    ensures ValidLink(r)
  {
    match i
    case Arrives(frame, now) =>
      OnCanMessageKeepsValid(c, l, frame, now);
      OnCanMessage(c, l, frame, now).0
    case Polled(now, ok) =>
      PollKeepsValid(c, l, now, ok);
      Poll(c, l, now, ok).0
    case Sends(payload, now, ok) =>
      SendKeepsValid(c, l, payload, now, ok);
      SendWithId(c, l, payload, now, ok).0
    case Fetched(room) => Receive(l, room).0
  }

  function Steps(c: Clock, l: Link, inputs: seq<Input>): (r: Link)
    requires ValidLink(l)
    ensures ValidLink(r)
    decreases |inputs|
  {
    if inputs == [] then l else Steps(c, Step(c, l, inputs[0]), inputs[1..])
  }

  /** What the receiver's fields stand for. */
  function Meaning(r: Receiver): Assembly
    requires ValidReceiver(r)
  {
    match r.status
    case ReceiveIdle => Nothing
    case ReceiveInProgress => Partial(r.size, r.buf[..r.offset], r.timerCr)
    case ReceiveFull => Whole(r.buf[..r.size])
  }

  // ----- the link refines the reference

  lemma SnCounts(offset: nat)
    requires offset >= 6 && (offset - 6) % 7 == 0
    ensures (1 + (offset - 6) / 7) % 16 == (offset + 1) / 7 % 16
  {
    assert (offset + 1) / 7 == 1 + (offset - 6) / 7;
  }

  lemma SingleRefines(r: Receiver, msg: Frame, len: nat)
    requires ValidReceiver(r) && |msg| == 8 && 2 <= len <= 8
    ensures ValidReceiver(OnSingle(r, msg, len))
    ensures Meaning(OnSingle(r, msg, len)) == SingleArrives(Meaning(r), msg, len)
  {
    OnSingleKeepsValid(r, msg, len);
    var r1 := OnSingle(r, msg, len);
    if 1 <= msg[0] % 16 <= len - 1 {
      assert r1.buf[..r1.size] == r1.buf[0..0 + r1.size];
    }
  }

  lemma FirstRefines(c: Clock, r: Receiver, msg: Frame, len: nat, now: int)
    requires ValidReceiver(r) && |msg| == 8 && len <= 8
    ensures ValidReceiver(OnFirst(c, r, msg, len, now).0)
    ensures Meaning(OnFirst(c, r, msg, len, now).0) == FirstArrives(c, Meaning(r), msg, len, now, |r.buf|)
  {
    OnFirstKeepsValid(c, r, msg, len, now);
    var r1 := OnFirst(c, r, msg, len, now).0;
    if r1.status.ReceiveInProgress? && r1.offset == 6 {
      assert r1.buf[..6] == r1.buf[0..0 + 6];
    }
  }

  lemma ConsecutiveRefines(c: Clock, r: Receiver, msg: Frame, len: nat, now: int)
    requires ValidReceiver(r) && |msg| == 8 && 2 <= len <= 8
    ensures ValidReceiver(OnConsecutive(c, r, msg, len, now).0)
    ensures Meaning(OnConsecutive(c, r, msg, len, now).0) == ConsecutiveArrives(c, Meaning(r), msg, len, now)
  {
    OnConsecutiveKeepsValid(c, r, msg, len, now);
    if r.status.ReceiveInProgress? {
      SnCounts(r.offset);
      if r.sn == msg[0] % 16 && Min(r.size - r.offset, 7) < len {
        AcceptedRefines(c, r, msg, len, now);
      }
    }
  }

  lemma AcceptedRefines(c: Clock, r: Receiver, msg: Frame, len: nat, now: int)
    requires ValidReceiver(r) && |msg| == 8 && 2 <= len <= 8 && r.status.ReceiveInProgress?
    requires r.sn == msg[0] % 16 && Min(r.size - r.offset, 7) < len
    ensures var n, r1 := Min(r.size - r.offset, 7), OnConsecutive(c, r, msg, len, now).0;
            var more := r.buf[..r.offset] + msg[1..1 + n];
            && ValidReceiver(r1)
            && Meaning(r1) == if |more| == r.size then Whole(more)
                              else Partial(r.size, more, Plus(c, now, RESPONSE_TIMEOUT))
  {
    var n := Min(r.size - r.offset, 7);
    OnConsecutiveKeepsValid(c, r, msg, len, now);
    WriteExtendsPrefix(r.buf, r.offset, msg[1..1 + n], r.buf[..r.offset]);
  }

  /** The receiver after a frame. */
  lemma Dispatched(c: Clock, l: Link, frame: Frame, now: int)
    requires ValidLink(l) && 2 <= |frame| <= 8
    ensures var len := |frame|;
            var msg := frame + Zeros(8 - len);
            var kind := msg[0] / 16;
            OnCanMessage(c, l, frame, now).0.rcv ==
            if kind == 0 then OnSingle(l.rcv, msg, len)
            else if kind == 1 then OnFirst(c, l.rcv, msg, len, now).0
            else if kind == 2 then OnConsecutive(c, l.rcv, msg, len, now).0
            else l.rcv
  {
  }

  lemma FrameRefines(c: Clock, r: Receiver, frame: Frame, now: int, r1: Receiver)
    requires ValidReceiver(r) && 2 <= |frame| <= 8 && ValidReceiver(r1)
    requires var len := |frame|;
             var msg := frame + Zeros(8 - len);
             var kind := msg[0] / 16;
             r1 ==
             if kind == 0 then OnSingle(r, msg, len)
             else if kind == 1 then OnFirst(c, r, msg, len, now).0
             else if kind == 2 then OnConsecutive(c, r, msg, len, now).0
             else r
    ensures Meaning(r1) == FrameArrives(c, Meaning(r), frame, now, |r.buf|)
  {
    var len := |frame|;
    var msg := frame + Zeros(8 - len);
    if msg[0] / 16 == 0 {
      SingleRefines(r, msg, len);
    } else if msg[0] / 16 == 1 {
      FirstRefines(c, r, msg, len, now);
    } else if msg[0] / 16 == 2 {
      ConsecutiveRefines(c, r, msg, len, now);
    }
  }

  lemma OthersRefine(c: Clock, l: Link, i: Input)
    requires ValidLink(l) && !i.Arrives?
    ensures Meaning(Step(c, l, i).rcv) == Next(c, Meaning(l.rcv), i, |l.rcv.buf|)
  {
  }

  lemma StepRefines(c: Clock, l: Link, i: Input)
    requires ValidLink(l)
    ensures Meaning(Step(c, l, i).rcv) == Next(c, Meaning(l.rcv), i, |l.rcv.buf|)
  {
    if i.Arrives? {
      if 2 <= |i.frame| <= 8 {
        Dispatched(c, l, i.frame, i.now);
        FrameRefines(c, l.rcv, i.frame, i.now, Step(c, l, i).rcv);
      }
    } else {
      OthersRefine(c, l, i);
    }
  }

  lemma SameRoom(c: Clock, l: Link, i: Input)
    requires ValidLink(l)
    ensures |Step(c, l, i).rcv.buf| == |l.rcv.buf|
  {
  }

  /** In every run of a link, whatever frames arrive and whatever else it is asked to do, the receiver stands for
      exactly the message that the reference assembles from the same frames: in progress its buffer begins with the
      accepted bytes, and a full receiver holds the whole message. */
  lemma {:induction false} ReceiverAssembles(c: Clock, l: Link, inputs: seq<Input>)
    requires ValidLink(l)
    ensures Meaning(Steps(c, l, inputs).rcv) == Assemble(c, Meaning(l.rcv), inputs, |l.rcv.buf|)
    decreases |inputs|
  {
    if inputs != [] {
      StepRefines(c, l, inputs[0]);
      SameRoom(c, l, inputs[0]);
      ReceiverAssembles(c, Step(c, l, inputs[0]), inputs[1..]);
    }
  }

  // ----- what the link gives away

  /** In every run: what isotp_receive hands out is the beginning of the message that the reference has assembled, as
      far as the caller has room; and nothing if there is none. */
  lemma FetchHandsOut(c: Clock, l: Link, inputs: seq<Input>, room: nat)
    requires ValidLink(l)
    ensures Receive(Steps(c, l, inputs), room).1
            == HandsOut(Assemble(c, Meaning(l.rcv), inputs, |l.rcv.buf|), room)
  {
    ReceiverAssembles(c, l, inputs);
    var r := Steps(c, l, inputs).rcv;
    if r.status.ReceiveFull? {
      assert r.buf[..r.size][..Min(r.size, room)] == r.buf[..Min(r.size, room)];
    }
  }

  lemma ControlFrames()
    ensures FlowControl(FS_CONTINUE, BLOCK_SIZE, ST_MIN) == CONTINUE_FRAME
    ensures FlowControl(FS_OVERFLOW, 0, 0) == OVERFLOW_FRAME
  {
    assert Zeros(5) == [0, 0, 0, 0, 0];
  }

  lemma FirstAnswered(c: Clock, r: Receiver, msg: Frame, len: nat, now: int)
    requires ValidReceiver(r) && |msg| == 8 && len <= 8
    ensures OnFirst(c, r, msg, len, now).1 == FirstReplies(msg, len, |r.buf|)
  {
    ControlFrames();
  }

  /** The block counter is used up with every eighth frame. */
  lemma BlockEnds(offset: nat)
    requires offset >= 6 && (offset - 6) % 7 == 0
    ensures BLOCK_SIZE - (offset - 6) / 7 % BLOCK_SIZE - 1 == 0 <==> (offset + 7 - 6) / 7 % 8 == 0
  {
    assert (offset + 7 - 6) / 7 == (offset - 6) / 7 + 1;
  }

  lemma ConsecutiveAnswered(c: Clock, r: Receiver, msg: Frame, len: nat, now: int)
    requires ValidReceiver(r) && |msg| == 8 && 2 <= len <= 8
    ensures OnConsecutive(c, r, msg, len, now).1
            == ConsecutiveReplies(Meaning(r), ConsecutiveArrives(c, Meaning(r), msg, len, now))
  {
    if r.status.ReceiveInProgress? {
      ControlFrames();
      SnCounts(r.offset);
      BlockEnds(r.offset);
    }
  }

  /** Whatever arrives, the link answers what the reference answers. */
  lemma FrameAnswered(c: Clock, l: Link, frame: Frame, now: int)
    requires ValidLink(l)
    ensures OnCanMessage(c, l, frame, now).1 == Replies(c, Meaning(l.rcv), frame, now, |l.rcv.buf|)
  {
    var len := |frame|;
    if 2 <= len <= 8 {
      var msg := frame + Zeros(8 - len);
      FirstAnswered(c, l.rcv, msg, len, now);
      ConsecutiveAnswered(c, l.rcv, msg, len, now);
    }
  }

  lemma FirstReports(c: Clock, r: Receiver, msg: Frame, len: nat, now: int)
    requires ValidReceiver(r) && |msg| == 8 && 2 <= len <= 8 && msg[0] / 16 == 1
    ensures OnFirst(c, r, msg, len, now).0.result == FrameReports(Meaning(r), r.result, msg, len, |r.buf|)
  {
    assert CONTINUE_FRAME[0] != OVERFLOW_FRAME[0];
  }

  lemma ConsecutiveReports(c: Clock, r: Receiver, msg: Frame, len: nat, now: int)
    requires ValidReceiver(r) && |msg| == 8 && 2 <= len <= 8 && msg[0] / 16 == 2
    ensures OnConsecutive(c, r, msg, len, now).0.result == FrameReports(Meaning(r), r.result, msg, len, |r.buf|)
  {
    if r.status.ReceiveInProgress? {
      SnCounts(r.offset);
    }
  }

  /** With every input the receiver reports what the reference reports. */
  lemma StepReports(c: Clock, l: Link, i: Input)
    requires ValidLink(l)
    ensures Step(c, l, i).rcv.result == Reports(c, Meaning(l.rcv), l.rcv.result, i, |l.rcv.buf|)
  {
    if i.Arrives? && 2 <= |i.frame| <= 8 {
      var msg := i.frame + Zeros(8 - |i.frame|);
      Dispatched(c, l, i.frame, i.now);
      if msg[0] / 16 == 1 {
        FirstReports(c, l.rcv, msg, |i.frame|, i.now);
      } else if msg[0] / 16 == 2 {
        ConsecutiveReports(c, l.rcv, msg, |i.frame|, i.now);
      }
    }
  }
}
