/** The ISO-TP link (section 6.5 of ISO 15765-2:2004) as functions on values: frames, sender, receiver. */
module IsoTp {
  import opened Bytes
  import opened Clock

  const BLOCK_SIZE := 8
  const ST_MIN := 0
  const MAX_WFT_NUMBER := 1
  const RESPONSE_TIMEOUT := 100
  const INVALID_BS := 0xFFFF

  const FS_CONTINUE: byte := 0
  const FS_WAIT: byte := 1
  const FS_OVERFLOW: byte := 2

  datatype SendStatus = SendIdle | SendInProgress | SendError
  datatype ReceiveStatus = ReceiveIdle | ReceiveInProgress | ReceiveFull
  datatype ProtocolResult = ResultOk | TimeoutBs | TimeoutCr | WrongSn | UnexpectedPdu | WftOverrun | BufferOverflow
  datatype Ret = RetOk | RetInProgress | RetOverflow | RetCanError

  /** A CAN frame: its data bytes. */
  type Frame = seq<byte>

  datatype Sender = Sender(
    buf: seq<byte>, size: nat, offset: nat, sn: nat, bsRemain: nat, stMin: nat, wtfCount: nat,
    timerSt: int, timerBs: int, result: ProtocolResult, status: SendStatus)

  datatype Receiver = Receiver(
    buf: seq<byte>, size: nat, offset: nat, sn: nat, bsCount: nat,
    timerCr: int, result: ProtocolResult, status: ReceiveStatus)

  datatype Link = Link(snd: Sender, rcv: Receiver)

  // ----- invariants

  /** A sender in progress: the sequence number is the number of the next consecutive frame modulo 16. */
  ghost predicate ValidSender(s: Sender) {
    && s.size <= |s.buf| <= 0xFFFF
    && s.sn < 16 && s.stMin <= 0x7F
    && (s.bsRemain <= 0xFF || s.bsRemain == INVALID_BS)
    && (s.status.SendInProgress? ==>
          && 7 < s.size && 6 <= s.offset < s.size
          && (s.offset - 6) % 7 == 0
          && s.sn == (1 + (s.offset - 6) / 7) % 16
          && s.wtfCount <= MAX_WFT_NUMBER)
  }

  /** A receiver in progress: its place in the message, in the sequence numbers and in the block agree. */
  ghost predicate ValidReceiver(r: Receiver) {
    && 7 <= |r.buf| <= 0xFFFF && r.size <= |r.buf|
    && r.sn < 16
    && (r.status.ReceiveInProgress? ==>
          && 6 <= r.offset < r.size <= 4095
          && (r.offset - 6) % 7 == 0
          && r.sn == (1 + (r.offset - 6) / 7) % 16
          && r.bsCount == BLOCK_SIZE - (r.offset - 6) / 7 % BLOCK_SIZE)
  }

  ghost predicate ValidLink(l: Link) {
    ValidSender(l.snd) && ValidReceiver(l.rcv)
  }

  // ----- frames

  function MsToStMin(ms: byte): byte {
    if ms > 0x7F then 0x7F else ms
  }

  function StMinToMs(st: byte): byte {
    if 0xF1 <= st <= 0xF9 then 1 else if st <= 0x7F then st else 0
  }

  function SingleFrame(data: seq<byte>): (f: Frame)
    requires |data| <= 7
    ensures |f| == 8
  {
    [|data|] + data + Zeros(7 - |data|)
  }

  function FirstFrame(size: nat, data: seq<byte>): (f: Frame)
    requires |data| == 6
    ensures |f| == 8
  {
    [0x10 + size / 256 % 16, size % 256] + data
  }

  function ConsecutiveFrame(sn: nat, data: seq<byte>): (f: Frame)
    requires sn < 16 && |data| <= 7
    ensures |f| == 8
  {
    [0x20 + sn] + data + Zeros(7 - |data|)
  }

  function FlowControl(fs: byte, blockSize: byte, stMin: byte): (f: Frame)
    requires fs < 16
    ensures |f| == 8
  {
    [0x30 + fs, blockSize, MsToStMin(stMin)] + Zeros(5)
  }

  // ----- sending

  function NextSn(sn: nat): nat {
    if sn + 1 > 0x0F then 0 else sn + 1
  }

  /** isotp_send_with_id; `ok` says whether the CAN driver takes the frame. */
  function SendWithId(c: Clock, l: Link, payload: seq<byte>, now: int, ok: bool): (r: (Link, Ret, seq<Frame>))
    requires ValidLink(l)
  {
    var s := l.snd;
    if |payload| > |s.buf| then (l, RetOverflow, [])
    else if s.status.SendInProgress? then (l, RetInProgress, [])
    else
      var s1 := s.(size := |payload|, offset := 0, buf := Write(s.buf, 0, payload));
      if |payload| < 8 then
        (l.(snd := s1), if ok then RetOk else RetCanError, if ok then [SingleFrame(payload)] else [])
      else if ok then
        var s2 := s1.(offset := 6, sn := 1, bsRemain := 0, stMin := 0, wtfCount := 0,
                      timerSt := Store(c, now), timerBs := Plus(c, now, RESPONSE_TIMEOUT),
                      result := ResultOk, status := SendInProgress);
        (l.(snd := s2), RetOk, [FirstFrame(|payload|, payload[..6])])
      else
        (l.(snd := s1), RetCanError, [])
  }

  /** One consecutive frame: isotp_send_consecutive_frame and what isotp_poll does with its result. */
  function SendConsecutive(c: Clock, s: Sender, now: int, ok: bool): (r: (Sender, seq<Frame>))
    requires ValidSender(s) && s.status.SendInProgress?
  {
    if !ok then (s.(status := SendError), [])
    else
      var len := Min(s.size - s.offset, 7);
      (s.(offset := s.offset + len,
          sn := NextSn(s.sn),
          bsRemain := if s.bsRemain == INVALID_BS || s.bsRemain == 0 then s.bsRemain else s.bsRemain - 1,
          timerBs := Plus(c, now, RESPONSE_TIMEOUT),
          timerSt := Plus(c, now, s.stMin),
          status := if s.offset + len >= s.size then SendIdle else SendInProgress),
       [ConsecutiveFrame(s.sn, s.buf[s.offset..s.offset + len])])
  }

  predicate MaySend(c: Clock, s: Sender, now: int) {
    && (s.bsRemain == INVALID_BS || s.bsRemain > 0)
    && (s.stMin == 0 || After(c, now, s.timerSt))
  }

  function PollSender(c: Clock, s: Sender, now: int, ok: bool): (r: (Sender, seq<Frame>))
    requires ValidSender(s)
  {
    if !s.status.SendInProgress? then (s, [])
    else
      var (s1, out) := if MaySend(c, s, now) then SendConsecutive(c, s, now, ok) else (s, []);
      (if After(c, now, s1.timerBs) then s1.(result := TimeoutBs, status := SendError) else s1, out)
  }

  function PollReceiver(c: Clock, r: Receiver, now: int): Receiver {
    if r.status.ReceiveInProgress? && After(c, now, r.timerCr)
    then r.(result := TimeoutCr, status := ReceiveIdle)
    else r
  }

  /** isotp_poll. */
  function Poll(c: Clock, l: Link, now: int, ok: bool): (r: (Link, seq<Frame>))
    requires ValidLink(l)
  {
    var (s, out) := PollSender(c, l.snd, now, ok);
    (Link(s, PollReceiver(c, l.rcv, now)), out)
  }

  // ----- receiving

  function Arrival(r: Receiver): Receiver {
    r.(result := if r.status.ReceiveInProgress? then UnexpectedPdu else ResultOk)
  }

  function OnSingle(r: Receiver, msg: Frame, len: nat): Receiver
    requires ValidReceiver(r) && |msg| == 8 && 2 <= len <= 8
  {
    var r1 := Arrival(r);
    var dl := msg[0] % 16;
    if dl == 0 || dl > len - 1 then r1
    else r1.(buf := Write(r.buf, 0, msg[1..1 + dl]), size := dl, status := ReceiveFull)
  }

  function OnFirst(c: Clock, r: Receiver, msg: Frame, len: nat, now: int): (Receiver, seq<Frame>)
    requires ValidReceiver(r) && |msg| == 8
  {
    var r1 := Arrival(r);
    var high: nat := msg[0] % 16;
    var size: nat := high * 256 + msg[1];
    if len != 8 || size <= 7 then (r1, [])
    else if size > |r.buf| then
      (r1.(result := BufferOverflow, status := ReceiveIdle), [FlowControl(FS_OVERFLOW, 0, 0)])
    else
      (r1.(buf := Write(r.buf, 0, msg[2..8]), size := size, offset := 6, sn := 1, bsCount := BLOCK_SIZE,
           status := ReceiveInProgress, timerCr := Plus(c, now, RESPONSE_TIMEOUT)),
       [FlowControl(FS_CONTINUE, BLOCK_SIZE, ST_MIN)])
  }

  function OnConsecutive(c: Clock, r: Receiver, msg: Frame, len: nat, now: int): (Receiver, seq<Frame>)
    requires ValidReceiver(r) && |msg| == 8
  {
    if !r.status.ReceiveInProgress? then (r.(result := UnexpectedPdu), [])
    else if r.sn != msg[0] % 16 then (r.(result := WrongSn, status := ReceiveIdle), [])
    else
      var n := Min(r.size - r.offset, 7);
      if n > len - 1 then (r, [])
      else
        var r1 := r.(buf := Write(r.buf, r.offset, msg[1..1 + n]), offset := r.offset + n, sn := NextSn(r.sn),
                     timerCr := Plus(c, now, RESPONSE_TIMEOUT));
        if r1.offset >= r.size then (r1.(status := ReceiveFull), [])
        else if r.bsCount - 1 == 0 then (r1.(bsCount := BLOCK_SIZE), [FlowControl(FS_CONTINUE, BLOCK_SIZE, ST_MIN)])
        else (r1.(bsCount := r.bsCount - 1), [])
  }

  function OnFlowControl(c: Clock, s: Sender, msg: Frame, len: nat, now: int): Sender
    requires |msg| == 8
  {
    if !s.status.SendInProgress? || len < 3 then s
    else
      var s1 := s.(timerBs := Plus(c, now, RESPONSE_TIMEOUT));
      var fs := msg[0] % 16;
      if fs == FS_OVERFLOW then s1.(result := BufferOverflow, status := SendError)
      else if fs == FS_WAIT then
        if s.wtfCount + 1 > MAX_WFT_NUMBER
        then s1.(wtfCount := s.wtfCount + 1, result := WftOverrun, status := SendError)
        else s1.(wtfCount := s.wtfCount + 1)
      else if fs == FS_CONTINUE then
        s1.(bsRemain := if msg[1] == 0 then INVALID_BS else msg[1], stMin := StMinToMs(msg[2]), wtfCount := 0)
      else s1
  }

  /** isotp_on_can_message: the link after the frame, and the flow control frames it sends back. */
  function OnCanMessage(c: Clock, l: Link, data: Frame, now: int): (r: (Link, seq<Frame>))
    requires ValidLink(l)
  {
    var len := |data|;
    if len < 2 || len > 8 then (l, [])
    else
      var msg := data + Zeros(8 - len);
      var pci := msg[0] / 16;
      if pci == 0 then (l.(rcv := OnSingle(l.rcv, msg, len)), [])
      else if pci == 1 then var (r, out) := OnFirst(c, l.rcv, msg, len, now); (l.(rcv := r), out)
      else if pci == 2 then var (r, out) := OnConsecutive(c, l.rcv, msg, len, now); (l.(rcv := r), out)
      else if pci == 3 then (l.(snd := OnFlowControl(c, l.snd, msg, len, now)), [])
      else (l, [])
  }

  /** isotp_receive: at most `room` bytes of a complete message, which frees the receiver. */
  function Receive(l: Link, room: nat): (r: (Link, seq<byte>))
    requires ValidLink(l)
  {
    if !l.rcv.status.ReceiveFull? then (l, [])
    else (l.(rcv := l.rcv.(status := ReceiveIdle)), l.rcv.buf[..Min(l.rcv.size, room)])
  }

  // ----- every operation keeps the link valid, whatever arrives from the bus

  lemma NextSnOf(k: nat)
    ensures NextSn((1 + k) % 16) == (1 + (k + 1)) % 16
  {
  }

  lemma NextInBlock(k: nat)
    ensures BLOCK_SIZE - (k + 1) % BLOCK_SIZE
            == (if BLOCK_SIZE - k % BLOCK_SIZE == 1 then BLOCK_SIZE else BLOCK_SIZE - k % BLOCK_SIZE - 1)
  {
  }

  lemma AdvanceByFrame(offset: nat, size: nat, len: nat)
    requires 6 <= offset < size && (offset - 6) % 7 == 0 && len == Min(size - offset, 7) && offset + len < size
    ensures len == 7 && (offset + len - 6) % 7 == 0 && (offset + len - 6) / 7 == (offset - 6) / 7 + 1
  {
  }

  lemma SendKeepsValid(c: Clock, l: Link, payload: seq<byte>, now: int, ok: bool)
    requires ValidLink(l)
    ensures ValidLink(SendWithId(c, l, payload, now, ok).0)
  {
  }

  lemma PollKeepsValid(c: Clock, l: Link, now: int, ok: bool)
    requires ValidLink(l)
    ensures ValidLink(Poll(c, l, now, ok).0)
    ensures |Poll(c, l, now, ok).1| <= 1
  {
    var s := l.snd;
    if s.status.SendInProgress? {
      var len := Min(s.size - s.offset, 7);
      NextSnOf((s.offset - 6) / 7);
      if s.offset + len < s.size {
        AdvanceByFrame(s.offset, s.size, len);
      }
    }
  }

  lemma OnConsecutiveKeepsValid(c: Clock, r: Receiver, msg: Frame, len: nat, now: int)
    requires ValidReceiver(r) && |msg| == 8 && 2 <= len <= 8
    ensures ValidReceiver(OnConsecutive(c, r, msg, len, now).0)
  {
    if r.status.ReceiveInProgress? {
      var n := Min(r.size - r.offset, 7);
      NextSnOf((r.offset - 6) / 7);
      NextInBlock((r.offset - 6) / 7);
      if r.offset + n < r.size {
        AdvanceByFrame(r.offset, r.size, n);
      }
    }
  }

  lemma OnSingleKeepsValid(r: Receiver, msg: Frame, len: nat)
    requires ValidReceiver(r) && |msg| == 8 && 2 <= len <= 8
    ensures ValidReceiver(OnSingle(r, msg, len))
  {
  }

  lemma OnFirstKeepsValid(c: Clock, r: Receiver, msg: Frame, len: nat, now: int)
    requires ValidReceiver(r) && |msg| == 8
    ensures ValidReceiver(OnFirst(c, r, msg, len, now).0)
  {
  }

  lemma OnFlowControlKeepsValid(c: Clock, s: Sender, msg: Frame, len: nat, now: int)
    requires ValidSender(s) && |msg| == 8
    ensures ValidSender(OnFlowControl(c, s, msg, len, now))
  {
  }

  /** Any bytes at all may arrive: the link stays valid and answers with at most one frame. */
  lemma OnCanMessageKeepsValid(c: Clock, l: Link, data: Frame, now: int)
    requires ValidLink(l)
    ensures ValidLink(OnCanMessage(c, l, data, now).0)
    ensures |OnCanMessage(c, l, data, now).1| <= 1
  {
    var len := |data|;
    if 2 <= len <= 8 {
      var msg := data + Zeros(8 - len);
      match msg[0] / 16 {
        case 0 => OnSingleKeepsValid(l.rcv, msg, len);
        case 1 => OnFirstKeepsValid(c, l.rcv, msg, len, now);
        case 2 => OnConsecutiveKeepsValid(c, l.rcv, msg, len, now);
        case 3 => OnFlowControlKeepsValid(c, l.snd, msg, len, now);
        case _ =>
      }
    }
  }
}
