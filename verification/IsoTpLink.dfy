/** The IsoTpLink object: the methods that update its fields and buffers in place, each tied to the functions of
    IsoTp. */
module IsoTpLinks {
  import opened Bytes
  import opened Clock
  import opened IsoTp

  datatype ReceiveRet = Accepted | TooLong | WrongNumber | BadLength

  class IsoTpLink {
    const sendBuffer: array<byte>
    var sendSize: nat
    var sendOffset: nat
    var sendSn: nat
    var sendBsRemain: nat
    var sendStMin: nat
    var sendWtfCount: nat
    var sendTimerSt: int
    var sendTimerBs: int
    var sendProtocolResult: ProtocolResult
    var sendStatus: SendStatus

    const receiveBuffer: array<byte>
    var receiveSize: nat
    var receiveOffset: nat
    var receiveSn: nat
    var receiveBsCount: nat
    var receiveTimerCr: int
    var receiveProtocolResult: ProtocolResult
    var receiveStatus: ReceiveStatus

    /** The link as a value. */
    ghost function View(): Link
      reads this, sendBuffer, receiveBuffer
    {
      Link(Sender(sendBuffer[..], sendSize, sendOffset, sendSn, sendBsRemain, sendStMin, sendWtfCount,
                  sendTimerSt, sendTimerBs, sendProtocolResult, sendStatus),
           Receiver(receiveBuffer[..], receiveSize, receiveOffset, receiveSn, receiveBsCount,
                    receiveTimerCr, receiveProtocolResult, receiveStatus))
    }

    ghost predicate Valid()
      reads this, sendBuffer, receiveBuffer
    {
      sendBuffer != receiveBuffer && ValidLink(View())
    }

    /** isotp_init_link. */
    constructor (sendBuf: array<byte>, receiveBuf: array<byte>)
      requires sendBuf != receiveBuf && sendBuf.Length <= 0xFFFF && 7 <= receiveBuf.Length <= 0xFFFF
      ensures sendBuffer == sendBuf && receiveBuffer == receiveBuf && Valid()
      ensures View() == Link(Sender(sendBuf[..], 0, 0, 0, 0, 0, 0, 0, 0, ResultOk, SendIdle),
                             Receiver(receiveBuf[..], 0, 0, 0, 0, 0, ResultOk, ReceiveIdle))
    {
      sendBuffer, receiveBuffer := sendBuf, receiveBuf;
      sendSize, sendOffset, sendSn, sendBsRemain, sendStMin, sendWtfCount := 0, 0, 0, 0, 0, 0;
      sendTimerSt, sendTimerBs, sendProtocolResult, sendStatus := 0, 0, ResultOk, SendIdle;
      receiveSize, receiveOffset, receiveSn, receiveBsCount := 0, 0, 0, 0;
      receiveTimerCr, receiveProtocolResult, receiveStatus := 0, ResultOk, ReceiveIdle;
    }

    // ----- frames out; canOk says whether the CAN driver takes the frame

    method SendFirstFrame(canOk: bool) returns (ret: Ret, frames: seq<Frame>)
      requires Valid() && 7 < sendSize && sendOffset == 0
      modifies this`sendOffset, this`sendSn
      ensures frames == if canOk then [FirstFrame(sendSize, sendBuffer[..6])] else []
      ensures ret == if canOk then RetOk else RetCanError
      ensures View() == if canOk then old(View()).(snd := old(View()).snd.(offset := 6, sn := 1)) else old(View())
    {
      ret, frames := RetCanError, [];
      if canOk {
        ret, frames := RetOk, [FirstFrame(sendSize, sendBuffer[..6])];
        sendOffset := sendOffset + 6;
        sendSn := 1;
      }
    }

    method SendConsecutiveFrame(canOk: bool) returns (ret: Ret, frames: seq<Frame>)
      requires Valid() && sendStatus.SendInProgress?
      modifies this`sendOffset, this`sendSn
      ensures ret == if canOk then RetOk else RetCanError
      ensures var s := old(View()).snd;
              var len := Min(s.size - s.offset, 7);
              && frames == (if canOk then [ConsecutiveFrame(s.sn, s.buf[s.offset..s.offset + len])] else [])
              && View() == if canOk then old(View()).(snd := s.(offset := s.offset + len, sn := NextSn(s.sn)))
                           else old(View())
    {
      var dataLength := sendSize - sendOffset;
      if dataLength > 7 {
        dataLength := 7;
      }
      ret, frames := RetCanError, [];
      if canOk {
        ret, frames := RetOk, [ConsecutiveFrame(sendSn, sendBuffer[sendOffset..sendOffset + dataLength])];
        sendOffset := sendOffset + dataLength;
        sendSn := sendSn + 1;
        if sendSn > 0x0F {
          sendSn := 0;
        }
      }
    }

    /** isotp_send_with_id. */
    method SendWithId(payload: seq<byte>, now: u32, canOk: bool) returns (ret: Ret, frames: seq<Frame>)
      requires Valid()
      modifies this, sendBuffer
      ensures Valid()
      ensures (View(), ret, frames) == IsoTp.SendWithId(Wrapping, old(View()), payload, now, canOk)
    {
      SendKeepsValid(Wrapping, View(), payload, now, canOk);
      if |payload| > sendBuffer.Length {
        return RetOverflow, [];
      }
      if sendStatus.SendInProgress? {
        return RetInProgress, [];
      }
      ret, frames := SendPayload(payload, now, canOk);
    }

    /** The payload goes to the send buffer. */
    method Load(payload: seq<byte>)
      requires Valid() && |payload| <= sendBuffer.Length && !sendStatus.SendInProgress?
      modifies this`sendSize, this`sendOffset, sendBuffer
      ensures Valid() && sendBuffer[..|payload|] == payload
      ensures View() == old(View()).(snd := old(View()).snd.(size := |payload|, offset := 0,
                                                             buf := Write(old(View()).snd.buf, 0, payload)))
    {
      sendSize := |payload|;
      sendOffset := 0;
      CopyInto(sendBuffer, 0, payload);
      assert sendBuffer[..][0..sendSize] == payload;
    }

    method SendPayload(payload: seq<byte>, now: u32, canOk: bool) returns (ret: Ret, frames: seq<Frame>)
      requires Valid() && |payload| <= sendBuffer.Length && !sendStatus.SendInProgress?
      modifies this, sendBuffer
      ensures (View(), ret, frames) == IsoTp.SendWithId(Wrapping, old(View()), payload, now, canOk)
    {
      Load(payload);
      if sendSize < 8 {
        ret := if canOk then RetOk else RetCanError;
        frames := if canOk then [SingleFrame(sendBuffer[..sendSize])] else [];
      } else {
        assert sendBuffer[..6] == payload[..6];
        ret, frames := SendFirstFrame(canOk);
        if ret == RetOk {
          sendBsRemain := 0;
          sendStMin := 0;
          sendWtfCount := 0;
          sendTimerSt := now;
          sendTimerBs := (now + RESPONSE_TIMEOUT) % U32;
          sendProtocolResult := ResultOk;
          sendStatus := SendInProgress;
        }
      }
    }

    /** The next consecutive frame, and what isotp_poll does with the result. */
    method SendNext(now: u32, canOk: bool) returns (frames: seq<Frame>)
      requires Valid() && sendStatus.SendInProgress? && (sendBsRemain == INVALID_BS || sendBsRemain > 0)
      modifies this`sendOffset, this`sendSn, this`sendBsRemain, this`sendTimerBs, this`sendTimerSt, this`sendStatus
      ensures var (s, out) := SendConsecutive(Wrapping, old(View()).snd, now, canOk);
              View() == old(View()).(snd := s) && frames == out
    {
      var ret;
      ret, frames := SendConsecutiveFrame(canOk);
      if ret == RetOk {
        if sendBsRemain != INVALID_BS {
          sendBsRemain := sendBsRemain - 1;
        }
        sendTimerBs := (now + RESPONSE_TIMEOUT) % U32;
        sendTimerSt := (now + sendStMin) % U32;
        if sendOffset >= sendSize {
          sendStatus := SendIdle;
        }
      } else {
        sendStatus := SendError;
      }
    }

    /** The sending half of isotp_poll. */
    method PollSending(now: u32, canOk: bool) returns (frames: seq<Frame>)
      requires Valid()
      modifies this`sendOffset, this`sendSn, this`sendBsRemain, this`sendTimerBs, this`sendTimerSt,
               this`sendProtocolResult, this`sendStatus
      ensures var (s, out) := PollSender(Wrapping, old(View()).snd, now, canOk);
              View() == old(View()).(snd := s) && frames == out
    {
      frames := [];
      if sendStatus.SendInProgress? {
        if (sendBsRemain == INVALID_BS || sendBsRemain > 0) && (sendStMin == 0 || TimeAfter(now, sendTimerSt)) {
          frames := SendNext(now, canOk);
        }
        if TimeAfter(now, sendTimerBs) {
          sendProtocolResult := TimeoutBs;
          sendStatus := SendError;
        }
      }
    }

    /** isotp_poll. */
    method Poll(now: u32, canOk: bool) returns (frames: seq<Frame>)
      requires Valid()
      modifies this
      ensures Valid()
      ensures (View(), frames) == IsoTp.Poll(Wrapping, old(View()), now, canOk)
    {
      PollKeepsValid(Wrapping, View(), now, canOk);
      frames := PollSending(now, canOk);
      if receiveStatus.ReceiveInProgress? {
        if TimeAfter(now, receiveTimerCr) {
          receiveProtocolResult := TimeoutCr;
          receiveStatus := ReceiveIdle;
        }
      }
    }

    // ----- frames in

    method ReceiveSingleFrame(msg: Frame, len: nat) returns (ret: ReceiveRet)
      requires Valid() && |msg| == 8 && 2 <= len <= 8
      modifies this`receiveSize, receiveBuffer
      ensures var dl := msg[0] % 16;
              if dl == 0 || dl > len - 1 then ret == BadLength && View() == old(View())
              else ret == Accepted && View() == old(View()).(rcv := old(View()).rcv.(
                     buf := Write(old(View()).rcv.buf, 0, msg[1..1 + dl]), size := dl))
    {
      var dl: nat := msg[0] % 16;
      if dl == 0 || dl > len - 1 {
        return BadLength;
      }
      CopyInto(receiveBuffer, 0, msg[1..1 + dl]);
      receiveSize := dl;
      return Accepted;
    }

    method ReceiveFirstFrame(msg: Frame, len: nat) returns (ret: ReceiveRet)
      requires Valid() && |msg| == 8
      modifies this`receiveSize, this`receiveOffset, this`receiveSn, receiveBuffer
      ensures var high: nat := msg[0] % 16;
              var size: nat := high * 256 + msg[1];
              if len != 8 || size <= 7 then ret == BadLength && View() == old(View())
              else if size > receiveBuffer.Length then ret == TooLong && View() == old(View())
              else ret == Accepted && View() == old(View()).(rcv := old(View()).rcv.(
                     buf := Write(old(View()).rcv.buf, 0, msg[2..8]), size := size, offset := 6, sn := 1))
    {
      if len != 8 {
        return BadLength;
      }
      var payloadLength: nat := msg[0] % 16;
      payloadLength := payloadLength * 256 + msg[1];
      if payloadLength <= 7 {
        return BadLength;
      }
      if payloadLength > receiveBuffer.Length {
        return TooLong;
      }
      CopyInto(receiveBuffer, 0, msg[2..8]);
      receiveSize := payloadLength;
      receiveOffset := 6;
      receiveSn := 1;
      return Accepted;
    }

    method ReceiveConsecutiveFrame(msg: Frame, len: nat) returns (ret: ReceiveRet)
      requires Valid() && |msg| == 8 && receiveStatus.ReceiveInProgress?
      modifies this`receiveOffset, this`receiveSn, receiveBuffer
      ensures var r := old(View()).rcv;
              var n := Min(r.size - r.offset, 7);
              if r.sn != msg[0] % 16 then ret == WrongNumber && View() == old(View())
              else if n > len - 1 then ret == BadLength && View() == old(View())
              else ret == Accepted && View() == old(View()).(rcv := r.(
                     buf := Write(r.buf, r.offset, msg[1..1 + n]), offset := r.offset + n, sn := NextSn(r.sn)))
    {
      if receiveSn != msg[0] % 16 {
        return WrongNumber;
      }
      var remaining := receiveSize - receiveOffset;
      if remaining > 7 {
        remaining := 7;
      }
      if remaining > len - 1 {
        return BadLength;
      }
      Append(msg[1..1 + remaining]);
      return Accepted;
    }

    /** Accepted bytes go behind the earlier ones. */
    method Append(bytes: seq<byte>)
      requires sendBuffer != receiveBuffer && receiveOffset + |bytes| <= receiveBuffer.Length
      modifies this`receiveOffset, this`receiveSn, receiveBuffer
      ensures var r := old(View()).rcv;
              View() == old(View()).(rcv := r.(
                buf := Write(r.buf, r.offset, bytes), offset := r.offset + |bytes|, sn := NextSn(r.sn)))
    {
      CopyInto(receiveBuffer, receiveOffset, bytes);
      receiveOffset := receiveOffset + |bytes|;
      receiveSn := receiveSn + 1;
      if receiveSn > 0x0F {
        receiveSn := 0;
      }
    }

    method OnSingleFrame(msg: Frame, len: nat)
      requires Valid() && |msg| == 8 && 2 <= len <= 8
      modifies this, receiveBuffer
      ensures View() == old(View()).(rcv := OnSingle(old(View()).rcv, msg, len))
    {
      receiveProtocolResult := if receiveStatus.ReceiveInProgress? then UnexpectedPdu else ResultOk;
      var ret := ReceiveSingleFrame(msg, len);
      if ret == Accepted {
        receiveStatus := ReceiveFull;
      }
    }

    method OnFirstFrame(msg: Frame, len: nat, now: u32) returns (frames: seq<Frame>)
      requires Valid() && |msg| == 8 && 2 <= len <= 8
      modifies this, receiveBuffer
      ensures var (r, out) := OnFirst(Wrapping, old(View()).rcv, msg, len, now);
              View() == old(View()).(rcv := r) && frames == out
    {
      frames := [];
      receiveProtocolResult := if receiveStatus.ReceiveInProgress? then UnexpectedPdu else ResultOk;
      var ret := ReceiveFirstFrame(msg, len);
      if ret == TooLong {
        receiveProtocolResult := BufferOverflow;
        receiveStatus := ReceiveIdle;
        frames := [FlowControl(FS_OVERFLOW, 0, 0)];
      } else if ret == Accepted {
        receiveStatus := ReceiveInProgress;
        receiveBsCount := BLOCK_SIZE;
        frames := [FlowControl(FS_CONTINUE, BLOCK_SIZE, ST_MIN)];
        receiveTimerCr := (now + RESPONSE_TIMEOUT) % U32;
      }
    }

    method OnConsecutiveFrame(msg: Frame, len: nat, now: u32) returns (frames: seq<Frame>)
      requires Valid() && |msg| == 8 && 2 <= len <= 8
      modifies this, receiveBuffer
      ensures var (r, out) := OnConsecutive(Wrapping, old(View()).rcv, msg, len, now);
              View() == old(View()).(rcv := r) && frames == out
    {
      frames := [];
      if !receiveStatus.ReceiveInProgress? {
        receiveProtocolResult := UnexpectedPdu;
        return;
      }
      var ret := ReceiveConsecutiveFrame(msg, len);
      if ret == WrongNumber {
        receiveProtocolResult := WrongSn;
        receiveStatus := ReceiveIdle;
      } else if ret == Accepted {
        receiveTimerCr := (now + RESPONSE_TIMEOUT) % U32;
        if receiveOffset >= receiveSize {
          receiveStatus := ReceiveFull;
        } else {
          receiveBsCount := receiveBsCount - 1;
          if receiveBsCount == 0 {
            receiveBsCount := BLOCK_SIZE;
            frames := [FlowControl(FS_CONTINUE, BLOCK_SIZE, ST_MIN)];
          }
        }
      }
    }

    method OnFlowControlFrame(msg: Frame, len: nat, now: u32)
      requires Valid() && |msg| == 8
      modifies this
      ensures View() == old(View()).(snd := OnFlowControl(Wrapping, old(View()).snd, msg, len, now))
    {
      if !sendStatus.SendInProgress? || len < 3 {
        return;
      }
      sendTimerBs := (now + RESPONSE_TIMEOUT) % U32;
      var fs := msg[0] % 16;
      if fs == FS_OVERFLOW {
        sendProtocolResult := BufferOverflow;
        sendStatus := SendError;
      } else if fs == FS_WAIT {
        sendWtfCount := sendWtfCount + 1;
        if sendWtfCount > MAX_WFT_NUMBER {
          sendProtocolResult := WftOverrun;
          sendStatus := SendError;
        }
      } else if fs == FS_CONTINUE {
        sendBsRemain := if msg[1] == 0 then INVALID_BS else msg[1];
        sendStMin := StMinToMs(msg[2]);
        sendWtfCount := 0;
      }
    }

    /** isotp_on_can_message. */
    method OnCanMessage(data: Frame, now: u32) returns (frames: seq<Frame>)
      requires Valid()
      modifies this, receiveBuffer
      ensures Valid()
      ensures (View(), frames) == IsoTp.OnCanMessage(Wrapping, old(View()), data, now)
    {
      OnCanMessageKeepsValid(Wrapping, View(), data, now);
      frames := [];
      var len := |data|;
      if len < 2 || len > 8 {
        return;
      }
      var msg := data + Zeros(8 - len);
      match msg[0] / 16 {
        case 0 => OnSingleFrame(msg, len);
        case 1 => frames := OnFirstFrame(msg, len, now);
        case 2 => frames := OnConsecutiveFrame(msg, len, now);
        case 3 => OnFlowControlFrame(msg, len, now);
        case _ =>
      }
    }

    /** isotp_receive, for a destination of `room` bytes. */
    method Receive(room: nat) returns (payload: seq<byte>)
      requires Valid()
      modifies this`receiveStatus
      ensures Valid()
      ensures (View(), payload) == IsoTp.Receive(old(View()), room)
    {
      if !receiveStatus.ReceiveFull? {
        return [];
      }
      var copyLen := receiveSize;
      if copyLen > room {
        copyLen := room;
      }
      payload := receiveBuffer[..copyLen];
      receiveStatus := ReceiveIdle;
    }
  }
}
