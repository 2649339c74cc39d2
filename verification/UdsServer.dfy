/** The UDSServer_t object: services, evaluation and poll loop update its fields and its send buffer in place; each
    method is tied to the function of Uds of the same name. */
module UdsServers {
  import opened Prelude
  import opened Bytes
  import opened Clock
  import BigEndian
  import opened Uds

  class UdsServer {
    const p2Ms: nat
    const p2StarMs: nat

    var xferIsActive: bool
    var xferBlockSequenceCounter: byte
    var xferTotalBytes: nat
    var xferByteCounter: nat
    var xferBlockLength: nat

    var securityLevel: byte
    var secAccessAuthFailTimer: int
    var secAccessBootDelayTimer: int

    var rcrrp: bool
    var requestInProgress: bool
    var notReadyToReceive: bool
    var p2Timer: int

    var request: Request
    const sendBuf: array<byte>
    var sendLen: nat

    // ----- the object as a value

    ghost function Transfer(): Xfer
      reads this
    {
      Xfer(xferIsActive, xferBlockSequenceCounter, xferTotalBytes, xferByteCounter, xferBlockLength)
    }

    ghost function Access(): Security
      reads this
    {
      Security(securityLevel, secAccessAuthFailTimer, secAccessBootDelayTimer)
    }

    ghost function Response(): seq<byte>
      reads this, sendBuf
    {
      if sendLen <= sendBuf.Length then sendBuf[..sendLen] else []
    }

    ghost function View(): Server
      reads this, sendBuf
    {
      Server(p2Ms, p2StarMs, Transfer(), Access(), rcrrp, requestInProgress, notReadyToReceive, p2Timer,
             request, Response())
    }

    /** What a handler leaves behind. */
    ghost function Left(code: byte, asked: bool): Handled
      reads this, sendBuf
    {
      Handled(Transfer(), Access(), code, Response(), asked)
    }

    ghost predicate Valid()
      reads this, sendBuf
    {
      sendBuf.Length == MTU && sendLen <= MTU && ValidServer(View())
    }

    /** UDSServerInit, at time `now`. */
    constructor (p2: nat, p2Star: nat, now: u32, buffer: array<byte>)
      requires buffer.Length == MTU
      ensures Valid() && fresh(this) && sendBuf == buffer
      ensures View() == Server(p2, p2Star, Xfer(false, 0, 0, 0, 0), Security(0, now, (now + BOOT_DELAY) % U32),
                               false, false, false, (now + p2) % U32, Request([], 0, false), [])
    {
      p2Ms, p2StarMs, sendBuf, sendLen := p2, p2Star, buffer, 0;
      xferIsActive, xferBlockSequenceCounter, xferTotalBytes, xferByteCounter, xferBlockLength := false, 0, 0, 0, 0;
      securityLevel, secAccessAuthFailTimer, secAccessBootDelayTimer := 0, now, (now + BOOT_DELAY) % U32;
      rcrrp, requestInProgress, notReadyToReceive, p2Timer := false, false, false, (now + p2) % U32;
      request := Request([], 0, false);
    }

    // ----- responses

    method NegativeResponse(code: byte)
      requires Valid() && ValidRequest(request)
      modifies sendBuf, this`sendLen
      ensures Valid() && Response() == Negative(request.buf[0], code)
    {
      sendBuf[0] := 0x7F;
      sendBuf[1] := request.buf[0];
      sendBuf[2] := code;
      sendLen := 3;
    }

    /** safe_copy. */
    method SafeCopy(src: seq<byte>) returns (code: byte)
      requires Valid()
      modifies sendBuf, this`sendLen
      ensures Valid() && Response() == Uds.SafeCopy(old(Response()), src)
      ensures code == if |src| <= MTU - |old(Response())| then POSITIVE else RESPONSE_TOO_LONG
    {
      if |src| <= sendBuf.Length - sendLen {
        ghost var was := sendBuf[..];
        CopyInto(sendBuf, sendLen, src);
        WriteExtendsPrefix(was, sendLen, src, was[..sendLen]);
        sendLen := sendLen + |src|;
        return POSITIVE;
      }
      return RESPONSE_TOO_LONG;
    }

    /** A positive response of one parameter byte and what the user function copied behind it. */
    method PositiveResponse(parameter: byte, data: seq<byte>)
      requires Valid() && ValidRequest(request)
      modifies sendBuf, this`sendLen
      ensures Valid() && Response() == Uds.SafeCopy([ResponseSid(request.buf[0]), parameter], data)
    {
      sendBuf[0] := ResponseSid(request.buf[0]);
      sendBuf[1] := parameter;
      sendLen := 2;
      assert Response() == [ResponseSid(request.buf[0]), parameter];
      var _ := SafeCopy(data);
    }

    /** A two-byte block length behind the first `at` bytes of the response, most significant byte first. */
    method PutBlockLength(at: nat, value: nat)
      requires Valid() && at + 2 <= MTU
      modifies sendBuf, this`sendLen
      ensures Valid() && Response() == old(sendBuf[..])[..at] + BigEndian.Encode(value, 2)
    {
      ghost var was := sendBuf[..];
      var rest := value;
      var idx := 2;
      while idx > 0
        invariant 0 <= idx <= 2
        invariant sendBuf[..at] == was[..at]
        invariant rest == (if idx == 2 then value else if idx == 1 then value / 256 else value / 256 / 256)
        invariant idx <= 1 ==> sendBuf[at + 1] == value % 256
        invariant idx == 0 ==> sendBuf[at] == value / 256 % 256
      {
        idx := idx - 1;
        sendBuf[at + idx] := rest % 256;
        rest := rest / 256;
      }
      sendLen := at + 2;
      assert BigEndian.Encode(value / 256, 1) == BigEndian.Encode(value / 256 / 256, 0) + [value / 256 % 256];
    }

    // ----- requests for a transfer

    method ResetTransfer()
      requires Valid()
      modifies this`xferIsActive, this`xferBlockSequenceCounter, this`xferTotalBytes, this`xferByteCounter
      ensures Valid() && Transfer() == Uds.ResetTransfer(old(Transfer()))
    {
      xferBlockSequenceCounter := 1;
      xferByteCounter := 0;
      xferTotalBytes := 0;
      xferIsActive := false;
    }

    method StartTransfer(total: nat, blockLength: nat)
      requires Valid()
      modifies this`xferIsActive, this`xferBlockSequenceCounter, this`xferTotalBytes, this`xferByteCounter,
               this`xferBlockLength
      ensures Valid() && Transfer() == Started(old(Transfer()), total, blockLength)
    {
      ResetTransfer();
      xferIsActive := true;
      xferTotalBytes := total;
      xferBlockLength := blockLength;
    }

    /** A big-endian number of `width` bytes at index `at` of the receive buffer. */
    method ReadNumber(at: nat, width: nat) returns (value: nat)
      ensures value == BigEndian.Decode(Window(request, at, width))
    {
      value := 0;
      ghost var all := Window(request, at, width);
      for k := 0 to width
        invariant value == BigEndian.Decode(all[..k])
      {
        value := value * 256 + At(request, at + k);
        assert all[..k + 1][..k] == all[..k];
      }
      assert all[..width] == all;
    }

    /** decodeAddressAndLength. */
    method DecodeAddressAndLength(at: nat) returns (d: Decoded)
      requires ValidRequest(request) && at <= 2
      ensures d == Uds.DecodeAddressAndLength(request, at)
    {
      if request.len < 3 {
        return Bad(INCORRECT_LENGTH);
      }
      var sizeLen := request.buf[at] / 16;
      var addressLen := request.buf[at] % 16;
      if sizeLen == 0 || sizeLen > 8 {
        return Bad(REQUEST_OUT_OF_RANGE);
      }
      if addressLen == 0 || addressLen > 8 {
        return Bad(REQUEST_OUT_OF_RANGE);
      }
      if at + sizeLen + addressLen > request.len {
        return Bad(INCORRECT_LENGTH);
      }
      var address := ReadNumber(at + 1, addressLen);
      var size := ReadNumber(at + 1 + addressLen, sizeLen);
      return Good(address, size);
    }

    /** RequestDownload and RequestUpload. */
    method RequestLoad(a: Answer) returns (code: byte, asked: bool)
      requires Valid() && ValidRequest(request)
      modifies this`xferIsActive, this`xferBlockSequenceCounter, this`xferTotalBytes, this`xferByteCounter,
               this`xferBlockLength, this`sendLen, sendBuf
      ensures Valid()
      ensures Left(code, asked) == Uds.RequestLoad(request.buf[0], old(Transfer()), old(Access()), request, a)
    {
      var sid := request.buf[0];
      code, asked := POSITIVE, false;
      if xferIsActive {
        code := CONDITIONS_NOT_CORRECT;
      } else if request.len < 3 {
        code := INCORRECT_LENGTH;
      } else {
        var d := DecodeAddressAndLength(2);
        if d.Bad? {
          code := d.code;
        } else {
          asked := true;
          if a.blockLength < 3 {
            code := GENERAL_PROGRAMMING_FAILURE;
          } else if a.code != POSITIVE {
            code := a.code;
          } else {
            StartTransfer(d.size, a.blockLength);
            var announced := a.blockLength;
            if sid == SID_REQUEST_DOWNLOAD && announced > MTU {
              announced := MTU;
            }
            sendBuf[0] := ResponseSid(sid);
            sendBuf[1] := 0x20;
            assert sendBuf[..][..2] == [ResponseSid(sid), 0x20];
            PutBlockLength(2, announced);
            return;
          }
        }
      }
      NegativeResponse(code);
    }

    /** The fields of a RequestFileTransfer request. */
    method ParseFileRequest() returns (f: FileRequest)
      requires ValidRequest(request)
      ensures f == Uds.ParseFileRequest(request)
    {
      var mode := request.buf[1];
      var pathLen: nat := request.buf[2];
      pathLen := pathLen * 256 + request.buf[3];
      var format: byte := 0;
      if mode == ADD_FILE || mode == REPLACE_FILE || mode == READ_FILE {
        format := At(request, 4 + pathLen);
      }
      var uncompressed: nat, compressed: nat := 0, 0;
      if mode == ADD_FILE || mode == REPLACE_FILE {
        var width := At(request, 5 + pathLen);
        if width > 8 {
          return BadWidth;
        }
        uncompressed := ReadNumber(6 + pathLen, width);
        compressed := ReadNumber(6 + pathLen + width, width);
      }
      return FileRequest(mode, Window(request, 4, pathLen), format, uncompressed, compressed);
    }

    /** RequestFileTransfer. */
    method RequestFileTransfer(a: Answer) returns (code: byte, asked: bool)
      requires Valid() && ValidRequest(request) && request.buf[0] == SID_REQUEST_FILE_TRANSFER
      modifies this`xferIsActive, this`xferBlockSequenceCounter, this`xferTotalBytes, this`xferByteCounter,
               this`xferBlockLength, this`sendLen, sendBuf
      ensures Valid() && Left(code, asked) == Uds.RequestFileTransfer(old(Transfer()), old(Access()), request, a)
    {
      asked := false;
      if xferIsActive {
        code := CONDITIONS_NOT_CORRECT;
        NegativeResponse(code);
        return;
      }
      if request.len < 4 {
        code := INCORRECT_LENGTH;
        NegativeResponse(code);
        return;
      }
      var f := ParseFileRequest();
      if f.BadWidth? {
        code := REQUEST_OUT_OF_RANGE;
        NegativeResponse(code);
        return;
      }
      asked, code := true, a.code;
      if a.code != POSITIVE {
        NegativeResponse(code);
        return;
      }
      StartTransfer(f.compressed, a.blockLength);
      FileTransferResponse(f.mode, if a.blockLength > MTU then MTU else a.blockLength, f.format);
    }

    method FileTransferResponse(mode: byte, blockLength: nat, format: byte)
      requires Valid()
      modifies this`sendLen, sendBuf
      ensures Valid()
      ensures Response() ==
        [ResponseSid(SID_REQUEST_FILE_TRANSFER), mode, 2] + BigEndian.Encode(blockLength, 2) + [format]
    {
      sendBuf[0] := ResponseSid(SID_REQUEST_FILE_TRANSFER);
      sendBuf[1] := mode;
      sendBuf[2] := 2;
      assert sendBuf[..][..3] == [ResponseSid(SID_REQUEST_FILE_TRANSFER), mode, 2];
      PutBlockLength(3, blockLength);
      ghost var head := Response();
      sendBuf[5] := format;
      sendLen := 6;
      assert Response() == head + [format];
    }

    // ----- the transfer itself

    /** TransferData; the two exits of its failure path are one method. */
    method TransferFails(why: byte)
      requires Valid() && ValidRequest(request)
      modifies this`xferIsActive, this`xferBlockSequenceCounter, this`xferTotalBytes, this`xferByteCounter,
               this`sendLen, sendBuf
      ensures Valid() && Transfer() == Uds.ResetTransfer(old(Transfer())) && Response() == Negative(request.buf[0], why)
    {
      ResetTransfer();
      NegativeResponse(why);
    }

    method TransferData(a: Answer) returns (code: byte, asked: bool)
      requires Valid() && ValidRequest(request) && request.buf[0] == SID_TRANSFER_DATA
      modifies this`xferIsActive, this`xferBlockSequenceCounter, this`xferTotalBytes, this`xferByteCounter,
               this`sendLen, sendBuf
      ensures Valid() && Left(code, asked) == Uds.TransferData(old(Transfer()), old(Access()), rcrrp, request, a)
    {
      asked := false;
      if !xferIsActive {
        code := UPLOAD_DOWNLOAD_NOT_ACCEPTED;
        NegativeResponse(code);
        return;
      }
      if request.len < 2 {
        code := INCORRECT_LENGTH;
        TransferFails(code);
        return;
      }
      var blockSequenceCounter := request.buf[1];
      if !rcrrp {
        if blockSequenceCounter != xferBlockSequenceCounter {
          code := REQUEST_SEQUENCE_ERROR;
          TransferFails(code);
          return;
        } else {
          xferBlockSequenceCounter := (xferBlockSequenceCounter + 1) % 256;
        }
      }
      if xferByteCounter + (request.len - 2) > xferTotalBytes {
        code := TRANSFER_DATA_SUSPENDED;
        TransferFails(code);
        return;
      }
      PositiveResponse(blockSequenceCounter, a.data);
      asked, code := true, a.code;
      if a.code == POSITIVE {
        xferByteCounter := xferByteCounter + (request.len - 2);
      } else if a.code == RESPONSE_PENDING {
        NegativeResponse(code);
      } else {
        TransferFails(code);
      }
    }

    method RequestTransferExit(a: Answer) returns (code: byte, asked: bool)
      requires Valid() && ValidRequest(request) && request.buf[0] == SID_REQUEST_TRANSFER_EXIT
      modifies this`xferIsActive, this`xferBlockSequenceCounter, this`xferTotalBytes, this`xferByteCounter,
               this`sendLen, sendBuf
      ensures Valid() && Left(code, asked) == Uds.RequestTransferExit(old(Transfer()), old(Access()), request, a)
    {
      if !xferIsActive {
        code, asked := UPLOAD_DOWNLOAD_NOT_ACCEPTED, false;
        NegativeResponse(code);
        return;
      }
      sendBuf[0] := ResponseSid(SID_REQUEST_TRANSFER_EXIT);
      sendLen := 1;
      assert Response() == [ResponseSid(SID_REQUEST_TRANSFER_EXIT)];
      var _ := SafeCopy(a.data);
      code, asked := a.code, true;
      if a.code == POSITIVE {
        ResetTransfer();
      } else if a.code == RESPONSE_PENDING {
        NegativeResponse(code);
      } else {
        TransferFails(code);
      }
    }

    // ----- security access

    method SecurityAccess(now: u32, a: Answer) returns (code: byte, asked: bool)
      requires Valid() && ValidRequest(request) && request.buf[0] == SID_SECURITY_ACCESS
      modifies this`securityLevel, this`secAccessAuthFailTimer, this`sendLen, sendBuf
      ensures Valid()
      ensures Left(code, asked) == Uds.SecurityAccess(Wrapping, old(Transfer()), old(Access()), request, now, a)
    {
      var subFunction := request.buf[1];
      asked := false;
      if LevelIsReserved(subFunction) {
        code := INCORRECT_LENGTH;
        NegativeResponse(code);
        return;
      }
      if !TimeAfter(now, secAccessBootDelayTimer) {
        code := REQUIRED_TIME_DELAY_NOT_EXPIRED;
        NegativeResponse(code);
        return;
      }
      if !TimeAfter(now, secAccessAuthFailTimer) {
        code := EXCEED_NUMBER_OF_ATTEMPTS;
        NegativeResponse(code);
        return;
      }
      sendBuf[0] := ResponseSid(SID_SECURITY_ACCESS);
      sendBuf[1] := subFunction;
      sendLen := 2;
      assert Response() == [ResponseSid(SID_SECURITY_ACCESS), subFunction];
      code := POSITIVE;
      if subFunction % 2 == 0 {
        asked := true;
        if a.code != POSITIVE {
          secAccessAuthFailTimer := (now + AUTH_FAIL_DELAY) % U32;
          code := a.code;
          NegativeResponse(code);
          return;
        }
        securityLevel := subFunction - 1;
      } else if subFunction == securityLevel {
        code := SafeCopy([0, 0]);
      } else {
        asked := true;
        var _ := SafeCopy(a.data);
        if a.code != POSITIVE {
          code := a.code;
          NegativeResponse(code);
        } else if sendLen <= 2 {
          code := GENERAL_PROGRAMMING_FAILURE;
          NegativeResponse(code);
        }
      }
    }

    // ----- evaluation and poll

    /** What a service without a state of its own leaves behind. */
    ghost function Said(code: byte, asked: bool): Reply
      reads this, sendBuf
    {
      Reply(code, Response(), asked)
    }

    /** The first bytes of a positive response. */
    method Begin(bytes: seq<byte>)
      requires Valid() && |bytes| <= MTU
      modifies sendBuf, this`sendLen
      ensures Valid() && Response() == bytes
    {
      CopyInto(sendBuf, 0, bytes);
      sendLen := |bytes|;
      assert sendBuf[..][0..|bytes|] == bytes;
    }

    method DiagnosticSessionControl(a: Answer) returns (code: byte, asked: bool)
      requires Valid() && ValidRequest(request)
      modifies this`sendLen, sendBuf
      ensures Valid() && Said(code, asked) == Uds.DiagnosticSessionControl(request, a)
    {
      code, asked := if request.len < 2 then INCORRECT_LENGTH else a.code, request.len >= 2;
      if code != POSITIVE {
        NegativeResponse(code);
        return;
      }
      var sessionType: byte := request.buf[1] / 64 % 2 * 64 + request.buf[1] % 16;
      Begin([ResponseSid(request.buf[0]), sessionType] + Bytes16(a.p2) + Bytes16(a.p2Star / 10));
    }

    method EcuReset(a: Answer) returns (code: byte, asked: bool)
      requires Valid() && ValidRequest(request)
      modifies this`sendLen, sendBuf
      ensures Valid() && Said(code, asked) == Uds.EcuReset(request, a)
    {
      var resetType: byte := request.buf[1] % 64;
      code, asked := if request.len < 2 then INCORRECT_LENGTH else a.code, request.len >= 2;
      if code != POSITIVE {
        NegativeResponse(code);
        return;
      }
      if resetType == RAPID_POWER_SHUT_DOWN {
        var powerDownTime := a.powerDown / 1000;
        if powerDownTime > 255 {
          powerDownTime := 255;
        }
        Begin([ResponseSid(request.buf[0]), resetType, powerDownTime]);
      } else {
        Begin([ResponseSid(request.buf[0]), resetType]);
      }
    }

    /** One identifier: its two bytes and what the user function copies behind them. */
    method ReadIdentifier(did: nat, reading: Reading) returns (code: byte)
      requires Valid() && sendLen + 3 <= MTU && did < 65536
      modifies this`sendLen, sendBuf
      ensures Valid()
      ensures var headed := old(Response()) + Bytes16(did);
              && Response() == Uds.SafeCopy(headed, reading.data)
              && code == if reading.Unchecked? then reading.code
                         else if |reading.data| > MTU - |headed| then RESPONSE_TOO_LONG else POSITIVE
    {
      var _ := SafeCopy(Bytes16(did));
      code := SafeCopy(reading.data);
      if reading.Unchecked? {
        code := reading.code;
      }
    }

    /** ReadDataByIdentifier. */
    method ReadDataByIdentifier(a: Answer) returns (code: byte, asked: bool)
      requires Valid() && ValidRequest(request)
      modifies this`sendLen, sendBuf
      ensures Valid() && Said(code, asked) == Uds.ReadDataByIdentifier(request, a)
    {
      var numDIDs := request.len / 2 % 256;
      if (request.len - 1) % 2 != 0 || numDIDs == 0 {
        code, asked := INCORRECT_LENGTH, false;
        NegativeResponse(code);
        return;
      }
      Begin([ResponseSid(request.buf[0])]);
      code, asked := POSITIVE, true;
      for did := 0 to numDIDs
        invariant Valid() && code == POSITIVE
        invariant ReadWalk(request, did, numDIDs, a.readings, Response()) == Uds.ReadDataByIdentifier(request, a)
      {
        if sendLen + 3 > MTU {
          code := RESPONSE_TOO_LONG;
          NegativeResponse(code);
          return;
        }
        code := ReadIdentifier(IdOf(request, did), ReadingAt(a.readings, did));
        if code != POSITIVE {
          NegativeResponse(code);
          return;
        }
      }
    }

    /** ReadMemoryByAddress; its last failure leaves the response in the buffer. */
    method ReadMemoryByAddress(a: Answer) returns (code: byte, asked: bool)
      requires Valid() && ValidRequest(request)
      modifies this`sendLen, sendBuf
      ensures Valid() && Said(code, asked) == Uds.ReadMemoryByAddress(request, a)
    {
      asked := false;
      if request.len < 4 {
        code := INCORRECT_LENGTH;
        NegativeResponse(code);
        return;
      }
      var d := DecodeAddressAndLength(1);
      if d.Bad? {
        code := d.code;
        NegativeResponse(code);
        return;
      }
      Begin([ResponseSid(request.buf[0])]);
      var _ := SafeCopy(a.data);
      code, asked := a.code, true;
      if a.code != POSITIVE {
        NegativeResponse(code);
      } else if sendLen != 1 + d.size {
        code := GENERAL_PROGRAMMING_FAILURE;
      }
    }

    method CommunicationControl(a: Answer) returns (code: byte, asked: bool)
      requires Valid() && ValidRequest(request)
      modifies this`sendLen, sendBuf
      ensures Valid() && Said(code, asked) == Uds.CommunicationControl(request, a)
    {
      code, asked := if request.len < 3 then INCORRECT_LENGTH else a.code, request.len >= 3;
      if code != POSITIVE {
        NegativeResponse(code);
        return;
      }
      Begin([ResponseSid(request.buf[0]), request.buf[1] % 128]);
    }

    method WriteDataByIdentifier(a: Answer) returns (code: byte, asked: bool)
      requires Valid() && ValidRequest(request)
      modifies this`sendLen, sendBuf
      ensures Valid() && Said(code, asked) == Uds.WriteDataByIdentifier(request, a)
    {
      code, asked := if request.len < 4 then INCORRECT_LENGTH else a.code, request.len >= 4;
      if code != POSITIVE {
        NegativeResponse(code);
        return;
      }
      Begin([ResponseSid(request.buf[0]), request.buf[1], request.buf[2]]);
    }

    method RoutineControl(a: Answer) returns (code: byte, asked: bool)
      requires Valid() && ValidRequest(request)
      modifies this`sendLen, sendBuf
      ensures Valid() && Said(code, asked) == Uds.RoutineControl(request, a)
    {
      asked := false;
      if request.len < 4 {
        code := INCORRECT_LENGTH;
        NegativeResponse(code);
        return;
      }
      var routineControlType: byte := request.buf[1] % 128;
      if routineControlType < 1 || routineControlType > 3 {
        code := REQUEST_OUT_OF_RANGE;
        NegativeResponse(code);
        return;
      }
      Begin([ResponseSid(request.buf[0]), routineControlType, request.buf[2], request.buf[3]]);
      var _ := SafeCopy(a.data);
      code, asked := a.code, true;
      if code != POSITIVE {
        NegativeResponse(code);
      }
    }

    method TesterPresent() returns (code: byte, asked: bool)
      requires Valid() && ValidRequest(request)
      modifies this`sendLen, sendBuf
      ensures Valid() && Said(code, asked) == Uds.TesterPresent(request)
    {
      asked := false;
      if request.len != 2 {
        code := INCORRECT_LENGTH;
      } else if request.buf[1] == 0 || request.buf[1] == 0x80 {
        code := POSITIVE;
        Begin([ResponseSid(request.buf[0]), 0]);
        return;
      } else {
        code := SUB_FUNCTION_NOT_SUPPORTED;
      }
      NegativeResponse(code);
    }

    method ControlDtcSetting() returns (code: byte, asked: bool)
      requires Valid() && ValidRequest(request)
      modifies this`sendLen, sendBuf
      ensures Valid() && Said(code, asked) == Uds.ControlDtcSetting(request)
    {
      asked := false;
      if request.len < 2 {
        code := INCORRECT_LENGTH;
        NegativeResponse(code);
        return;
      }
      code := POSITIVE;
      Begin([ResponseSid(request.buf[0]), request.buf[1] % 64]);
    }

    /** The part of the handler table for services that leave transfers and security as they are. */
    method OtherService(a: Answer) returns (code: byte, asked: bool)
      requires Valid() && ValidRequest(request)
      modifies this`sendLen, sendBuf
      ensures Valid() && Said(code, asked) == Uds.OtherService(request, a)
    {
      match request.buf[0]
      case 0x10 => code, asked := DiagnosticSessionControl(a);
      case 0x11 => code, asked := EcuReset(a);
      case 0x22 => code, asked := ReadDataByIdentifier(a);
      case 0x23 => code, asked := ReadMemoryByAddress(a);
      case 0x28 => code, asked := CommunicationControl(a);
      case 0x2E => code, asked := WriteDataByIdentifier(a);
      case 0x31 => code, asked := RoutineControl(a);
      case 0x3E => code, asked := TesterPresent();
      case 0x85 => code, asked := ControlDtcSetting();
      case _ =>
        code, asked := SERVICE_NOT_SUPPORTED, false;
        NegativeResponse(code);
    }

    /** The handler table. */
    method Service(now: u32, a: Answer) returns (code: byte, asked: bool)
      requires Valid() && ValidRequest(request)
      modifies this`xferIsActive, this`xferBlockSequenceCounter, this`xferTotalBytes, this`xferByteCounter,
               this`xferBlockLength, this`securityLevel, this`secAccessAuthFailTimer, this`sendLen, sendBuf
      ensures Valid()
      ensures Left(code, asked) == Uds.Service(Wrapping, old(Transfer()), old(Access()), rcrrp, request, now, a)
    {
      var sid := request.buf[0];
      if sid == SID_SECURITY_ACCESS {
        code, asked := SecurityAccess(now, a);
      } else if sid == SID_REQUEST_DOWNLOAD || sid == SID_REQUEST_UPLOAD {
        code, asked := RequestLoad(a);
      } else if sid == SID_TRANSFER_DATA {
        code, asked := TransferData(a);
      } else if sid == SID_REQUEST_TRANSFER_EXIT {
        code, asked := RequestTransferExit(a);
      } else if sid == SID_REQUEST_FILE_TRANSFER {
        code, asked := RequestFileTransfer(a);
      } else {
        code, asked := OtherService(a);
      }
    }

    /** evaluateServiceResponse, up to its effect on a server that is about to reset. */
    method Evaluate(now: u32, a: Answer) returns (code: byte, asked: bool)
      requires Valid() && ValidRequest(request)
      modifies this`xferIsActive, this`xferBlockSequenceCounter, this`xferTotalBytes, this`xferByteCounter,
               this`xferBlockLength, this`securityLevel, this`secAccessAuthFailTimer, this`sendLen, sendBuf
      ensures Valid()
      ensures Left(code, asked) == Uds.Evaluate(Wrapping, old(Transfer()), old(Access()), rcrrp, request, now, a)
    {
      var sid := request.buf[0];
      if !HasHandler(sid) {
        code, asked := SERVICE_NOT_SUPPORTED, false;
        NegativeResponse(code);
        return;
      }
      code, asked := Service(now, a);
      var suppressResponse := HasSubFunction(sid) && request.buf[1] >= 0x80 && code == POSITIVE;
      if (request.functional && SilentIfFunctional(code)) || suppressResponse {
        sendLen := 0;
      }
    }

    /** evaluateServiceResponse; a positive ECU reset makes the server deaf. */
    method EvaluateServiceResponse(now: u32, a: Answer) returns (code: byte, events: seq<Event>)
      requires Valid() && ValidRequest(request)
      modifies this`xferIsActive, this`xferBlockSequenceCounter, this`xferTotalBytes, this`xferByteCounter,
               this`xferBlockLength, this`securityLevel, this`secAccessAuthFailTimer, this`notReadyToReceive,
               this`sendLen, sendBuf
      ensures Valid()
      ensures (View(), code, events) == Uds.Evaluated(Wrapping, old(View()), request, Env(now, None, a))
    {
      var asked;
      code, asked := Evaluate(now, a);
      if request.buf[0] == 0x11 && code == POSITIVE {
        notReadyToReceive := true;
      }
      events := [];
      if asked && request.buf[0] == SID_SECURITY_ACCESS {
        events := [SecurityAsked(now, request.buf[1] % 2 == 0, a.code != POSITIVE)];
      }
    }

    /** UDSServerPoll. */
    method Poll(e: Env) returns (events: seq<Event>)
      requires Valid() && ValidEnv(e) && 0 <= e.now < U32
      modifies this, sendBuf
      ensures Valid()
      ensures (View(), events) == Uds.Poll(Wrapping, old(View()), e)
    {
      events := [];
      if requestInProgress {
        events := PollInProgress(e.now, e.answer);
      } else {
        if notReadyToReceive {
          return;
        }
        if e.arrival.Some? {
          events := TakeUp(e.arrival.value, e.now, e.answer);
        }
      }
    }

    /** A request that arrives is evaluated for the first time. */
    method TakeUp(q: Request, now: u32, a: Answer) returns (events: seq<Event>)
      requires Valid() && ValidRequest(q) && !requestInProgress && !notReadyToReceive
      modifies this, sendBuf
      ensures Valid()
      ensures (View(), events) == Uds.Poll(Wrapping, old(View()), Env(now, Some(q), a))
    {
      request := q;
      var code, asked := EvaluateServiceResponse(now, a);
      requestInProgress := true;
      if code == RESPONSE_PENDING {
        rcrrp := true;
      }
      events := [Accepted(q)] + asked;
    }

    method PollInProgress(now: u32, a: Answer) returns (events: seq<Event>)
      requires Valid() && requestInProgress
      modifies this, sendBuf
      ensures Valid()
      ensures (View(), events) == Uds.Poll(Wrapping, old(View()), Env(now, None, a))
    {
      events := Reevaluate(now, a);
      var sent := SendResponse(now);
      events := events + sent;
    }

    /** A request whose answer is pending is evaluated again. */
    method Reevaluate(now: u32, a: Answer) returns (events: seq<Event>)
      requires Valid() && requestInProgress
      modifies this, sendBuf
      ensures Valid()
      ensures (View(), events) == Uds.Reevaluate(Wrapping, old(View()), Env(now, None, a))
    {
      events := [];
      if rcrrp {
        var code;
        code, events := EvaluateServiceResponse(now, a);
        if code == RESPONSE_PENDING {
          notReadyToReceive := true;
        } else {
          rcrrp := false;
          notReadyToReceive := false;
          p2Timer := (now + p2Ms) % U32;
        }
      }
    }

    /** The response leaves when the P2 timer allows it. */
    method SendResponse(now: u32) returns (events: seq<Event>)
      requires Valid()
      modifies this`p2Timer, this`requestInProgress
      ensures Valid()
      ensures (View(), events) == Uds.SendResponse(Wrapping, old(View()), now)
    {
      events := [];
      if TimeAfter(now, p2Timer) {
        var response := sendBuf[..sendLen];
        if rcrrp {
          var waitTime := p2StarMs * 3 / 10;
          p2Timer := (now + waitTime) % U32;
          events := [Sent(response, now)];
        } else {
          p2Timer := (now + p2Ms) % U32;
          requestInProgress := false;
          events := [Sent(response, now), Acked];
        }
      }
    }
  }
}
