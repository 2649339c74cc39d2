/** The UDS server as functions on values: the transfer and security services, the evaluation of a request and the
    poll loop. */
module Uds {
  import opened Prelude
  import opened Bytes
  import opened Clock
  import opened BigEndian

  /** The sizes of transport buffers: from the 4095 bytes of the header's default to the most that a 16-bit block length
      announces, which the Makefile chooses. */
  type Size = n: int | 4095 <= n <= 65535 witness 4095

  /** The size of the transport's buffers and the largest message, UDS_TP_MTU, whatever the build sets it to. */
  const MTU: Size

  // ----- service identifiers and response codes

  const SID_SECURITY_ACCESS: byte := 0x27
  const SID_REQUEST_DOWNLOAD: byte := 0x34
  const SID_REQUEST_UPLOAD: byte := 0x35
  const SID_TRANSFER_DATA: byte := 0x36
  const SID_REQUEST_TRANSFER_EXIT: byte := 0x37
  const SID_REQUEST_FILE_TRANSFER: byte := 0x38

  const POSITIVE: byte := 0
  const GENERAL_REJECT: byte := 0x10
  const SERVICE_NOT_SUPPORTED: byte := 0x11
  const SUB_FUNCTION_NOT_SUPPORTED: byte := 0x12
  const INCORRECT_LENGTH: byte := 0x13
  const RESPONSE_TOO_LONG: byte := 0x14
  const CONDITIONS_NOT_CORRECT: byte := 0x22
  const REQUEST_SEQUENCE_ERROR: byte := 0x24
  const REQUEST_OUT_OF_RANGE: byte := 0x31
  const EXCEED_NUMBER_OF_ATTEMPTS: byte := 0x36
  const REQUIRED_TIME_DELAY_NOT_EXPIRED: byte := 0x37
  const UPLOAD_DOWNLOAD_NOT_ACCEPTED: byte := 0x70
  const TRANSFER_DATA_SUSPENDED: byte := 0x71
  const GENERAL_PROGRAMMING_FAILURE: byte := 0x72
  const RESPONSE_PENDING: byte := 0x78
  const SUB_FUNCTION_NOT_IN_SESSION: byte := 0x7E
  const SERVICE_NOT_IN_SESSION: byte := 0x7F

  const ADD_FILE: byte := 1
  const REPLACE_FILE: byte := 3
  const READ_FILE: byte := 4

  const AUTH_FAIL_DELAY := 1000
  const BOOT_DELAY := 1000

  // ----- requests, answers, state

  /** A request as the transport shows it: the first `len` bytes of its receive buffer. */
  datatype Request = Request(buf: seq<byte>, len: nat, functional: bool)

  ghost predicate ValidRequest(q: Request) {
    |q.buf| == MTU && 1 <= q.len <= MTU
  }

  /** A byte of the receive buffer. */
  function At(q: Request, i: nat): byte {
    if i < |q.buf| then q.buf[i] else 0
  }

  /** `width` bytes of the receive buffer behind index `at`. */
  function Window(q: Request, at: nat, width: nat): (w: seq<byte>)
    ensures |w| == width && forall i :: 0 <= i < width ==> w[i] == At(q, at + i)
  {
    seq<byte>(width, i requires 0 <= i => At(q, at + i))
  }

  /** What the user function does for one identifier of a ReadDataByIdentifier request: it copies data and passes on
      what the copy function returns, or it copies data, possibly none, and answers a code of its own. */
  datatype Reading = Checked(data: seq<byte>) | Unchecked(data: seq<byte>, code: byte)

  /** What the user function srv->fn answers to the events of one request: its code, the data it copied into the
      response, the block length it chose; and for some services the readings, timings and power down time. */
  datatype Answer = Answer(
    code: byte, data: seq<byte>, blockLength: nat,
    readings: seq<Reading> := [], p2: nat := 50, p2Star: nat := 2000, powerDown: nat := 0)

  /** The state of an upload or download. */
  datatype Xfer = Xfer(active: bool, counter: byte, total: nat, done: nat, blockLength: nat)

  /** The state of security access. */
  datatype Security = Security(level: byte, authFailTimer: int, bootDelayTimer: int)

  /** What a service handler leaves behind; `asked` says whether it called the user function. */
  datatype Handled = Handled(xfer: Xfer, sec: Security, code: byte, response: seq<byte>, asked: bool)

  function Negative(sid: byte, code: byte): seq<byte> {
    [0x7F, sid, code]
  }

  function ResponseSid(sid: byte): byte {
    (sid + 0x40) % 256
  }

  /** safe_copy into a send buffer of MTU bytes that already holds `response`. */
  function SafeCopy(response: seq<byte>, data: seq<byte>): seq<byte> {
    if |data| <= MTU - |response| then response + data else response
  }

  /** ResetTransfer. */
  function ResetTransfer(x: Xfer): Xfer {
    x.(counter := 1, done := 0, total := 0, active := false)
  }

  // ----- requests for a transfer

  datatype Decoded = Good(address: nat, size: nat) | Bad(code: byte)

  /** The widths of size and address in a request for a download or an upload are ones that the server understands. */
  predicate WidthsFine(q: Request)
    requires ValidRequest(q)
  {
    1 <= q.buf[2] / 16 <= 8 && 1 <= q.buf[2] % 16 <= 8
  }

  /** decodeAddressAndLength, for the format byte at index `at`. */
  function DecodeAddressAndLength(q: Request, at: nat): Decoded
    requires ValidRequest(q) && at <= 2
  {
    var sizeLen := q.buf[at] / 16;
    var addressLen := q.buf[at] % 16;
    if q.len < 3 then Bad(INCORRECT_LENGTH)
    else if sizeLen == 0 || sizeLen > 8 || addressLen == 0 || addressLen > 8 then Bad(REQUEST_OUT_OF_RANGE)
    else if at + sizeLen + addressLen > q.len then Bad(INCORRECT_LENGTH)
    else Good(BigEndian.Decode(Window(q, at + 1, addressLen)),
              BigEndian.Decode(Window(q, at + 1 + addressLen, sizeLen)))
  }

  /** An active transfer of `total` bytes in blocks of `blockLength`. */
  function Started(x: Xfer, total: nat, blockLength: nat): Xfer {
    ResetTransfer(x).(active := true, total := total, blockLength := blockLength)
  }

  /** RequestDownload (0x34) and RequestUpload (0x35); only the former limits the announced block length. */
  function RequestLoad(sid: byte, x: Xfer, sec: Security, q: Request, a: Answer): (h: Handled)
    requires ValidRequest(q)
    ensures h.sec == sec
  {
    if x.active then Handled(x, sec, CONDITIONS_NOT_CORRECT, Negative(sid, CONDITIONS_NOT_CORRECT), false)
    else if q.len < 3 then Handled(x, sec, INCORRECT_LENGTH, Negative(sid, INCORRECT_LENGTH), false)
    else match DecodeAddressAndLength(q, 2)
      case Bad(code) => Handled(x, sec, code, Negative(sid, code), false)
      case Good(address, size) =>
        if a.blockLength < 3 then
          Handled(x, sec, GENERAL_PROGRAMMING_FAILURE, Negative(sid, GENERAL_PROGRAMMING_FAILURE), true)
        else if a.code != POSITIVE then Handled(x, sec, a.code, Negative(sid, a.code), true)
        else
          var announced := if sid == SID_REQUEST_DOWNLOAD then Min(a.blockLength, MTU) else a.blockLength;
          Handled(Started(x, size, a.blockLength), sec, POSITIVE,
                  [ResponseSid(sid), 0x20] + BigEndian.Encode(announced, 2), true)
  }

  /** The fields of a RequestFileTransfer (0x38) request. */
  datatype FileRequest = FileRequest(mode: byte, path: seq<byte>, format: byte, uncompressed: nat, compressed: nat)
                       | BadWidth

  /** The two bytes of the path's length. */
  function PathLength(q: Request): nat
    requires ValidRequest(q)
  {
    var high: nat := q.buf[2];
    high * 256 + q.buf[3]
  }

  function ParseFileRequest(q: Request): FileRequest
    requires ValidRequest(q)
  {
    var mode := q.buf[1];
    var pathLen := PathLength(q);
    var path := Window(q, 4, pathLen);
    var format := if mode == ADD_FILE || mode == REPLACE_FILE || mode == READ_FILE then At(q, 4 + pathLen) else 0;
    if mode == ADD_FILE || mode == REPLACE_FILE then
      var width := At(q, 5 + pathLen);
      if width > 8 then BadWidth
      else FileRequest(mode, path, format, BigEndian.Decode(Window(q, 6 + pathLen, width)),
                       BigEndian.Decode(Window(q, 6 + pathLen + width, width)))
    else FileRequest(mode, path, format, 0, 0)
  }

  /** RequestFileTransfer (0x38). */
  function RequestFileTransfer(x: Xfer, sec: Security, q: Request, a: Answer): (h: Handled)
    requires ValidRequest(q)
    ensures h.sec == sec
  {
    var sid := SID_REQUEST_FILE_TRANSFER;
    if x.active then Handled(x, sec, CONDITIONS_NOT_CORRECT, Negative(sid, CONDITIONS_NOT_CORRECT), false)
    else if q.len < 4 then Handled(x, sec, INCORRECT_LENGTH, Negative(sid, INCORRECT_LENGTH), false)
    else match ParseFileRequest(q)
      case BadWidth => Handled(x, sec, REQUEST_OUT_OF_RANGE, Negative(sid, REQUEST_OUT_OF_RANGE), false)
      case FileRequest(mode, _, format, _, compressed) =>
        if a.code != POSITIVE then Handled(x, sec, a.code, Negative(sid, a.code), true)
        else
          Handled(Started(x, compressed, a.blockLength), sec, POSITIVE,
                  [ResponseSid(sid), mode, 2] + BigEndian.Encode(Min(a.blockLength, MTU), 2) + [format], true)
  }

  // ----- the transfer itself

  function TransferFails(x: Xfer, sec: Security, code: byte, asked: bool): Handled {
    Handled(ResetTransfer(x), sec, code, Negative(SID_TRANSFER_DATA, code), asked)
  }

  /** TransferData (0x36). While a previous answer was "pending" the sequence check is not repeated. */
  function TransferData(x: Xfer, sec: Security, pending: bool, q: Request, a: Answer): (h: Handled)
    requires ValidRequest(q)
    ensures h.sec == sec
  {
    var sid := SID_TRANSFER_DATA;
    if !x.active then
      Handled(x, sec, UPLOAD_DOWNLOAD_NOT_ACCEPTED, Negative(sid, UPLOAD_DOWNLOAD_NOT_ACCEPTED), false)
    else if q.len < 2 then TransferFails(x, sec, INCORRECT_LENGTH, false)
    else if !pending && q.buf[1] != x.counter then TransferFails(x, sec, REQUEST_SEQUENCE_ERROR, false)
    else
      var x1 := if pending then x else x.(counter := (x.counter + 1) % 256);
      if x1.done + (q.len - 2) > x1.total then TransferFails(x1, sec, TRANSFER_DATA_SUSPENDED, false)
      else if a.code == POSITIVE then
        Handled(x1.(done := x1.done + (q.len - 2)), sec, POSITIVE, SafeCopy([ResponseSid(sid), q.buf[1]], a.data), true)
      else if a.code == RESPONSE_PENDING then
        Handled(x1, sec, RESPONSE_PENDING, Negative(sid, RESPONSE_PENDING), true)
      else TransferFails(x1, sec, a.code, true)
  }

  /** RequestTransferExit (0x37). */
  function RequestTransferExit(x: Xfer, sec: Security, q: Request, a: Answer): (h: Handled)
    ensures h.sec == sec
  {
    var sid := SID_REQUEST_TRANSFER_EXIT;
    if !x.active then
      Handled(x, sec, UPLOAD_DOWNLOAD_NOT_ACCEPTED, Negative(sid, UPLOAD_DOWNLOAD_NOT_ACCEPTED), false)
    else if a.code == POSITIVE then Handled(ResetTransfer(x), sec, POSITIVE, SafeCopy([ResponseSid(sid)], a.data), true)
    else if a.code == RESPONSE_PENDING then Handled(x, sec, RESPONSE_PENDING, Negative(sid, RESPONSE_PENDING), true)
    else Handled(ResetTransfer(x), sec, a.code, Negative(sid, a.code), true)
  }

  // ----- security access

  /** UDSSecurityAccessLevelIsReserved: after the mask only level 0 is left of its three conditions. */
  predicate LevelIsReserved(level: byte) {
    level % 64 == 0
  }

  /** SecurityAccess (0x27). */
  function SecurityAccess(c: Clock, x: Xfer, sec: Security, q: Request, now: int, a: Answer): (h: Handled)
    requires ValidRequest(q)
    ensures h.xfer == x
  {
    var sid := SID_SECURITY_ACCESS;
    var sub := q.buf[1];
    if LevelIsReserved(sub) then Handled(x, sec, INCORRECT_LENGTH, Negative(sid, INCORRECT_LENGTH), false)
    else if !After(c, now, sec.bootDelayTimer) then
      Handled(x, sec, REQUIRED_TIME_DELAY_NOT_EXPIRED, Negative(sid, REQUIRED_TIME_DELAY_NOT_EXPIRED), false)
    else if !After(c, now, sec.authFailTimer) then
      Handled(x, sec, EXCEED_NUMBER_OF_ATTEMPTS, Negative(sid, EXCEED_NUMBER_OF_ATTEMPTS), false)
    else if sub % 2 == 0 then
      if a.code != POSITIVE then
        Handled(x, sec.(authFailTimer := Plus(c, now, AUTH_FAIL_DELAY)), a.code, Negative(sid, a.code), true)
      else Handled(x, sec.(level := sub - 1), POSITIVE, [ResponseSid(sid), sub], true)
    else if sub == sec.level then Handled(x, sec, POSITIVE, [ResponseSid(sid), sub, 0, 0], false)
    else if a.code != POSITIVE then Handled(x, sec, a.code, Negative(sid, a.code), true)
    else
      var response := SafeCopy([ResponseSid(sid), sub], a.data);
      if |response| <= 2 then
        Handled(x, sec, GENERAL_PROGRAMMING_FAILURE, Negative(sid, GENERAL_PROGRAMMING_FAILURE), true)
      else Handled(x, sec, POSITIVE, response, true)
  }

  // ----- evaluation

  /** The service identifiers with a handler. */
  predicate HasHandler(sid: byte) {
    sid in [0x10, 0x11, 0x22, 0x23, 0x27, 0x28, 0x2E, 0x31, 0x34, 0x35, 0x36, 0x37, 0x38, 0x3E, 0x85]
  }

  predicate HasSubFunction(sid: byte) {
    sid in [0x10, 0x11, 0x27, 0x28, 0x31, 0x3E, 0x85]
  }

  /** What a service without a state of its own leaves behind; `asked` says whether it called the user function. */
  datatype Reply = Reply(code: byte, response: seq<byte>, asked: bool)

  function Refuse(q: Request, code: byte, asked: bool): Reply
    requires ValidRequest(q)
  {
    Reply(code, Negative(q.buf[0], code), asked)
  }

  /** The high and the low byte of a 16-bit value. */
  function Bytes16(v: nat): seq<byte> {
    [v / 256 % 256, v % 256]
  }

  /** DiagnosticSessionControl (0x10); the mask 0x4F keeps bit 6 and the low half. */
  function DiagnosticSessionControl(q: Request, a: Answer): Reply
    requires ValidRequest(q)
  {
    if q.len < 2 then Refuse(q, INCORRECT_LENGTH, false)
    else if a.code != POSITIVE then Refuse(q, a.code, true)
    else
      var kind: byte := q.buf[1] / 64 % 2 * 64 + q.buf[1] % 16;
      Reply(POSITIVE, [ResponseSid(q.buf[0]), kind] + Bytes16(a.p2) + Bytes16(a.p2Star / 10), true)
  }

  const RAPID_POWER_SHUT_DOWN: byte := 4

  /** ECUReset (0x11). */
  function EcuReset(q: Request, a: Answer): Reply
    requires ValidRequest(q)
  {
    var kind: byte := q.buf[1] % 64;
    if q.len < 2 then Refuse(q, INCORRECT_LENGTH, false)
    else if a.code != POSITIVE then Refuse(q, a.code, true)
    else
      Reply(POSITIVE,
            [ResponseSid(q.buf[0]), kind]
            + if kind == RAPID_POWER_SHUT_DOWN then [Min(a.powerDown / 1000, 255)] else [], true)
  }

  /** The identifier at position i of a ReadDataByIdentifier request. */
  function IdOf(q: Request, i: nat): (did: nat)
    ensures did < 65536
  {
    var high: int := At(q, 1 + 2 * i);
    high * 256 + At(q, 2 + 2 * i)
  }

  function ReadingAt(readings: seq<Reading>, i: nat): Reading {
    if i < |readings| then readings[i] else Unchecked([], GENERAL_REJECT)
  }

  /** The loop over the identifiers from the i-th on. */
  function ReadWalk(q: Request, i: nat, n: nat, readings: seq<Reading>, response: seq<byte>): (r: Reply)
    requires ValidRequest(q) && i <= n
    decreases n - i
  {
    if i == n then Reply(POSITIVE, response, true)
    else if |response| + 3 > MTU then Refuse(q, RESPONSE_TOO_LONG, true)
    else
      var headed := response + Bytes16(IdOf(q, i));
      var reading := ReadingAt(readings, i);
      var code := if reading.Unchecked? then reading.code
                  else if |reading.data| > MTU - |headed| then RESPONSE_TOO_LONG else POSITIVE;
      if code != POSITIVE then Refuse(q, code, true)
      else ReadWalk(q, i + 1, n, readings, SafeCopy(headed, reading.data))
  }

  /** ReadDataByIdentifier (0x22); the number of identifiers is kept in eight bits. */
  function ReadDataByIdentifier(q: Request, a: Answer): Reply
    requires ValidRequest(q)
  {
    var n := q.len / 2 % 256;
    if (q.len - 1) % 2 != 0 || n == 0 then Refuse(q, INCORRECT_LENGTH, false)
    else ReadWalk(q, 0, n, a.readings, [ResponseSid(q.buf[0])])
  }

  /** ReadMemoryByAddress (0x23). If the user function is content but has not copied as many bytes as were asked for,
      the handler returns a failure and leaves the positive response in the buffer. */
  function ReadMemoryByAddress(q: Request, a: Answer): Reply
    requires ValidRequest(q)
  {
    if q.len < 4 then Refuse(q, INCORRECT_LENGTH, false)
    else match DecodeAddressAndLength(q, 1)
      case Bad(code) => Refuse(q, code, false)
      case Good(address, size) =>
        var response := SafeCopy([ResponseSid(q.buf[0])], a.data);
        if a.code != POSITIVE then Refuse(q, a.code, true)
        else Reply(if |response| != 1 + size then GENERAL_PROGRAMMING_FAILURE else POSITIVE, response, true)
  }

  /** CommunicationControl (0x28). */
  function CommunicationControl(q: Request, a: Answer): Reply
    requires ValidRequest(q)
  {
    if q.len < 3 then Refuse(q, INCORRECT_LENGTH, false)
    else if a.code != POSITIVE then Refuse(q, a.code, true)
    else Reply(POSITIVE, [ResponseSid(q.buf[0]), q.buf[1] % 128], true)
  }

  /** WriteDataByIdentifier (0x2E). */
  function WriteDataByIdentifier(q: Request, a: Answer): Reply
    requires ValidRequest(q)
  {
    if q.len < 4 then Refuse(q, INCORRECT_LENGTH, false)
    else if a.code != POSITIVE then Refuse(q, a.code, true)
    else Reply(POSITIVE, [ResponseSid(q.buf[0]), q.buf[1], q.buf[2]], true)
  }

  /** RoutineControl (0x31): start, stop and request results. */
  function RoutineControl(q: Request, a: Answer): Reply
    requires ValidRequest(q)
  {
    var kind: byte := q.buf[1] % 128;
    if q.len < 4 then Refuse(q, INCORRECT_LENGTH, false)
    else if kind < 1 || kind > 3 then Refuse(q, REQUEST_OUT_OF_RANGE, false)
    else if a.code != POSITIVE then Refuse(q, a.code, true)
    else Reply(POSITIVE, SafeCopy([ResponseSid(q.buf[0]), kind, q.buf[2], q.buf[3]], a.data), true)
  }

  /** TesterPresent (0x3E). */
  function TesterPresent(q: Request): Reply
    requires ValidRequest(q)
  {
    if q.len != 2 then Refuse(q, INCORRECT_LENGTH, false)
    else if q.buf[1] == 0 || q.buf[1] == 0x80 then Reply(POSITIVE, [ResponseSid(q.buf[0]), 0], false)
    else Refuse(q, SUB_FUNCTION_NOT_SUPPORTED, false)
  }

  /** ControlDTCSetting (0x85). */
  function ControlDtcSetting(q: Request): Reply
    requires ValidRequest(q)
  {
    if q.len < 2 then Refuse(q, INCORRECT_LENGTH, false)
    else Reply(POSITIVE, [ResponseSid(q.buf[0]), q.buf[1] % 64], false)
  }

  /** The services that leave transfers and security as they are. */
  function OtherService(q: Request, a: Answer): Reply
    requires ValidRequest(q)
  {
    var sid := q.buf[0];
    if sid == 0x10 then DiagnosticSessionControl(q, a)
    else if sid == 0x11 then EcuReset(q, a)
    else if sid == 0x22 then ReadDataByIdentifier(q, a)
    else if sid == 0x23 then ReadMemoryByAddress(q, a)
    else if sid == 0x28 then CommunicationControl(q, a)
    else if sid == 0x2E then WriteDataByIdentifier(q, a)
    else if sid == 0x31 then RoutineControl(q, a)
    else if sid == 0x3E then TesterPresent(q)
    else if sid == 0x85 then ControlDtcSetting(q)
    else Refuse(q, SERVICE_NOT_SUPPORTED, false)
  }

  function WithState(x: Xfer, sec: Security, r: Reply): Handled {
    Handled(x, sec, r.code, r.response, r.asked)
  }

  function Service(c: Clock, x: Xfer, sec: Security, pending: bool, q: Request, now: int, a: Answer): (h: Handled)
    requires ValidRequest(q)
    ensures q.buf[0] != SID_SECURITY_ACCESS ==> h.sec == sec
  {
    var sid := q.buf[0];
    if sid == SID_SECURITY_ACCESS then SecurityAccess(c, x, sec, q, now, a)
    else if sid == SID_REQUEST_DOWNLOAD || sid == SID_REQUEST_UPLOAD then RequestLoad(sid, x, sec, q, a)
    else if sid == SID_TRANSFER_DATA then TransferData(x, sec, pending, q, a)
    else if sid == SID_REQUEST_TRANSFER_EXIT then RequestTransferExit(x, sec, q, a)
    else if sid == SID_REQUEST_FILE_TRANSFER then RequestFileTransfer(x, sec, q, a)
    else WithState(x, sec, OtherService(q, a))
  }

  /** The codes a functionally addressed request is not answered with. */
  predicate SilentIfFunctional(code: byte) {
    code in [SERVICE_NOT_SUPPORTED, SUB_FUNCTION_NOT_SUPPORTED, SERVICE_NOT_IN_SESSION, SUB_FUNCTION_NOT_IN_SESSION,
             REQUEST_OUT_OF_RANGE]
  }

  /** evaluateServiceResponse. */
  function Evaluate(c: Clock, x: Xfer, sec: Security, pending: bool, q: Request, now: int, a: Answer): (h: Handled)
    requires ValidRequest(q)
    ensures q.buf[0] != SID_SECURITY_ACCESS ==> h.sec == sec
  {
    var sid := q.buf[0];
    if !HasHandler(sid) then
      Handled(x, sec, SERVICE_NOT_SUPPORTED, Negative(sid, SERVICE_NOT_SUPPORTED), false)
    else
      var h := Service(c, x, sec, pending, q, now, a);
      var suppressPositive := HasSubFunction(sid) && q.buf[1] >= 0x80 && h.code == POSITIVE;
      if (q.functional && SilentIfFunctional(h.code)) || suppressPositive then h.(response := []) else h
  }

  // ----- the poll loop

  datatype Server = Server(
    p2: nat, p2Star: nat, xfer: Xfer, sec: Security, pending: bool, inProgress: bool, notReady: bool,
    p2Timer: int, request: Request, response: seq<byte>)

  ghost predicate ValidServer(s: Server) {
    s.inProgress ==> ValidRequest(s.request)
  }

  /** What one poll meets: the time, the request the transport shows when it is asked, the user function's answer. */
  datatype Env = Env(now: int, arrival: Option<Request>, answer: Answer)

  ghost predicate ValidEnv(e: Env) {
    e.arrival.Some? ==> ValidRequest(e.arrival.value)
  }

  ghost predicate ValidEnvs(envs: seq<Env>) {
    forall i :: 0 <= i < |envs| ==> ValidEnv(envs[i])
  }

  /** What an observer of transport and user function sees. */
  datatype Event =
    | Accepted(request: Request)
    | SecurityAsked(at: int, isKey: bool, failed: bool)
    | Sent(response: seq<byte>, at: int)
    | Acked

  function PendingWait(s: Server): nat {
    s.p2Star * 3 / 10
  }

  /** The request that a poll evaluates, if any: a pending one again, or one that arrives. */
  function Evaluating(s: Server, arrival: Option<Request>): Option<Request> {
    if s.inProgress then (if s.pending then Some(s.request) else None)
    else if s.notReady then None
    else arrival
  }

  /** The security events of an evaluation. */
  function Asked(q: Request, h: Handled, now: int, a: Answer): seq<Event>
    requires ValidRequest(q)
  {
    if h.asked && q.buf[0] == SID_SECURITY_ACCESS
    then [SecurityAsked(now, q.buf[1] % 2 == 0, a.code != POSITIVE)] else []
  }

  /** A poll's evaluation of request q, either fresh or again after a pending answer. */
  function Evaluated(c: Clock, s: Server, q: Request, e: Env): (r: (Server, byte, seq<Event>))
    requires ValidRequest(q)
  {
    var h := Evaluate(c, s.xfer, s.sec, s.pending, q, e.now, e.answer);
    (s.(xfer := h.xfer, sec := h.sec, response := h.response, request := q,
        notReady := s.notReady || (q.buf[0] == 0x11 && h.code == POSITIVE)),
     h.code, Asked(q, h, e.now, e.answer))
  }

  /** A request in progress is evaluated again while its answer is pending. */
  function Reevaluate(c: Clock, s: Server, e: Env): (r: (Server, seq<Event>))
    requires ValidServer(s) && s.inProgress
  {
    if !s.pending then (s, [])
    else
      var (s1, code, events) := Evaluated(c, s, s.request, e);
      if code == RESPONSE_PENDING then (s1.(notReady := true), events)
      else (s1.(pending := false, notReady := false, p2Timer := Plus(c, e.now, s.p2)), events)
  }

  /** The response leaves when the P2 timer allows it. */
  function SendResponse(c: Clock, s: Server, now: int): (r: (Server, seq<Event>)) {
    if !After(c, now, s.p2Timer) then (s, [])
    else if s.pending then (s.(p2Timer := Plus(c, now, PendingWait(s))), [Sent(s.response, now)])
    else (s.(p2Timer := Plus(c, now, s.p2), inProgress := false), [Sent(s.response, now), Acked])
  }

  /** UDSServerPoll. */
  function Poll(c: Clock, s: Server, e: Env): (r: (Server, seq<Event>))
    requires ValidServer(s) && ValidEnv(e)
    ensures ValidServer(r.0)
  {
    if s.inProgress then
      var (s1, asked) := Reevaluate(c, s, e);
      var (s2, sent) := SendResponse(c, s1, e.now);
      (s2, asked + sent)
    else if s.notReady || e.arrival.None? then (s, [])
    else
      var q := e.arrival.value;
      var (s1, code, asked) := Evaluated(c, s, q, e);
      (s1.(inProgress := true, pending := s1.pending || code == RESPONSE_PENDING), [Accepted(q)] + asked)
  }

  /** A run of polls: the final state and everything observed. */
  function Run(c: Clock, s: Server, envs: seq<Env>): (r: (Server, seq<Event>))
    requires ValidServer(s) && ValidEnvs(envs)
    ensures ValidServer(r.0)
    decreases |envs|
  {
    if envs == [] then (s, [])
    else
      var (s1, events) := Poll(c, s, envs[0]);
      var (s2, more) := Run(c, s1, envs[1..]);
      (s2, events + more)
  }
}
