/** What the server answers to each service, in bytes: for every request, by its first byte, when the user function is
    asked, which code is returned, and what a positive response carries. */
module UdsServices {
  import opened Prelude
  import opened Bytes
  import opened Clock
  import BigEndian
  import opened Uds
  import opened UdsAnswering

  /** A request, and the state in which the server evaluates it. */
  datatype Case = Case(c: Clock, x: Xfer, sec: Security, pending: bool, q: Request, now: int, a: Answer)

  ghost predicate For(k: Case, sid: byte) {
    ValidRequest(k.q) && k.q.buf[0] == sid
  }

  function Outcome(k: Case): Handled
    requires ValidRequest(k.q)
  {
    Evaluate(k.c, k.x, k.sec, k.pending, k.q, k.now, k.a)
  }

  /** The outcome: was the user function asked, the code, and the response: nothing where a rule suppresses it, these
      bytes if the code is positive, and otherwise the negative response. */
  ghost predicate Gives(k: Case, asked: bool, code: byte, positive: seq<byte>)
    requires ValidRequest(k.q)
  {
    var h := Outcome(k);
    && h.asked == asked && h.code == code
    && h.response == if Suppressed(k.q, code) then []
                     else if code == 0 then positive
                     else [0x7F, k.q.buf[0], code]
  }

  ghost predicate Unchanged(k: Case)
    requires ValidRequest(k.q)
  {
    Outcome(k).xfer == k.x && Outcome(k).sec == k.sec
  }

  /** `data` if it fits behind n bytes. */
  function Copied(n: nat, data: seq<byte>): seq<byte> {
    if n + |data| <= MTU then data else []
  }

  /** The handler's outcome is the server's, but for suppression. */
  lemma HandlerGives(k: Case, h: Handled, asked: bool, code: byte, positive: seq<byte>)
    requires ValidRequest(k.q) && HasHandler(k.q.buf[0])
    requires Service(k.c, k.x, k.sec, k.pending, k.q, k.now, k.a) == h
    requires h.asked == asked && h.code == code
    requires h.response == if code == 0 then positive else Negative(k.q.buf[0], code)
    ensures Gives(k, asked, code, positive) && Outcome(k).xfer == h.xfer && Outcome(k).sec == h.sec
  {
  }

  lemma ReplyGives(k: Case, r: Reply, asked: bool, code: byte, positive: seq<byte>)
    requires ValidRequest(k.q) && HasHandler(k.q.buf[0])
    requires Service(k.c, k.x, k.sec, k.pending, k.q, k.now, k.a) == WithState(k.x, k.sec, r)
    requires r.asked == asked && r.code == code
    requires r.response == if code == 0 then positive else Negative(k.q.buf[0], code)
    ensures Gives(k, asked, code, positive) && Unchanged(k)
  {
    HandlerGives(k, WithState(k.x, k.sec, r), asked, code, positive);
  }

  // ----- services that leave transfers and security as they are

  /** The new session with the timings that the application chose, p2* in units of 10 ms. */
  lemma SessionAnswer(k: Case)
    requires For(k, 0x10)
    ensures var kind: byte := k.q.buf[1] / 64 % 2 * 64 + k.q.buf[1] % 16;
            && Gives(k, k.q.len >= 2, if k.q.len < 2 then 0x13 else k.a.code,
                     [0x50, kind] + BigEndian.Encode(k.a.p2, 2) + BigEndian.Encode(k.a.p2Star / 10, 2))
            && Unchanged(k)
  {
    var kind: byte := k.q.buf[1] / 64 % 2 * 64 + k.q.buf[1] % 16;
    TwoBytes(k.a.p2);
    TwoBytes(k.a.p2Star / 10);
    ReplyGives(k, DiagnosticSessionControl(k.q, k.a), k.q.len >= 2, if k.q.len < 2 then 0x13 else k.a.code,
               [0x50, kind] + BigEndian.Encode(k.a.p2, 2) + BigEndian.Encode(k.a.p2Star / 10, 2));
  }

  lemma TwoBytes(v: nat)
    ensures Bytes16(v) == BigEndian.Encode(v, 2)
  {
    assert BigEndian.Encode(v / 256, 1) == BigEndian.Encode(v / 256 / 256, 0) + [v / 256 % 256];
  }

  /** The kind of reset; for a rapid power shutdown the seconds until then, at most 255. */
  lemma ResetAnswer(k: Case)
    requires For(k, 0x11)
    ensures var kind: byte := k.q.buf[1] % 64;
            && Gives(k, k.q.len >= 2, if k.q.len < 2 then 0x13 else k.a.code,
                     [0x51, kind] + if kind == 4 then [Min(k.a.powerDown / 1000, 255)] else [])
            && Unchanged(k)
  {
    var kind: byte := k.q.buf[1] % 64;
    ReplyGives(k, EcuReset(k.q, k.a), k.q.len >= 2, if k.q.len < 2 then 0x13 else k.a.code,
               [0x51, kind] + if kind == 4 then [Min(k.a.powerDown / 1000, 255)] else []);
  }

  /** The two widths of the format byte, the address behind it and the size behind the address. */
  predicate ReadsMemory(q: Request)
    requires ValidRequest(q)
  {
    var sizeLen, addressLen := q.buf[1] / 16, q.buf[1] % 16;
    q.len >= 4 && 1 <= sizeLen <= 8 && 1 <= addressLen <= 8 && 1 + sizeLen + addressLen <= q.len
  }

  function SizeAsked(q: Request): nat
    requires ValidRequest(q)
  {
    BigEndian.Decode(Window(q, 2 + q.buf[1] % 16, q.buf[1] / 16))
  }

  /** Exactly as many bytes as were asked for: the copied ones (which may be none if none were asked for). Any other
      number is the failure without a negative response. */
  lemma MemoryAnswer(k: Case)
    requires For(k, 0x23)
    ensures var copied := Copied(1, k.a.data);
            && Unchanged(k)
            && (!ReadsMemory(k.q) ==>
                  Gives(k, false, if k.q.len < 4 || (1 <= k.q.buf[1] / 16 <= 8 && 1 <= k.q.buf[1] % 16 <= 8) then 0x13
                                  else 0x31, []))
            && (ReadsMemory(k.q) && (k.a.code != 0 || |copied| == SizeAsked(k.q)) ==>
                  Gives(k, true, k.a.code, [0x63] + copied))
            && (ReadsMemory(k.q) && k.a.code == 0 && |copied| != SizeAsked(k.q) ==>
                  Outcome(k).asked && Outcome(k).code == 0x72 && Outcome(k).response == [0x63] + copied)
  {
    var copied, r := Copied(1, k.a.data), ReadMemoryByAddress(k.q, k.a);
    MemoryReply(k.q, k.a);
    if !ReadsMemory(k.q) {
      ReplyGives(k, r, false, r.code, []);
    } else if k.a.code != 0 || |copied| == SizeAsked(k.q) {
      ReplyGives(k, r, true, k.a.code, [0x63] + copied);
    } else {
      EvaluateSuppresses(k.c, k.x, k.sec, k.pending, k.q, k.now, k.a);
    }
  }

  lemma MemoryReply(q: Request, a: Answer)
    requires ValidRequest(q) && q.buf[0] == 0x23
    ensures ReadMemoryByAddress(q, a) ==
            if !ReadsMemory(q) then
              Refuse(q, if q.len < 4 || (1 <= q.buf[1] / 16 <= 8 && 1 <= q.buf[1] % 16 <= 8) then 0x13 else 0x31, false)
            else if a.code != 0 then Refuse(q, a.code, true)
            else Reply(if |Copied(1, a.data)| != SizeAsked(q) then 0x72 else 0, [0x63] + Copied(1, a.data), true)
  {
    assert [0x63] + [] == [0x63];
  }

  lemma CommunicationAnswer(k: Case)
    requires For(k, 0x28)
    ensures Unchanged(k)
    ensures Gives(k, k.q.len >= 3, if k.q.len < 3 then 0x13 else k.a.code, [0x68, k.q.buf[1] % 128])
  {
    ReplyGives(k, CommunicationControl(k.q, k.a), k.q.len >= 3, if k.q.len < 3 then 0x13 else k.a.code,
               [0x68, k.q.buf[1] % 128]);
  }

  /** The identifier that was written. */
  lemma WriteAnswer(k: Case)
    requires For(k, 0x2E)
    ensures Unchanged(k)
    ensures Gives(k, k.q.len >= 4, if k.q.len < 4 then 0x13 else k.a.code, [0x6E, k.q.buf[1], k.q.buf[2]])
  {
    ReplyGives(k, WriteDataByIdentifier(k.q, k.a), k.q.len >= 4, if k.q.len < 4 then 0x13 else k.a.code,
               [0x6E, k.q.buf[1], k.q.buf[2]]);
  }

  /** What was asked of the routine, its identifier and its status record. */
  lemma RoutineAnswer(k: Case)
    requires For(k, 0x31)
    ensures var kind: byte := k.q.buf[1] % 128;
            && Unchanged(k)
            && Gives(k, k.q.len >= 4 && 1 <= kind <= 3,
                     if k.q.len < 4 then 0x13 else if 1 <= kind <= 3 then k.a.code else 0x31,
                     [0x71, kind, k.q.buf[2], k.q.buf[3]] + Copied(4, k.a.data))
  {
    var kind: byte := k.q.buf[1] % 128;
    assert [0x71, kind, k.q.buf[2], k.q.buf[3]] + [] == [0x71, kind, k.q.buf[2], k.q.buf[3]];
    ReplyGives(k, RoutineControl(k.q, k.a), k.q.len >= 4 && 1 <= kind <= 3,
               if k.q.len < 4 then 0x13 else if 1 <= kind <= 3 then k.a.code else 0x31,
               [0x71, kind, k.q.buf[2], k.q.buf[3]] + Copied(4, k.a.data));
  }

  lemma TesterAnswer(k: Case)
    requires For(k, 0x3E)
    ensures Unchanged(k)
    ensures Gives(k, false, if k.q.len != 2 then 0x13 else if k.q.buf[1] % 128 == 0 then 0 else 0x12, [0x7E, 0])
  {
    ReplyGives(k, TesterPresent(k.q), false,
               if k.q.len != 2 then 0x13 else if k.q.buf[1] % 128 == 0 then 0 else 0x12, [0x7E, 0]);
  }

  lemma DtcSettingAnswer(k: Case)
    requires For(k, 0x85)
    ensures Unchanged(k)
    ensures Gives(k, false, if k.q.len < 2 then 0x13 else 0, [0xC5, k.q.buf[1] % 64])
  {
    ReplyGives(k, ControlDtcSetting(k.q), false, if k.q.len < 2 then 0x13 else 0, [0xC5, k.q.buf[1] % 64]);
  }

  /** The records, as the walk over the identifiers collects them. */
  lemma ReadAnswer(k: Case)
    requires For(k, 0x22)
    ensures var r := ReadDataByIdentifier(k.q, k.a);
            Unchanged(k) && Gives(k, r.asked, r.code, r.response)
  {
    var r := ReadDataByIdentifier(k.q, k.a);
    LargeShape(k.x, k.sec, k.q, k.a);
    ReplyGives(k, r, r.asked, r.code, r.response);
  }

  // ----- security access

  predicate InBootDelay(k: Case) {
    !After(k.c, k.now, k.sec.bootDelayTimer)
  }

  predicate InFailDelay(k: Case) {
    !After(k.c, k.now, k.sec.authFailTimer)
  }

  /** A reserved level, and any level in one of the delays, is refused without asking. */
  lemma SecurityRefused(k: Case)
    requires For(k, 0x27) && (k.q.buf[1] % 64 == 0 || InBootDelay(k) || InFailDelay(k))
    ensures Unchanged(k)
    ensures Gives(k, false, if k.q.buf[1] % 64 == 0 then 0x13 else if InBootDelay(k) then 0x37 else 0x36, [])
  {
    var h := SecurityAccess(k.c, k.x, k.sec, k.q, k.now, k.a);
    HandlerGives(k, h, h.asked, h.code, []);
  }

  /** A key unlocks the level below its own, or starts the delay. */
  lemma KeyAnswer(k: Case)
    requires For(k, 0x27) && k.q.buf[1] % 64 != 0 && !InBootDelay(k) && !InFailDelay(k) && k.q.buf[1] % 2 == 0
    ensures Gives(k, true, k.a.code, [0x67, k.q.buf[1]]) && Outcome(k).xfer == k.x
    ensures Outcome(k).sec == if k.a.code == 0 then k.sec.(level := k.q.buf[1] - 1)
                              else k.sec.(authFailTimer := Plus(k.c, k.now, 1000))
  {
    var h := SecurityAccess(k.c, k.x, k.sec, k.q, k.now, k.a);
    HandlerGives(k, h, h.asked, h.code, [0x67, k.q.buf[1]]);
  }

  /** A seed is asked for only where the level is locked; where it is unlocked the seed is zero. */
  lemma SeedAnswer(k: Case)
    requires For(k, 0x27) && k.q.buf[1] % 64 != 0 && !InBootDelay(k) && !InFailDelay(k) && k.q.buf[1] % 2 == 1
    ensures Unchanged(k)
    ensures var sub, seed := k.q.buf[1], Copied(2, k.a.data);
            if sub == k.sec.level then Gives(k, false, 0, [0x67, sub, 0, 0])
            else Gives(k, true, if k.a.code == 0 && seed == [] then 0x72 else k.a.code, [0x67, sub] + seed)
  {
    var h := SecurityAccess(k.c, k.x, k.sec, k.q, k.now, k.a);
    var sub, seed := k.q.buf[1], Copied(2, k.a.data);
    assert [0x67, sub] + [] == [0x67, sub];
    HandlerGives(k, h, h.asked, h.code, if sub == k.sec.level then [0x67, sub, 0, 0] else [0x67, sub] + seed);
  }

  // ----- transfers

  /** The message has the format byte, and the address and size that it announces (but for one byte). */
  predicate Complete(q: Request)
    requires ValidRequest(q)
  {
    q.len >= 3 && WidthsFine(q) && 2 + q.buf[2] / 16 + q.buf[2] % 16 <= q.len
  }

  function LoadCode(k: Case): byte
    requires ValidRequest(k.q)
  {
    if k.x.active then 0x22
    else if !Complete(k.q) then (if k.q.len < 3 || WidthsFine(k.q) then 0x13 else 0x31)
    else if k.a.blockLength < 3 then 0x72
    else k.a.code
  }

  function LoadSize(q: Request): nat
    requires ValidRequest(q)
  {
    BigEndian.Decode(Window(q, 3 + q.buf[2] % 16, q.buf[2] / 16))
  }

  /** Download (0x34) and upload (0x35): refused while a transfer is active, with bad widths, for a short message, for a
      block length below 3 or by the application; granted with the block length in two bytes, which only the former
      limits to one message. */
  lemma LoadAnswer(k: Case)
    requires For(k, 0x34) || For(k, 0x35)
    ensures var sid, code := k.q.buf[0], LoadCode(k);
            var announced := if sid == 0x34 then Min(k.a.blockLength, MTU) else k.a.blockLength;
            && Gives(k, !k.x.active && Complete(k.q), code, [sid + 0x40, 0x20] + BigEndian.Encode(announced, 2))
            && Outcome(k).sec == k.sec
            && Outcome(k).xfer == if code == 0 then Xfer(true, 1, LoadSize(k.q), 0, k.a.blockLength) else k.x
  {
    var h := RequestLoad(k.q.buf[0], k.x, k.sec, k.q, k.a);
    LoadHandled(k);
    HandlerGives(k, h, h.asked, h.code, h.response);
  }

  lemma LoadHandled(k: Case)
    requires For(k, 0x34) || For(k, 0x35)
    ensures var sid, code, h := k.q.buf[0], LoadCode(k), RequestLoad(k.q.buf[0], k.x, k.sec, k.q, k.a);
            var announced := if sid == 0x34 then Min(k.a.blockLength, MTU) else k.a.blockLength;
            && h.asked == (!k.x.active && Complete(k.q)) && h.code == code
            && h.response == (if code == 0 then [sid + 0x40, 0x20] + BigEndian.Encode(announced, 2)
                              else Negative(sid, code))
            && h.xfer == if code == 0 then Xfer(true, 1, LoadSize(k.q), 0, k.a.blockLength) else k.x
  {
  }

  /** A block: only in an active transfer, with the expected number unless it was answered pending before, and not
      beyond the announced size; answered with its number and what the application copied. */
  lemma BlockAnswer(k: Case)
    requires For(k, 0x36)
    ensures var q, x := k.q, k.x;
            var inTurn := q.len >= 2 && (k.pending || q.buf[1] == x.counter);
            var fits := x.done + (q.len - 2) <= x.total;
            var code := if !x.active then 0x70
                        else if q.len < 2 then 0x13
                        else if !inTurn then 0x24
                        else if !fits then 0x71
                        else k.a.code;
            var counter := if k.pending then x.counter else (x.counter + 1) % 256;
            && Gives(k, x.active && inTurn && fits, code, [0x76, q.buf[1]] + Copied(2, k.a.data))
            && Outcome(k).sec == k.sec
            && Outcome(k).xfer == if !x.active then x
                                  else if code == 0 then x.(counter := counter, done := x.done + (q.len - 2))
                                  else if code == 0x78 then x.(counter := counter)
                                  else Xfer(false, 1, 0, 0, x.blockLength)
  {
    var h := TransferData(k.x, k.sec, k.pending, k.q, k.a);
    TransferShape(k.x, k.sec, k.pending, k.q, k.a);
    HandlerGives(k, h, h.asked, h.code, h.response);
  }

  lemma ExitAnswer(k: Case)
    requires For(k, 0x37)
    ensures var code := if k.x.active then k.a.code else 0x70;
            && Gives(k, k.x.active, code, [0x77] + Copied(1, k.a.data))
            && Outcome(k).sec == k.sec
            && Outcome(k).xfer == if !k.x.active || code == 0x78 then k.x else Xfer(false, 1, 0, 0, k.x.blockLength)
  {
    var h := RequestTransferExit(k.x, k.sec, k.q, k.a);
    TransferShape(k.x, k.sec, k.pending, k.q, k.a);
    HandlerGives(k, h, h.asked, h.code, h.response);
  }

  /** A file transfer: granted with mode, block length and format; the announced size is the compressed one. */
  lemma FileAnswer(k: Case)
    requires For(k, 0x38)
    ensures var q, f := k.q, ParseFileRequest(k.q);
            var asked := !k.x.active && q.len >= 4 && f.FileRequest?;
            var code := if k.x.active then 0x22
                        else if q.len < 4 then 0x13
                        else if f.BadWidth? then 0x31
                        else k.a.code;
            && Gives(k, asked, code,
                     [0x78, q.buf[1], 2] + BigEndian.Encode(Min(k.a.blockLength, MTU), 2)
                     + [if f.FileRequest? then f.format else 0])
            && Outcome(k).sec == k.sec
            && Outcome(k).xfer == if code == 0 && f.FileRequest? then Xfer(true, 1, f.compressed, 0, k.a.blockLength)
                                  else k.x
  {
    var h := RequestFileTransfer(k.x, k.sec, k.q, k.a);
    RequestShape(0x34, k.x, k.sec, k.q, k.a);
    HandlerGives(k, h, h.asked, h.code, h.response);
  }

  /** Every other service is refused, without asking the user function, and even if the request was for everyone. */
  lemma OtherAnswer(k: Case)
    requires ValidRequest(k.q)
    requires k.q.buf[0] !in [0x10, 0x11, 0x22, 0x23, 0x27, 0x28, 0x2E, 0x31, 0x34, 0x35, 0x36, 0x37, 0x38, 0x3E, 0x85]
    ensures Unchanged(k) && Outcome(k).code == 0x11 && !Outcome(k).asked
    ensures Outcome(k).response == [0x7F, k.q.buf[0], 0x11]
  {
  }
}
