/** What an observer of the server's poll loop sees, over whole runs: the shape of the responses, one final answer per
    accepted request, the pacing of the sends and the rate of security access attempts. */
module UdsAnswering {
  import opened Prelude
  import opened Bytes
  import opened Clock
  import BigEndian
  import opened Uds

  // ----- watching a trace

  /** A rule over events: the observer's next state, or None if the event breaks the rule. */
  function Watch<S>(rule: (S, Event) -> Option<S>, s: S, trace: seq<Event>): Option<S>
    decreases |trace|
  {
    if trace == [] then Some(s)
    else
      match rule(s, trace[0])
      case None => None
      case Some(s1) => Watch(rule, s1, trace[1..])
  }

  lemma {:induction false} WatchConcat<S>(rule: (S, Event) -> Option<S>, s: S, t1: seq<Event>, t2: seq<Event>)
    ensures Watch(rule, s, t1 + t2) ==
            match Watch(rule, s, t1) case None => None case Some(s1) => Watch(rule, s1, t2)
    decreases |t1|
  {
    if t1 == [] {
      assert t1 + t2 == t2;
    } else {
      assert (t1 + t2)[1..] == t1[1..] + t2;
      match rule(s, t1[0])
      case None =>
      case Some(s1) => WatchConcat(rule, s1, t1[1..], t2);
    }
  }

  lemma WatchOne<S>(rule: (S, Event) -> Option<S>, s: S, e: Event)
    ensures Watch(rule, s, [e]) == rule(s, e)
  {
  }

  lemma WatchTwo<S>(rule: (S, Event) -> Option<S>, s: S, e1: Event, e2: Event)
    ensures Watch(rule, s, [e1, e2]) == match rule(s, e1) case None => None case Some(s1) => rule(s1, e2)
  {
    assert [e1, e2] == [e1] + [e2];
    WatchConcat(rule, s, [e1], [e2]);
  }

  // ----- the shape of a response

  /** A handler leaves the negative response with its code, or a positive response that starts with the identifier. */
  ghost predicate Shaped(h: Handled, sid: byte) {
    && |h.response| <= MTU
    && (h.code != POSITIVE ==> h.response == Negative(sid, h.code))
    && (h.code == POSITIVE ==> h.response != [] && h.response[0] == ResponseSid(sid))
  }

  lemma TransferShape(x: Xfer, sec: Security, pending: bool, q: Request, a: Answer)
    requires ValidRequest(q)
    ensures Shaped(TransferData(x, sec, pending, q, a), SID_TRANSFER_DATA)
    ensures Shaped(RequestTransferExit(x, sec, q, a), SID_REQUEST_TRANSFER_EXIT)
  {
  }

  lemma RequestShape(sid: byte, x: Xfer, sec: Security, q: Request, a: Answer)
    requires ValidRequest(q)
    ensures Shaped(RequestLoad(sid, x, sec, q, a), sid)
    ensures Shaped(RequestFileTransfer(x, sec, q, a), SID_REQUEST_FILE_TRANSFER)
  {
  }

  lemma SecurityShape(c: Clock, x: Xfer, sec: Security, q: Request, now: int, a: Answer)
    requires ValidRequest(q)
    ensures Shaped(SecurityAccess(c, x, sec, q, now, a), SID_SECURITY_ACCESS)
  {
  }

  lemma {:induction false} ReadShape(q: Request, i: nat, n: nat, readings: seq<Reading>, response: seq<byte>)
    requires ValidRequest(q) && i <= n && 1 <= |response| <= MTU && response[0] == ResponseSid(q.buf[0])
    ensures var r := ReadWalk(q, i, n, readings, response);
            Shaped(Handled(Xfer(false, 0, 0, 0, 0), Security(0, 0, 0), r.code, r.response, r.asked), q.buf[0])
    decreases n - i
  {
    if i < n && |response| + 3 <= MTU {
      var headed := response + Bytes16(IdOf(q, i));
      ReadShape(q, i + 1, n, readings, SafeCopy(headed, ReadingAt(readings, i).data));
    }
  }

  /** ReadMemoryByAddress for which the user function reports success but has copied another number of bytes than was
      asked for. */
  predicate ShortCopy(q: Request, a: Answer)
    requires ValidRequest(q)
  {
    && q.buf[0] == 0x23 && q.len >= 4 && a.code == POSITIVE
    && var d := DecodeAddressAndLength(q, 1);
       d.Good? && |SafeCopy([ResponseSid(0x23)], a.data)| != 1 + d.size
  }

  lemma MemoryShape(x: Xfer, sec: Security, q: Request, a: Answer)
    requires ValidRequest(q) && q.buf[0] == 0x23
    ensures var h := WithState(x, sec, ReadMemoryByAddress(q, a));
            if ShortCopy(q, a)
            then h.code == GENERAL_PROGRAMMING_FAILURE && h.response == SafeCopy([ResponseSid(0x23)], a.data)
            else Shaped(h, 0x23)
  {
  }

  lemma SmallShape(x: Xfer, sec: Security, q: Request, a: Answer)
    requires ValidRequest(q)
    ensures Shaped(WithState(x, sec, DiagnosticSessionControl(q, a)), q.buf[0])
    ensures Shaped(WithState(x, sec, EcuReset(q, a)), q.buf[0])
    ensures Shaped(WithState(x, sec, CommunicationControl(q, a)), q.buf[0])
    ensures Shaped(WithState(x, sec, WriteDataByIdentifier(q, a)), q.buf[0])
    ensures Shaped(WithState(x, sec, TesterPresent(q)), q.buf[0])
    ensures Shaped(WithState(x, sec, ControlDtcSetting(q)), q.buf[0])
  {
  }

  lemma LargeShape(x: Xfer, sec: Security, q: Request, a: Answer)
    requires ValidRequest(q)
    ensures Shaped(WithState(x, sec, RoutineControl(q, a)), q.buf[0])
    ensures Shaped(WithState(x, sec, ReadDataByIdentifier(q, a)), q.buf[0])
  {
    ReadShape(q, 0, q.len / 2 % 256, a.readings, [ResponseSid(q.buf[0])]);
  }

  lemma OtherShape(x: Xfer, sec: Security, q: Request, a: Answer)
    requires ValidRequest(q) && q.buf[0] != 0x23
    ensures Shaped(WithState(x, sec, OtherService(q, a)), q.buf[0])
  {
    SmallShape(x, sec, q, a);
    LargeShape(x, sec, q, a);
  }

  /** Every handler is shaped, with the one exception. */
  ghost predicate ShapedUnlessShort(h: Handled, q: Request, a: Answer)
    requires ValidRequest(q)
  {
    if ShortCopy(q, a)
    then h.code == GENERAL_PROGRAMMING_FAILURE && h.response == SafeCopy([ResponseSid(0x23)], a.data)
    else Shaped(h, q.buf[0])
  }

  lemma StatelessShape(c: Clock, x: Xfer, sec: Security, pending: bool, q: Request, now: int, a: Answer)
    requires ValidRequest(q) && q.buf[0] !in [0x27, 0x34, 0x35, 0x36, 0x37, 0x38]
    ensures ShapedUnlessShort(Service(c, x, sec, pending, q, now, a), q, a)
  {
    if q.buf[0] == 0x23 {
      MemoryShape(x, sec, q, a);
    } else {
      OtherShape(x, sec, q, a);
    }
  }

  lemma ServiceShape(c: Clock, x: Xfer, sec: Security, pending: bool, q: Request, now: int, a: Answer)
    requires ValidRequest(q)
    ensures ShapedUnlessShort(Service(c, x, sec, pending, q, now, a), q, a)
  {
    if q.buf[0] in [0x27, 0x34, 0x35, 0x36, 0x37, 0x38] {
      TransferShape(x, sec, pending, q, a);
      RequestShape(q.buf[0], x, sec, q, a);
      SecurityShape(c, x, sec, q, now, a);
    } else {
      StatelessShape(c, x, sec, pending, q, now, a);
    }
  }

  /** A rule of section 7.5.5 of ISO 14229-1:2013 that leaves a request without a response. */
  predicate Suppressed(q: Request, code: byte)
    requires ValidRequest(q)
  {
    && q.buf[0] in [0x10, 0x11, 0x22, 0x23, 0x27, 0x28, 0x2E, 0x31, 0x34, 0x35, 0x36, 0x37, 0x38, 0x3E, 0x85]
    && ((q.functional && code in [0x11, 0x12, 0x31, 0x7E, 0x7F])
        || (q.buf[0] in [0x10, 0x11, 0x27, 0x28, 0x31, 0x3E, 0x85] && q.buf[1] >= 0x80 && code == POSITIVE))
  }

  /** The evaluation only drops the service's response, or refuses a service without a handler. */
  lemma EvaluateSuppresses(c: Clock, x: Xfer, sec: Security, pending: bool, q: Request, now: int, a: Answer)
    requires ValidRequest(q)
    ensures var h, service := Evaluate(c, x, sec, pending, q, now, a), Service(c, x, sec, pending, q, now, a);
            if HasHandler(q.buf[0])
            then h.code == service.code && h.response == if Suppressed(q, service.code) then [] else service.response
            else h.code == SERVICE_NOT_SUPPORTED && h.response == Negative(q.buf[0], SERVICE_NOT_SUPPORTED)
  {
  }

  /** What is left of a handler's response. */
  lemma ShapedResponse(q: Request, a: Answer, service: Handled, h: Handled)
    requires ValidRequest(q) && ShapedUnlessShort(service, q, a) && HasHandler(q.buf[0])
    requires h.code == service.code && h.response == if Suppressed(q, service.code) then [] else service.response
    ensures |h.response| <= MTU && (h.response == [] <==> Suppressed(q, h.code))
    ensures h.response != [] && h.code != POSITIVE ==>
              (h.response == Negative(q.buf[0], h.code) <==> !ShortCopy(q, a))
    ensures h.response != [] && h.code == POSITIVE ==> h.response[0] == q.buf[0] + 0x40 != 0x7F
    ensures ShortCopy(q, a) ==>
              h.code == GENERAL_PROGRAMMING_FAILURE && h.response == SafeCopy([ResponseSid(0x23)], a.data)
  {
  }

  /** For every request and every answer of the user function: the response fits the send buffer, is empty exactly
      when a rule suppresses it, and is otherwise the negative response with the returned code or starts with the
      response identifier. The failure of ReadMemoryByAddress after a short copy, and it alone, is returned without a
      negative response: what has been copied is sent as if it were a positive one. A service without a handler is
      answered in any case. */
  lemma ResponseShape(c: Clock, x: Xfer, sec: Security, pending: bool, q: Request, now: int, a: Answer)
    requires ValidRequest(q)
    ensures var h := Evaluate(c, x, sec, pending, q, now, a);
            && |h.response| <= MTU
            && (h.response == [] <==> Suppressed(q, h.code))
            && (h.response != [] && h.code != POSITIVE ==>
                  (h.response == Negative(q.buf[0], h.code) <==> !ShortCopy(q, a)))
            && (h.response != [] && h.code == POSITIVE ==> h.response[0] == q.buf[0] + 0x40 != 0x7F)
            && (ShortCopy(q, a) ==>
                  h.code == GENERAL_PROGRAMMING_FAILURE && h.response == SafeCopy([ResponseSid(0x23)], a.data))
  {
    ServiceShape(c, x, sec, pending, q, now, a);
    EvaluateSuppresses(c, x, sec, pending, q, now, a);
    if HasHandler(q.buf[0]) {
      ShapedResponse(q, a, Service(c, x, sec, pending, q, now, a), Evaluate(c, x, sec, pending, q, now, a));
    }
  }

  /** The exception occurs: one byte is asked for and none is copied. */
  lemma ShortCopyOccurs(c: Clock, x: Xfer, sec: Security, now: int)
    ensures var q := Request([0x23, 0x11, 0, 1] + Zeros(MTU - 4), 4, false);
            var a := Answer(POSITIVE, [], 0);
            var h := Evaluate(c, x, sec, false, q, now, a);
            && ValidRequest(q) && ShortCopy(q, a)
            && h.code == GENERAL_PROGRAMMING_FAILURE && h.response == [ResponseSid(0x23)]
  {
    OneByteAsked(Request([0x23, 0x11, 0, 1] + Zeros(MTU - 4), 4, false));
  }

  lemma OneByteAsked(q: Request)
    requires ValidRequest(q) && q.len == 4 && q.buf[1] == 0x11 && q.buf[3] == 1
    ensures DecodeAddressAndLength(q, 1).Good? && DecodeAddressAndLength(q, 1).size == 1
  {
    var w := Window(q, 3, 1);
    assert w == [1];
    assert BigEndian.Decode(w) == 1;
  }

  // ----- one final answer per request

  /** An observer's view of the request handling. */
  datatype Phase = Free | Busy(sid: byte) | Answered

  /** The next phase, or None if the event is out of order. */
  function Observe(p: Phase, e: Event): Option<Phase> {
    match e
    case Accepted(q) => if p.Free? && |q.buf| == MTU then Some(Busy(q.buf[0])) else None
    case SecurityAsked(_, _, _) => if p.Busy? then Some(p) else None
    case Sent(response, _) =>
      if !p.Busy? then None
      else if response == Negative(p.sid, RESPONSE_PENDING) then Some(p) else Some(Answered)
    case Acked => if p.Answered? then Some(Free) else None
  }

  /** A response-pending message. */
  predicate IsPending(response: seq<byte>) {
    |response| == 3 && response[0] == 0x7F && response[2] == RESPONSE_PENDING
  }

  function PhaseOf(s: Server): Phase
    requires ValidServer(s)
  {
    if s.inProgress then Busy(s.request.buf[0]) else Free
  }

  /** Only a request in progress has a pending answer, and the response buffer says so. */
  ghost predicate Consistent(s: Server) {
    && ValidServer(s) && (s.pending ==> s.inProgress)
    && (s.pending ==> s.response == Negative(s.request.buf[0], RESPONSE_PENDING))
    && (s.inProgress && !s.pending ==> !IsPending(s.response))
  }

  lemma AskedObserved(q: Request, h: Handled, now: int, a: Answer)
    requires ValidRequest(q)
    ensures Watch(Observe, Busy(q.buf[0]), Asked(q, h, now, a)) == Some(Busy(q.buf[0]))
  {
  }

  lemma PendingOrNot(q: Request, a: Answer, service: Handled, h: Handled)
    requires ValidRequest(q) && ShapedUnlessShort(service, q, a) && HasHandler(q.buf[0])
    requires h.code == service.code && h.response == if Suppressed(q, service.code) then [] else service.response
    ensures if h.code == RESPONSE_PENDING then h.response == Negative(q.buf[0], RESPONSE_PENDING)
            else !IsPending(h.response)
  {
    ShapedResponse(q, a, service, h);
    if ShortCopy(q, a) {
      assert h.response[0] == ResponseSid(0x23);
    }
  }

  /** A pending code and a pending response go together. */
  lemma PendingShape(c: Clock, x: Xfer, sec: Security, pending: bool, q: Request, now: int, a: Answer)
    requires ValidRequest(q)
    ensures var h := Evaluate(c, x, sec, pending, q, now, a);
            if h.code == RESPONSE_PENDING then h.response == Negative(q.buf[0], RESPONSE_PENDING)
            else !IsPending(h.response)
  {
    ServiceShape(c, x, sec, pending, q, now, a);
    EvaluateSuppresses(c, x, sec, pending, q, now, a);
    if HasHandler(q.buf[0]) {
      PendingOrNot(q, a, Service(c, x, sec, pending, q, now, a), Evaluate(c, x, sec, pending, q, now, a));
    }
  }

  lemma EvaluatedIs(c: Clock, s: Server, q: Request, e: Env)
    requires ValidRequest(q)
    ensures var (s1, code, asked) := Evaluated(c, s, q, e);
            var h := Evaluate(c, s.xfer, s.sec, s.pending, q, e.now, e.answer);
            s1.response == h.response && code == h.code && asked == Asked(q, h, e.now, e.answer)
  {
  }

  lemma EvaluatedResponse(c: Clock, s: Server, q: Request, e: Env)
    requires ValidRequest(q)
    ensures var (s1, code, asked) := Evaluated(c, s, q, e);
            && (code == RESPONSE_PENDING ==> s1.response == Negative(q.buf[0], RESPONSE_PENDING))
            && (code != RESPONSE_PENDING ==> !IsPending(s1.response))
            && Watch(Observe, Busy(q.buf[0]), asked) == Some(Busy(q.buf[0]))
  {
    EvaluatedIs(c, s, q, e);
    PendingShape(c, s.xfer, s.sec, s.pending, q, e.now, e.answer);
    AskedObserved(q, Evaluate(c, s.xfer, s.sec, s.pending, q, e.now, e.answer), e.now, e.answer);
  }

  lemma SendObserved(c: Clock, s: Server, now: int)
    requires Consistent(s) && s.inProgress
    ensures var (s1, sent) := SendResponse(c, s, now);
            Consistent(s1) && Watch(Observe, PhaseOf(s), sent) == Some(PhaseOf(s1))
  {
    if After(c, now, s.p2Timer) {
      if s.pending {
        WatchOne(Observe, PhaseOf(s), Sent(s.response, now));
      } else {
        WatchTwo(Observe, PhaseOf(s), Sent(s.response, now), Acked);
      }
    }
  }

  lemma PollObserved(c: Clock, s: Server, e: Env)
    requires Consistent(s) && ValidEnv(e)
    ensures var (s1, events) := Poll(c, s, e);
            Consistent(s1) && Watch(Observe, PhaseOf(s), events) == Some(PhaseOf(s1))
  {
    if s.inProgress {
      var (s1, asked) := Reevaluate(c, s, e);
      var (s2, sent) := SendResponse(c, s1, e.now);
      if s.pending {
        EvaluatedResponse(c, s, s.request, e);
      }
      assert Consistent(s1) && PhaseOf(s1) == PhaseOf(s);
      WatchConcat(Observe, PhaseOf(s), asked, sent);
      SendObserved(c, s1, e.now);
    } else if !s.notReady && e.arrival.Some? {
      var q := e.arrival.value;
      EvaluatedResponse(c, s, q, e);
      WatchConcat(Observe, Free, [Accepted(q)], Evaluated(c, s, q, e).2);
    }
  }

  /** Every run, whatever arrives and whatever the user function answers: an accepted request is answered by any number
      of pending responses, then by exactly one other send, then acknowledged; and a pending answer belongs to a request
      in progress. */
  lemma {:induction false} AnsweredOnce(c: Clock, s: Server, envs: seq<Env>)
    requires Consistent(s) && ValidEnvs(envs)
    ensures var (end, trace) := Run(c, s, envs);
            Consistent(end) && Watch(Observe, PhaseOf(s), trace) == Some(PhaseOf(end))
    decreases |envs|
  {
    if envs != [] {
      PollObserved(c, s, envs[0]);
      var (s1, events) := Poll(c, s, envs[0]);
      AnsweredOnce(c, s1, envs[1..]);
      WatchConcat(Observe, PhaseOf(s), events, Run(c, s1, envs[1..]).1);
    }
  }

  /** Accepted requests, final sends and acknowledgements of a trace, for an observer starting in phase p. */
  datatype Tally = Tally(accepted: nat, finals: nat, acked: nat)

  function Count(p: Phase, trace: seq<Event>): Tally
    decreases |trace|
  {
    if trace == [] then Tally(0, 0, 0)
    else
      match Observe(p, trace[0])
      case None => Tally(0, 0, 0)
      case Some(p1) =>
        var n := Count(p1, trace[1..]);
        match trace[0]
        case Accepted(_) => n.(accepted := n.accepted + 1)
        case Sent(_, _) => if p1.Answered? then n.(finals := n.finals + 1) else n
        case Acked => n.(acked := n.acked + 1)
        case _ => n
  }

  /** In an orderly trace the three counts differ by the requests still open at its ends. */
  lemma {:induction false} OrderlyCounts(p: Phase, trace: seq<Event>)
    requires Watch(Observe, p, trace).Some?
    ensures var n, end := Count(p, trace), Watch(Observe, p, trace).value;
            && n.accepted + (if p.Free? then 0 else 1) == n.acked + (if end.Free? then 0 else 1)
            && n.finals + (if p.Answered? then 1 else 0) == n.acked + (if end.Answered? then 1 else 0)
    decreases |trace|
  {
    if trace != [] {
      OrderlyCounts(Observe(p, trace[0]).value, trace[1..]);
    }
  }

  /** From an idle server: as many final answers as acknowledgements, and one per accepted request but the open one. */
  lemma OneAnswerPerRequest(c: Clock, s: Server, envs: seq<Env>)
    requires Consistent(s) && !s.inProgress && ValidEnvs(envs)
    ensures var (end, trace) := Run(c, s, envs);
            var n := Count(Free, trace);
            n.finals == n.acked && n.accepted == n.acked + (if end.inProgress then 1 else 0)
  {
    AnsweredOnce(c, s, envs);
    OrderlyCounts(Free, Run(c, s, envs).1);
  }

  // ----- pacing

  /** The latest send, and whether it was a pending response to the request still open. */
  datatype Pace = Pace(last: Option<int>, wasPending: bool)

  /** The shortest distance of any two sends. */
  function Shorter(s: Server): nat {
    Min(s.p2, s.p2Star * 3 / 10)
  }

  /** Any two sends are more than `any` apart, two pending responses to one request more than `both`. */
  function Keep(p: Pace, e: Event, any: nat, both: nat): Option<Pace> {
    match e
    case Accepted(_) => Some(p.(wasPending := false))
    case Sent(response, at) =>
      if p.last.Some? && at - p.last.value <= (if p.wasPending && IsPending(response) then both else any) then None
      else Some(Pace(Some(at), IsPending(response)))
    case _ => Some(p)
  }

  function PaceRule(any: nat, both: nat): (Pace, Event) -> Option<Pace> {
    (p, e) => Keep(p, e, any, both)
  }

  /** The P2 timer protects the pace. */
  ghost predicate Timed(s: Server, p: Pace, now: int) {
    p.last.Some? ==>
      && p.last.value <= now
      && s.p2Timer >= p.last.value + Shorter(s)
      && (p.wasPending && s.pending ==> s.p2Timer >= p.last.value + s.p2Star * 3 / 10)
  }

  lemma AskedIsSilent(p: Pace, q: Request, h: Handled, now: int, a: Answer, s: Server)
    requires ValidRequest(q)
    ensures Watch(PaceRule(Shorter(s), s.p2Star * 3 / 10), p, Asked(q, h, now, a)) == Some(p)
  {
  }

  lemma PollTimed(s: Server, e: Env, p: Pace, before: int)
    requires Consistent(s) && ValidEnv(e) && Timed(s, p, before) && before <= e.now
    ensures var (s1, events) := Poll(Unbounded, s, e);
            && s1.p2 == s.p2 && s1.p2Star == s.p2Star && Consistent(s1)
            && Watch(PaceRule(Shorter(s), s.p2Star * 3 / 10), p, events).Some?
            && Timed(s1, Watch(PaceRule(Shorter(s), s.p2Star * 3 / 10), p, events).value, e.now)
  {
    PollObserved(Unbounded, s, e);
    if s.inProgress {
      var h := Evaluate(Unbounded, s.xfer, s.sec, s.pending, s.request, e.now, e.answer);
      AskedIsSilent(p, s.request, h, e.now, e.answer, s);
      if s.pending {
        EvaluatedResponse(Unbounded, s, s.request, e);
      }
      var (s1, asked) := Reevaluate(Unbounded, s, e);
      assert Timed(s1, p, e.now) && Consistent(s1);
      assert Watch(PaceRule(Shorter(s), s.p2Star * 3 / 10), p, asked) == Some(p);
      SendTimed(s1, e.now, p);
      WatchConcat(PaceRule(Shorter(s), s.p2Star * 3 / 10), p, asked, SendResponse(Unbounded, s1, e.now).1);
    } else if !s.notReady && e.arrival.Some? {
      var q := e.arrival.value;
      var h := Evaluate(Unbounded, s.xfer, s.sec, s.pending, q, e.now, e.answer);
      AskedIsSilent(p.(wasPending := false), q, h, e.now, e.answer, s);
      WatchConcat(PaceRule(Shorter(s), s.p2Star * 3 / 10), p, [Accepted(q)], Evaluated(Unbounded, s, q, e).2);
    }
  }

  lemma SendTimed(s: Server, now: int, p: Pace)
    requires Consistent(s) && s.inProgress && Timed(s, p, now)
    ensures var (s1, events) := SendResponse(Unbounded, s, now);
            && Watch(PaceRule(Shorter(s), s.p2Star * 3 / 10), p, events).Some?
            && Timed(s1, Watch(PaceRule(Shorter(s), s.p2Star * 3 / 10), p, events).value, now)
  {
    if now > s.p2Timer {
      if s.pending {
        WatchOne(PaceRule(Shorter(s), s.p2Star * 3 / 10), p, Sent(s.response, now));
      } else {
        WatchTwo(PaceRule(Shorter(s), s.p2Star * 3 / 10), p, Sent(s.response, now), Acked);
      }
    }
  }

  /** The clock does not go back. */
  ghost predicate Monotone(envs: seq<Env>, from: int) {
    envs == [] || (from <= envs[0].now && Monotone(envs[1..], envs[0].now))
  }

  /** Every run with a clock that does not go back: sends keep the distances of table 4 of ISO 14229-2:2013. */
  lemma {:induction false} Paced(s: Server, envs: seq<Env>, p: Pace, before: int)
    requires Consistent(s) && Timed(s, p, before) && Monotone(envs, before) && ValidEnvs(envs)
    ensures Watch(PaceRule(Min(s.p2, s.p2Star * 3 / 10), s.p2Star * 3 / 10), p, Run(Unbounded, s, envs).1).Some?
    decreases |envs|
  {
    if envs != [] {
      PollTimed(s, envs[0], p, before);
      var (s1, events) := Poll(Unbounded, s, envs[0]);
      Paced(s1, envs[1..], Watch(PaceRule(Shorter(s), s.p2Star * 3 / 10), p, events).value, envs[0].now);
      WatchConcat(PaceRule(Shorter(s), s.p2Star * 3 / 10), p, events, Run(Unbounded, s1, envs[1..]).1);
    }
  }

  // ----- the rate of security access

  /** No security access callback within the boot delay or within the delay after a failed key. */
  function Admit(lastFail: Option<int>, e: Event, boot: int): Option<Option<int>> {
    match e
    case SecurityAsked(at, isKey, failed) =>
      if at <= boot || (lastFail.Some? && at <= lastFail.value + AUTH_FAIL_DELAY) then None
      else Some(if isKey && failed then Some(at) else lastFail)
    case _ => Some(lastFail)
  }

  function AdmitRule(boot: int): (Option<int>, Event) -> Option<Option<int>> {
    (l, e) => Admit(l, e, boot)
  }

  ghost predicate Guarded(s: Server, l: Option<int>) {
    l.Some? ==> s.sec.authFailTimer == l.value + AUTH_FAIL_DELAY
  }

  lemma SecurityGuarded(x: Xfer, sec: Security, q: Request, now: int, a: Answer, l: Option<int>)
    requires ValidRequest(q) && (l.Some? ==> sec.authFailTimer == l.value + AUTH_FAIL_DELAY)
    ensures var h := SecurityAccess(Unbounded, x, sec, q, now, a);
            var fails := q.buf[1] % 2 == 0 && a.code != POSITIVE;
            && h.sec.bootDelayTimer == sec.bootDelayTimer
            && (h.asked ==> now > sec.bootDelayTimer && (l.Some? ==> now > l.value + AUTH_FAIL_DELAY))
            && h.sec.authFailTimer == if h.asked && fails then now + AUTH_FAIL_DELAY else sec.authFailTimer
  {
  }

  lemma SecurityEvaluated(c: Clock, x: Xfer, sec: Security, pending: bool, q: Request, now: int, a: Answer)
    requires ValidRequest(q) && q.buf[0] == SID_SECURITY_ACCESS
    ensures var h, h1 := Evaluate(c, x, sec, pending, q, now, a), SecurityAccess(c, x, sec, q, now, a);
            h.xfer == h1.xfer && h.sec == h1.sec && h.code == h1.code && h.asked == h1.asked
  {
  }

  lemma EvaluatedGuarded(s: Server, q: Request, e: Env, l: Option<int>)
    requires ValidRequest(q) && Guarded(s, l)
    ensures var (s1, _, asked) := Evaluated(Unbounded, s, q, e);
            && s1.sec.bootDelayTimer == s.sec.bootDelayTimer
            && Watch(AdmitRule(s.sec.bootDelayTimer), l, asked).Some?
            && Guarded(s1, Watch(AdmitRule(s.sec.bootDelayTimer), l, asked).value)
  {
    var h := Evaluate(Unbounded, s.xfer, s.sec, s.pending, q, e.now, e.answer);
    if q.buf[0] == SID_SECURITY_ACCESS {
      SecurityGuarded(s.xfer, s.sec, q, e.now, e.answer, l);
      SecurityEvaluated(Unbounded, s.xfer, s.sec, s.pending, q, e.now, e.answer);
      if h.asked {
        WatchOne(AdmitRule(s.sec.bootDelayTimer), l,
                 SecurityAsked(e.now, q.buf[1] % 2 == 0, e.answer.code != POSITIVE));
      }
    }
  }

  lemma PollGuarded(s: Server, e: Env, l: Option<int>)
    requires ValidServer(s) && ValidEnv(e) && Guarded(s, l)
    ensures var (s1, events) := Poll(Unbounded, s, e);
            && s1.sec.bootDelayTimer == s.sec.bootDelayTimer
            && Watch(AdmitRule(s.sec.bootDelayTimer), l, events).Some?
            && Guarded(s1, Watch(AdmitRule(s.sec.bootDelayTimer), l, events).value)
  {
    var boot := s.sec.bootDelayTimer;
    if s.inProgress {
      var (s1, asked) := Reevaluate(Unbounded, s, e);
      var (s2, sent) := SendResponse(Unbounded, s1, e.now);
      if s.pending {
        EvaluatedGuarded(s, s.request, e, l);
      }
      WatchConcat(AdmitRule(boot), l, asked, sent);
      SentAdmitted(s1, e.now, Watch(AdmitRule(boot), l, asked).value, boot);
    } else if !s.notReady && e.arrival.Some? {
      EvaluatedGuarded(s, e.arrival.value, e, l);
      WatchConcat(AdmitRule(boot), l, [Accepted(e.arrival.value)], Evaluated(Unbounded, s, e.arrival.value, e).2);
    }
  }

  lemma SentAdmitted(s: Server, now: int, l: Option<int>, boot: int)
    ensures Watch(AdmitRule(boot), l, SendResponse(Unbounded, s, now).1) == Some(l)
  {
    if now > s.p2Timer {
      if s.pending {
        WatchOne(AdmitRule(boot), l, Sent(s.response, now));
      } else {
        WatchTwo(AdmitRule(boot), l, Sent(s.response, now), Acked);
      }
    }
  }

  /** Every run: after a failed key no seed and no key is looked at for more than 1000 ms, and none in the boot
      delay. */
  lemma {:induction false} AttemptsAdmitted(s: Server, envs: seq<Env>, l: Option<int>)
    requires ValidServer(s) && Guarded(s, l) && ValidEnvs(envs)
    ensures Watch(AdmitRule(s.sec.bootDelayTimer), l, Run(Unbounded, s, envs).1).Some?
    decreases |envs|
  {
    if envs != [] {
      var boot := s.sec.bootDelayTimer;
      PollGuarded(s, envs[0], l);
      var (s1, events) := Poll(Unbounded, s, envs[0]);
      AttemptsAdmitted(s1, envs[1..], Watch(AdmitRule(boot), l, events).value);
      WatchConcat(AdmitRule(boot), l, events, Run(Unbounded, s1, envs[1..]).1);
    }
  }

  predicate FailedKey(e: Event) {
    e.SecurityAsked? && e.isKey && e.failed
  }

  /** Failed key checks at times from..to. */
  function FailuresIn(trace: seq<Event>, from: int, to: int): nat {
    if trace == [] then 0
    else (if FailedKey(trace[0]) && from <= trace[0].at <= to then 1 else 0) + FailuresIn(trace[1..], from, to)
  }

  /** Admitted failures are more than 1000 ms apart, so a window holds few of them. */
  lemma {:induction false} FewFailures(l: Option<int>, trace: seq<Event>, boot: int, from: int, to: int)
    requires Watch(AdmitRule(boot), l, trace).Some? && from <= to
    ensures l.None? || l.value < from ==> FailuresIn(trace, from, to) <= (to - from) / 1001 + 1
    ensures l.Some? && from <= l.value <= to ==> FailuresIn(trace, from, to) <= (to - l.value) / 1001
    ensures l.Some? && l.value > to ==> FailuresIn(trace, from, to) == 0
    decreases |trace|
  {
    if trace != [] {
      FewFailures(Admit(l, trace[0], boot).value, trace[1..], boot, from, to);
    }
  }

  /** In any window of T ms of any run there are at most T / 1001 + 1 failed key checks. */
  lemma FailureRate(s: Server, envs: seq<Env>, from: int, to: int)
    requires ValidServer(s) && from <= to && ValidEnvs(envs)
    ensures FailuresIn(Run(Unbounded, s, envs).1, from, to) <= (to - from) / 1001 + 1
  {
    AttemptsAdmitted(s, envs, None);
    FewFailures(None, Run(Unbounded, s, envs).1, s.sec.bootDelayTimer, from, to);
  }
}
