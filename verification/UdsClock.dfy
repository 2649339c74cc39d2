/** The server with 32-bit timers takes the same steps as a server whose timers never wrap. */
module UdsClock {
  import opened Clock
  import opened Uds

  // ----- the 32-bit image of a state

  function WrapSecurity(sec: Security): Security {
    sec.(authFailTimer := Store(Wrapping, sec.authFailTimer), bootDelayTimer := Store(Wrapping, sec.bootDelayTimer))
  }

  function WrapServer(s: Server): Server {
    s.(sec := WrapSecurity(s.sec), p2Timer := Store(Wrapping, s.p2Timer))
  }

  function WrapEnv(e: Env): Env {
    e.(now := Store(Wrapping, e.now))
  }

  function WrapHandled(h: Handled): Handled {
    h.(sec := WrapSecurity(h.sec))
  }

  function WrapEvent(e: Event): Event {
    match e
    case SecurityAsked(at, isKey, failed) => SecurityAsked(Store(Wrapping, at), isKey, failed)
    case Sent(response, at) => Sent(response, Store(Wrapping, at))
    case _ => e
  }

  function WrapTrace(trace: seq<Event>): seq<Event> {
    if trace == [] then [] else [WrapEvent(trace[0])] + WrapTrace(trace[1..])
  }

  function WrapEnvs(envs: seq<Env>): (r: seq<Env>)
    ensures |r| == |envs|
    ensures ValidEnvs(envs) ==> ValidEnvs(r)
  {
    if envs == [] then [] else [WrapEnv(envs[0])] + WrapEnvs(envs[1..])
  }

  lemma {:induction false} WrapConcat(t1: seq<Event>, t2: seq<Event>)
    ensures WrapTrace(t1 + t2) == WrapTrace(t1) + WrapTrace(t2)
    decreases |t1|
  {
    if t1 == [] {
      assert t1 + t2 == t2;
    } else {
      assert (t1 + t2)[1..] == t1[1..] + t2;
      WrapConcat(t1[1..], t2);
    }
  }

  // ----- the comparisons that a poll makes stay within half a clock period

  /** The evaluation of q looks at the security timers, at the second only if the first has expired. */
  ghost predicate NearEvaluation(sec: Security, q: Request, now: int)
    requires ValidRequest(q)
  {
    q.buf[0] == SID_SECURITY_ACCESS && !LevelIsReserved(q.buf[1]) ==>
      Near(now, sec.bootDelayTimer) && (now > sec.bootDelayTimer ==> Near(now, sec.authFailTimer))
  }

  /** A poll evaluates a request that arrives or is pending, and looks at the P2 timer if a request is in progress. */
  ghost predicate NearPoll(s: Server, e: Env)
    requires ValidServer(s) && ValidEnv(e)
  {
    if s.inProgress
    then (s.pending ==> NearEvaluation(s.sec, s.request, e.now))
         && Near(e.now, Reevaluate(Unbounded, s, e).0.p2Timer)
    else !s.notReady && e.arrival.Some? ==> NearEvaluation(s.sec, e.arrival.value, e.now)
  }

  ghost predicate NearRun(s: Server, envs: seq<Env>)
    requires ValidServer(s) && ValidEnvs(envs)
    decreases |envs|
  {
    envs == [] || (NearPoll(s, envs[0]) && NearRun(Poll(Unbounded, s, envs[0]).0, envs[1..]))
  }

  // ----- every operation commutes with the image

  lemma WrapSecurityAccess(x: Xfer, sec: Security, q: Request, now: int, a: Answer)
    requires ValidRequest(q) && q.buf[0] == SID_SECURITY_ACCESS && NearEvaluation(sec, q, now)
    ensures SecurityAccess(Wrapping, x, WrapSecurity(sec), q, Store(Wrapping, now), a)
            == WrapHandled(SecurityAccess(Unbounded, x, sec, q, now, a))
  {
    if !LevelIsReserved(q.buf[1]) {
      TimeAfterIsAfter(now, sec.bootDelayTimer);
      if now > sec.bootDelayTimer {
        TimeAfterIsAfter(now, sec.authFailTimer);
      }
    }
    StorePlus(now, AUTH_FAIL_DELAY);
  }

  lemma WrapService(x: Xfer, sec: Security, pending: bool, q: Request, now: int, a: Answer)
    requires ValidRequest(q) && NearEvaluation(sec, q, now)
    ensures Service(Wrapping, x, WrapSecurity(sec), pending, q, Store(Wrapping, now), a)
            == WrapHandled(Service(Unbounded, x, sec, pending, q, now, a))
  {
    if q.buf[0] == SID_SECURITY_ACCESS {
      WrapSecurityAccess(x, sec, q, now, a);
    }
  }

  lemma WrapEvaluate(x: Xfer, sec: Security, pending: bool, q: Request, now: int, a: Answer)
    requires ValidRequest(q) && NearEvaluation(sec, q, now)
    ensures Evaluate(Wrapping, x, WrapSecurity(sec), pending, q, Store(Wrapping, now), a)
            == WrapHandled(Evaluate(Unbounded, x, sec, pending, q, now, a))
  {
    WrapService(x, sec, pending, q, now, a);
  }

  lemma WrapAsked(q: Request, h: Handled, now: int, a: Answer)
    requires ValidRequest(q)
    ensures Asked(q, WrapHandled(h), Store(Wrapping, now), a) == WrapTrace(Asked(q, h, now, a))
  {
  }

  lemma WrapEvaluated(s: Server, q: Request, e: Env)
    requires ValidRequest(q) && NearEvaluation(s.sec, q, e.now)
    ensures var (s1, code, asked) := Evaluated(Unbounded, s, q, e);
            Evaluated(Wrapping, WrapServer(s), q, WrapEnv(e)) == (WrapServer(s1), code, WrapTrace(asked))
  {
    WrapEvaluate(s.xfer, s.sec, s.pending, q, e.now, e.answer);
    WrapAsked(q, Evaluate(Unbounded, s.xfer, s.sec, s.pending, q, e.now, e.answer), e.now, e.answer);
  }

  lemma WrapReevaluate(s: Server, e: Env)
    requires ValidServer(s) && s.inProgress && (s.pending ==> NearEvaluation(s.sec, s.request, e.now))
    ensures var (s1, asked) := Reevaluate(Unbounded, s, e);
            Reevaluate(Wrapping, WrapServer(s), WrapEnv(e)) == (WrapServer(s1), WrapTrace(asked))
  {
    if s.pending {
      WrapEvaluated(s, s.request, e);
      StorePlus(e.now, s.p2);
    }
  }

  lemma WrapSendResponse(s: Server, now: int)
    requires Near(now, s.p2Timer)
    ensures var (s1, sent) := SendResponse(Unbounded, s, now);
            SendResponse(Wrapping, WrapServer(s), Store(Wrapping, now)) == (WrapServer(s1), WrapTrace(sent))
  {
    TimeAfterIsAfter(now, s.p2Timer);
    StorePlus(now, s.p2);
    StorePlus(now, PendingWait(s));
    WrapOne(Sent(s.response, now));
    WrapOne(Acked);
    assert [Sent(s.response, now), Acked] == [Sent(s.response, now)] + [Acked];
    WrapConcat([Sent(s.response, now)], [Acked]);
    var (s1, sent) := SendResponse(Unbounded, s, now);
    var (s2, sent2) := SendResponse(Wrapping, WrapServer(s), Store(Wrapping, now));
    assert sent2 == WrapTrace(sent);
    assert s2 == WrapServer(s1);
  }

  lemma WrapOne(e: Event)
    ensures WrapTrace([e]) == [WrapEvent(e)]
  {
    assert [e][1..] == [];
  }

  lemma WrapPoll(s: Server, e: Env)
    requires ValidServer(s) && ValidEnv(e) && NearPoll(s, e)
    ensures var (s1, events) := Poll(Unbounded, s, e);
            Poll(Wrapping, WrapServer(s), WrapEnv(e)) == (WrapServer(s1), WrapTrace(events))
  {
    if s.inProgress {
      WrapReevaluate(s, e);
      var (s1, asked) := Reevaluate(Unbounded, s, e);
      WrapSendResponse(s1, e.now);
      WrapConcat(asked, SendResponse(Unbounded, s1, e.now).1);
    } else if !s.notReady && e.arrival.Some? {
      var q := e.arrival.value;
      WrapEvaluated(s, q, e);
      WrapConcat([Accepted(q)], Evaluated(Unbounded, s, q, e).2);
    }
  }

  /** Whole runs in which the times that a poll compares are less than half a period apart: same states, same events,
      up to the 32-bit image of the times. */
  lemma {:induction false} WrapRun(s: Server, envs: seq<Env>)
    requires ValidServer(s) && ValidEnvs(envs) && NearRun(s, envs)
    ensures var (end, trace) := Run(Unbounded, s, envs);
            Run(Wrapping, WrapServer(s), WrapEnvs(envs)) == (WrapServer(end), WrapTrace(trace))
    decreases |envs|
  {
    if envs != [] {
      WrapPoll(s, envs[0]);
      var (s1, events) := Poll(Unbounded, s, envs[0]);
      WrapRun(s1, envs[1..]);
      WrapConcat(events, Run(Unbounded, s1, envs[1..]).1);
      assert WrapEnvs(envs)[1..] == WrapEnvs(envs[1..]);
    }
  }
}
