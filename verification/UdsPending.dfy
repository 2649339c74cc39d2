/** Response-pending answers (0x78): a request that is evaluated again and again ends as if it had been answered at
    once, with two exceptions: the check of a security key, and whether the server is still ready to receive after an
    ECU reset. */
module UdsPending {
  import opened Prelude
  import opened Bytes
  import opened Clock
  import opened Uds
  import opened UdsAnswering

  predicate IsKeyCheck(q: Request)
    requires ValidRequest(q)
  {
    q.buf[0] == SID_SECURITY_ACCESS && q.buf[1] % 2 == 0
  }

  // ----- one pending answer

  lemma TransferDataAgain(x: Xfer, sec: Security, q: Request, first: Answer, a: Answer)
    requires ValidRequest(q) && TransferData(x, sec, false, q, first).code == RESPONSE_PENDING
    ensures TransferData(TransferData(x, sec, false, q, first).xfer, sec, true, q, a)
            == TransferData(x, sec, false, q, a)
  {
  }

  lemma RequestsAgain(sid: byte, x: Xfer, sec: Security, q: Request, first: Answer)
    requires ValidRequest(q)
    ensures RequestLoad(sid, x, sec, q, first).code == RESPONSE_PENDING ==> RequestLoad(sid, x, sec, q, first).xfer == x
    ensures RequestFileTransfer(x, sec, q, first).code == RESPONSE_PENDING ==>
              RequestFileTransfer(x, sec, q, first).xfer == x
    ensures RequestTransferExit(x, sec, q, first).code == RESPONSE_PENDING ==>
              RequestTransferExit(x, sec, q, first).xfer == x
  {
  }

  lemma SeedAgain(c: Clock, x: Xfer, sec: Security, q: Request, now: int, first: Answer)
    requires ValidRequest(q) && q.buf[1] % 2 != 0
    requires SecurityAccess(c, x, sec, q, now, first).code == RESPONSE_PENDING
    ensures SecurityAccess(c, x, sec, q, now, first).sec == sec
  {
  }

  /** The service evaluated again after a pending answer does what it would have done in the first place. */
  lemma ServiceAgain(c: Clock, x: Xfer, sec: Security, q: Request, now: int, first: Answer, later: int, a: Answer)
    requires ValidRequest(q) && !IsKeyCheck(q) && Service(c, x, sec, false, q, now, first).code == RESPONSE_PENDING
    ensures var h := Service(c, x, sec, false, q, now, first);
            Service(c, h.xfer, h.sec, true, q, later, a) == Service(c, x, sec, false, q, later, a)
  {
    var sid := q.buf[0];
    if sid == SID_TRANSFER_DATA {
      TransferDataAgain(x, sec, q, first, a);
    } else if sid == SID_SECURITY_ACCESS {
      SeedAgain(c, x, sec, q, now, first);
    } else {
      RequestsAgain(sid, x, sec, q, first);
    }
  }

  lemma EvaluateAgain(c: Clock, x: Xfer, sec: Security, q: Request, now: int, first: Answer, later: int, a: Answer)
    requires ValidRequest(q) && !IsKeyCheck(q) && Evaluate(c, x, sec, false, q, now, first).code == RESPONSE_PENDING
    ensures var h := Evaluate(c, x, sec, false, q, now, first);
            Evaluate(c, h.xfer, h.sec, true, q, later, a) == Evaluate(c, x, sec, false, q, later, a)
  {
    ServiceAgain(c, x, sec, q, now, first, later, a);
  }

  // ----- any number of pending answers

  /** Every poll of the run leaves the answer pending. */
  ghost predicate StaysPending(c: Clock, s: Server, envs: seq<Env>)
    requires ValidServer(s) && ValidEnvs(envs)
    decreases |envs|
  {
    s.pending && s.inProgress
    && (envs == [] || StaysPending(c, Poll(c, s, envs[0]).0, envs[1..]))
  }

  /** Server s waits for the answer to request q that it took up in state (x, sec): evaluating q again means evaluating
      it as if for the first time. */
  ghost predicate Waiting(c: Clock, s: Server, x: Xfer, sec: Security, q: Request) {
    && ValidRequest(q) && ValidServer(s) && s.pending && s.inProgress && s.request == q
    && forall later, a :: Evaluate(c, s.xfer, s.sec, true, q, later, a) == Evaluate(c, x, sec, false, q, later, a)
  }

  lemma FirstPending(c: Clock, s: Server, e: Env)
    requires Consistent(s) && ValidEnv(e) && !s.inProgress && !s.notReady && e.arrival.Some?
    requires !IsKeyCheck(e.arrival.value) && Poll(c, s, e).0.pending
    ensures Waiting(c, Poll(c, s, e).0, s.xfer, s.sec, e.arrival.value)
  {
    var q := e.arrival.value;
    var s1 := Poll(c, s, e).0;
    forall later, a
      ensures Evaluate(c, s1.xfer, s1.sec, true, q, later, a) == Evaluate(c, s.xfer, s.sec, false, q, later, a)
    {
      EvaluateAgain(c, s.xfer, s.sec, q, e.now, e.answer, later, a);
    }
  }

  /** The poll that follows: its outcome is the one of a fresh evaluation with this poll's answer. */
  lemma NextPoll(c: Clock, s: Server, e: Env, x: Xfer, sec: Security, q: Request)
    requires Waiting(c, s, x, sec, q) && ValidEnv(e)
    ensures var s1, h := Poll(c, s, e).0, Evaluate(c, x, sec, false, q, e.now, e.answer);
            && s1.xfer == h.xfer && s1.sec == h.sec && s1.response == h.response && s1.request == q
            && (s1.pending <==> h.code == RESPONSE_PENDING)
            && (s1.pending ==> s1.inProgress)
  {
  }

  lemma NextPending(c: Clock, s: Server, e: Env, x: Xfer, sec: Security, q: Request)
    requires Waiting(c, s, x, sec, q) && ValidEnv(e) && !IsKeyCheck(q) && Poll(c, s, e).0.pending
    ensures Waiting(c, Poll(c, s, e).0, x, sec, q)
  {
    NextPoll(c, s, e, x, sec, q);
    var s1 := Poll(c, s, e).0;
    forall later, a ensures Evaluate(c, s1.xfer, s1.sec, true, q, later, a) == Evaluate(c, x, sec, false, q, later, a) {
      EvaluateAgain(c, x, sec, q, e.now, e.answer, later, a);
    }
  }

  lemma {:induction false} StillWaiting(c: Clock, s: Server, envs: seq<Env>, x: Xfer, sec: Security, q: Request)
    requires Waiting(c, s, x, sec, q) && ValidEnvs(envs) && !IsKeyCheck(q) && StaysPending(c, s, envs)
    ensures Waiting(c, Run(c, s, envs).0, x, sec, q)
    decreases |envs|
  {
    if envs != [] {
      NextPending(c, s, envs[0], x, sec, q);
      StillWaiting(c, Poll(c, s, envs[0]).0, envs[1..], x, sec, q);
    }
  }

  /** A positively answered ECU reset. */
  predicate IsReset(q: Request, code: byte)
    requires ValidRequest(q)
  {
    q.buf[0] == 0x11 && code == POSITIVE
  }

  /** The poll that ends the waiting makes the server ready to receive, even if it is about to reset. */
  lemma ReadyAgain(c: Clock, s: Server, e: Env)
    requires ValidServer(s) && ValidEnv(e) && s.inProgress && s.pending
    ensures var s1 := Poll(c, s, e).0; s1.notReady <==> s1.pending
  {
  }

  /** Request q is taken up with a pending answer, evaluated again with pending answers any number of times, and then
      met with the answer of environment e: transfer state, security state and response are those of a server whose
      user function gave e's answer at once. So is its readiness to receive, unless it was told to reset: answered at
      once it stops receiving, answered after a pending response it goes on. */
  lemma PendingIsTransparent(c: Clock, s: Server, first: Env, envs: seq<Env>, e: Env)
    requires Consistent(s) && !s.inProgress && !s.notReady
    requires ValidEnv(first) && first.arrival.Some? && ValidEnvs(envs) && ValidEnv(e)
    requires !IsKeyCheck(first.arrival.value)
    requires StaysPending(c, Poll(c, s, first).0, envs)
    ensures var q := first.arrival.value;
            var s1 := Poll(c, Run(c, Poll(c, s, first).0, envs).0, e).0;
            var h := Evaluate(c, s.xfer, s.sec, false, q, e.now, e.answer);
            var atOnce := Poll(c, s, Env(e.now, first.arrival, e.answer)).0;
            && s1.xfer == h.xfer && s1.sec == h.sec && s1.response == h.response
            && atOnce.xfer == h.xfer && atOnce.sec == h.sec && atOnce.response == h.response
            && (s1.pending <==> h.code == RESPONSE_PENDING)
            && (!s1.pending ==> !s1.notReady && (atOnce.notReady <==> IsReset(q, h.code)))
  {
    var q := first.arrival.value;
    FirstPending(c, s, first);
    StillWaiting(c, Poll(c, s, first).0, envs, s.xfer, s.sec, q);
    var waiting := Run(c, Poll(c, s, first).0, envs).0;
    NextPoll(c, waiting, e, s.xfer, s.sec, q);
    ReadyAgain(c, waiting, e);
    AtOnce(c, s, first.arrival, e);
  }

  lemma AtOnce(c: Clock, s: Server, arrival: Option<Request>, e: Env)
    requires Consistent(s) && !s.inProgress && !s.notReady && arrival.Some? && ValidRequest(arrival.value)
    ensures var q := arrival.value;
            var h := Evaluate(c, s.xfer, s.sec, false, q, e.now, e.answer);
            var s1 := Poll(c, s, Env(e.now, arrival, e.answer)).0;
            && s1.xfer == h.xfer && s1.sec == h.sec && s1.response == h.response
            && (s1.notReady <==> IsReset(q, h.code))
  {
  }

  lemma PendingKeepsXfer(c: Clock, x: Xfer, sec: Security, pending: bool, q: Request, now: int, a: Answer)
    requires ValidRequest(q) && q.buf[0] == SID_TRANSFER_DATA
    requires Evaluate(c, x, sec, pending, q, now, a).code == RESPONSE_PENDING
    ensures Evaluate(c, x, sec, pending, q, now, a).xfer
            == if pending then x else x.(counter := (x.counter + 1) % 256)
    ensures !pending ==> q.buf[1] == x.counter
  {
  }

  lemma {:induction false} XferStays(c: Clock, s: Server, envs: seq<Env>)
    requires ValidServer(s) && ValidEnvs(envs) && StaysPending(c, s, envs) && s.request.buf[0] == SID_TRANSFER_DATA
    ensures Run(c, s, envs).0.xfer == s.xfer
    decreases |envs|
  {
    if envs != [] {
      PendingKeepsXfer(c, s.xfer, s.sec, true, s.request, envs[0].now, envs[0].answer);
      XferStays(c, Poll(c, s, envs[0]).0, envs[1..]);
    }
  }

  /** The block counter of a TransferData request advances once, with the first of its evaluations. */
  lemma CounterAdvancesOnce(c: Clock, s: Server, first: Env, envs: seq<Env>)
    requires Consistent(s) && !s.inProgress && !s.notReady
    requires ValidEnv(first) && first.arrival.Some? && ValidEnvs(envs)
    requires first.arrival.value.buf[0] == SID_TRANSFER_DATA
    requires StaysPending(c, Poll(c, s, first).0, envs)
    ensures first.arrival.value.buf[1] == s.xfer.counter
    ensures Run(c, Poll(c, s, first).0, envs).0.xfer == s.xfer.(counter := (s.xfer.counter + 1) % 256)
  {
    PendingKeepsXfer(c, s.xfer, s.sec, false, first.arrival.value, first.now, first.answer);
    XferStays(c, Poll(c, s, first).0, envs);
  }

  // ----- the exception

  /** A key check answered "pending" at time t counts as a failed attempt: evaluated again it reaches the user function,
      and ends as if for the first time, exactly if more than 1000 ms have passed. */
  lemma PendingKeyCheck(x: Xfer, sec: Security, q: Request, t: int, first: Answer, later: int, a: Answer)
    requires ValidRequest(q) && IsKeyCheck(q) && t <= later
    requires Evaluate(Unbounded, x, sec, false, q, t, first).code == RESPONSE_PENDING
    ensures var h := Evaluate(Unbounded, x, sec, false, q, t, first);
            var again := Evaluate(Unbounded, h.xfer, h.sec, true, q, later, a);
            var anew := Evaluate(Unbounded, x, sec, false, q, later, a);
            && (again.asked && again.code == anew.code && again.response == anew.response
                && again.sec.level == anew.sec.level
                <==> later > t + AUTH_FAIL_DELAY)
            && (later <= t + AUTH_FAIL_DELAY ==> again.code == EXCEED_NUMBER_OF_ATTEMPTS && again.sec == h.sec)
  {
  }
}
