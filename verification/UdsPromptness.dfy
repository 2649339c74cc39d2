/** What the server's poll loop must do, and by when: a request is taken up, its answer is sent and acknowledged in
    time, and the server stays ready for the next one. */
module UdsPromptness {
  import opened Prelude
  import opened Bytes
  import opened Clock
  import opened Uds
  import opened UdsAnswering
  import opened UdsPending

  function Max(a: int, b: int): int {
    if a >= b then a else b
  }

  // ----- the time from which a send is due

  predicate Sends(events: seq<Event>) {
    exists i :: 0 <= i < |events| && events[i].Sent?
  }

  /** The time of the last send or of the end of a pending answer, `from` being the one so far. */
  function Latest(s: Server, e: Env, from: int): int
    requires ValidServer(s) && ValidEnv(e)
  {
    var (s1, events) := Poll(Unbounded, s, e);
    if (s.pending && !s1.pending) || Sends(events) then e.now else from
  }

  function Since(s: Server, envs: seq<Env>, from: int): int
    requires ValidServer(s) && ValidEnvs(envs)
    decreases |envs|
  {
    if envs == [] then from else Since(Poll(Unbounded, s, envs[0]).0, envs[1..], Latest(s, envs[0], from))
  }

  /** The next send is due by then. */
  ghost predicate Due(s: Server, from: int) {
    s.p2Timer <= from + Max(s.p2, s.p2Star * 3 / 10)
  }

  lemma PollDue(s: Server, e: Env, from: int)
    requires Consistent(s) && ValidEnv(e) && Due(s, from)
    ensures var s1 := Poll(Unbounded, s, e).0;
            Consistent(s1) && s1.p2 == s.p2 && s1.p2Star == s.p2Star && Due(s1, Latest(s, e, from))
  {
    PollObserved(Unbounded, s, e);
    if s.inProgress {
      var (s1, asked) := Reevaluate(Unbounded, s, e);
      ReevaluateDue(s, e, from);
      SendDue(s1, e.now, if s.pending && !s1.pending then e.now else from, asked);
    }
  }

  lemma ReevaluateDue(s: Server, e: Env, from: int)
    requires ValidServer(s) && s.inProgress && ValidEnv(e) && Due(s, from)
    ensures var s1 := Reevaluate(Unbounded, s, e).0;
            && s1.p2 == s.p2 && s1.p2Star == s.p2Star && (s1.pending ==> s.pending)
            && Due(s1, if s.pending && !s1.pending then e.now else from)
  {
  }

  lemma SendDue(s: Server, now: int, from: int, asked: seq<Event>)
    requires Due(s, from)
    ensures var (s1, sent) := SendResponse(Unbounded, s, now);
            && s1.p2 == s.p2 && s1.p2Star == s.p2Star && s1.pending == s.pending
            && if sent == [] then Due(s1, from) else Due(s1, now) && Sends(asked + sent)
  {
    var sent := SendResponse(Unbounded, s, now).1;
    if sent != [] {
      assert (asked + sent)[|asked|].Sent?;
    }
  }

  lemma {:induction false} RunDue(s: Server, envs: seq<Env>, from: int)
    requires Consistent(s) && ValidEnvs(envs) && Due(s, from)
    ensures var s1 := Run(Unbounded, s, envs).0;
            Consistent(s1) && s1.p2 == s.p2 && s1.p2Star == s.p2Star && Due(s1, Since(s, envs, from))
    decreases |envs|
  {
    if envs != [] {
      PollDue(s, envs[0], from);
      RunDue(Poll(Unbounded, s, envs[0]).0, envs[1..], Latest(s, envs[0], from));
    }
  }

  // ----- every poll that is late enough sends

  /** What a poll must show that finds the send due. */
  lemma DuePollSends(s: Server, e: Env)
    requires Consistent(s) && ValidEnv(e) && s.inProgress && e.now > s.p2Timer
    ensures var (s1, events) := Poll(Unbounded, s, e);
            && (!s.pending ==> events == [Sent(s.response, e.now), Acked] && !s1.inProgress)
            && (s.pending && s1.pending ==>
                  events != [] && events[|events| - 1] == Sent([0x7F, s.request.buf[0], 0x78], e.now))
  {
    if s.pending {
      EvaluatedResponse(Unbounded, s, s.request, e);
    }
  }

  /** In every run: a poll more than max(p2, 0.3 p2*) after the last send, or after the end of a pending answer,
      sends and acknowledges the response to a request in progress; while its answer is pending, it sends 7F with the
      request's identifier and 78. */
  lemma AnsweredInTime(s: Server, envs: seq<Env>, e: Env, from: int)
    requires Consistent(s) && Due(s, from) && ValidEnvs(envs) && ValidEnv(e)
    ensures var s1, since := Run(Unbounded, s, envs).0, Since(s, envs, from);
            var (s2, events) := Poll(Unbounded, s1, e);
            s1.inProgress && e.now > since + Max(s.p2, s.p2Star * 3 / 10) ==>
              && (!s1.pending ==> events == [Sent(s1.response, e.now), Acked] && !s2.inProgress)
              && (s1.pending && s2.pending ==>
                    events != [] && events[|events| - 1] == Sent([0x7F, s1.request.buf[0], 0x78], e.now))
  {
    RunDue(s, envs, from);
    var s1 := Run(Unbounded, s, envs).0;
    if s1.inProgress && e.now > s1.p2Timer {
      DuePollSends(s1, e);
    }
  }

  // ----- when exactly

  /** The time after which the next send leaves, `due` being the one so far: p2 after the end of a pending answer and
      after a final send, 0.3 p2* after a pending one. */
  function NextDue(s: Server, e: Env, due: int): int
    requires ValidServer(s) && ValidEnv(e)
  {
    var (s1, events) := Poll(Unbounded, s, e);
    if s.pending && !s1.pending then e.now + s.p2
    else if Sends(events) then e.now + (if s1.pending then s.p2Star * 3 / 10 else s.p2)
    else due
  }

  function DueAfter(s: Server, envs: seq<Env>, due: int): int
    requires ValidServer(s) && ValidEnvs(envs)
    decreases |envs|
  {
    if envs == [] then due else DueAfter(Poll(Unbounded, s, envs[0]).0, envs[1..], NextDue(s, envs[0], due))
  }

  /** What a poll of a request in progress sends: nothing before its time and at the end of a pending answer. */
  lemma PollSendsWhenDue(s: Server, e: Env)
    requires Consistent(s) && ValidEnv(e)
    ensures var (s1, events) := Poll(Unbounded, s, e);
            && (Sends(events) <==> s.inProgress && e.now > s.p2Timer && !(s.pending && !s1.pending))
            && s1.p2Timer == NextDue(s, e, s.p2Timer)
  {
    if s.inProgress {
      var (s1, asked) := Reevaluate(Unbounded, s, e);
      var sent := SendResponse(Unbounded, s1, e.now).1;
      assert forall i :: 0 <= i < |asked| ==> !asked[i].Sent?;
      if sent != [] {
        assert (asked + sent)[|asked|].Sent?;
      }
    }
  }

  lemma {:induction false} RunDueExactly(s: Server, envs: seq<Env>)
    requires Consistent(s) && ValidEnvs(envs)
    ensures var s1 := Run(Unbounded, s, envs).0;
            && Consistent(s1) && s1.p2 == s.p2 && s1.p2Star == s.p2Star
            && s1.p2Timer == DueAfter(s, envs, s.p2Timer)
    decreases |envs|
  {
    if envs != [] {
      PollDue(s, envs[0], s.p2Timer);
      PollSendsWhenDue(s, envs[0]);
      RunDueExactly(Poll(Unbounded, s, envs[0]).0, envs[1..]);
    }
  }

  /** In every run: a poll sends exactly if a request is in progress, its time has come, and its pending answer does not
      end just now. */
  lemma SendsExactlyWhenDue(s: Server, envs: seq<Env>, e: Env)
    requires Consistent(s) && ValidEnvs(envs) && ValidEnv(e)
    ensures var s1, due := Run(Unbounded, s, envs).0, DueAfter(s, envs, s.p2Timer);
            var (s2, events) := Poll(Unbounded, s1, e);
            Sends(events) <==> s1.inProgress && e.now > due && !(s1.pending && !s2.pending)
  {
    RunDueExactly(s, envs);
    PollSendsWhenDue(Run(Unbounded, s, envs).0, e);
  }

  // ----- from a request to its answer

  /** The trace begins with the response, sent and acknowledged by a poll before which none is later than the limit. */
  ghost predicate AnswersBy(trace: seq<Event>, response: seq<byte>, envs: seq<Env>, limit: int) {
    exists i :: 0 <= i < |envs| && [Sent(response, envs[i].now), Acked] <= trace
                && forall k :: 0 <= k < i ==> envs[k].now <= limit
  }

  lemma {:induction false} WaitsAndAnswers(s: Server, envs: seq<Env>, limit: int)
    requires Consistent(s) && s.inProgress && !s.pending && s.p2Timer <= limit && ValidEnvs(envs)
    requires envs != [] && envs[|envs| - 1].now > limit
    ensures AnswersBy(Run(Unbounded, s, envs).1, s.response, envs, limit)
    decreases |envs|
  {
    var (s1, events) := Poll(Unbounded, s, envs[0]);
    var more := Run(Unbounded, s1, envs[1..]).1;
    if envs[0].now > s.p2Timer {
      DuePollSends(s, envs[0]);
      assert [Sent(s.response, envs[0].now), Acked] <= events + more;
    } else {
      assert s1 == s && events + more == more;
      WaitsAndAnswers(s, envs[1..], limit);
      var i :| 0 <= i < |envs[1..]| && [Sent(s.response, envs[1..][i].now), Acked] <= more
               && forall k :: 0 <= k < i ==> envs[1..][k].now <= limit;
      assert envs[1..][i] == envs[i + 1];
      assert forall k :: 1 <= k < i + 1 ==> envs[k] == envs[1..][k - 1];
    }
  }

  /** A ready server takes a request up. */
  lemma TakesUp(s: Server, e: Env)
    requires Consistent(s) && !s.inProgress && !s.notReady && ValidEnv(e) && e.arrival.Some?
    ensures var q := e.arrival.value;
            var (s1, events) := Poll(Unbounded, s, e);
            var h := Evaluate(Unbounded, s.xfer, s.sec, false, q, e.now, e.answer);
            && events != [] && events[0] == Accepted(q)
            && s1.inProgress && s1.request == q && s1.response == h.response
            && (s1.pending <==> h.code == RESPONSE_PENDING)
            && s1.p2 == s.p2 && s1.p2Star == s.p2Star && s1.p2Timer == s.p2Timer
  {
  }

  /** A request that is not answered pending is accepted, and its response sent and acknowledged by the first poll that
      is late enough. */
  lemma AnsweredAtOnce(s: Server, e: Env, rest: seq<Env>, from: int)
    requires Consistent(s) && !s.inProgress && !s.notReady && Due(s, from) && from <= e.now
    requires ValidEnv(e) && e.arrival.Some? && ValidEnvs(rest)
    requires rest != [] && rest[|rest| - 1].now > e.now + Max(s.p2, s.p2Star * 3 / 10)
    ensures var q := e.arrival.value;
            var (s1, events) := Poll(Unbounded, s, e);
            var h := Evaluate(Unbounded, s.xfer, s.sec, false, q, e.now, e.answer);
            && events != [] && events[0] == Accepted(q)
            && (h.code != RESPONSE_PENDING ==>
                  AnswersBy(Run(Unbounded, s1, rest).1, h.response, rest, e.now + Max(s.p2, s.p2Star * 3 / 10)))
  {
    var s1 := Poll(Unbounded, s, e).0;
    TakesUp(s, e);
    PollDue(s, e, from);
    if !s1.pending {
      WaitsAndAnswers(s1, rest, e.now + Max(s.p2, s.p2Star * 3 / 10));
    }
  }

  /** The same with the response known. */
  lemma AnsweredWith(s: Server, e: Env, rest: seq<Env>, from: int, code: byte, response: seq<byte>)
    requires Consistent(s) && !s.inProgress && !s.notReady && Due(s, from) && from <= e.now
    requires ValidEnv(e) && e.arrival.Some? && ValidEnvs(rest)
    requires rest != [] && rest[|rest| - 1].now > e.now + Max(s.p2, s.p2Star * 3 / 10)
    requires var h := Evaluate(Unbounded, s.xfer, s.sec, false, e.arrival.value, e.now, e.answer);
             h.code == code != RESPONSE_PENDING && h.response == response
    ensures var (s1, events) := Poll(Unbounded, s, e);
            && events != [] && events[0] == Accepted(e.arrival.value)
            && AnswersBy(Run(Unbounded, s1, rest).1, response, rest, e.now + Max(s.p2, s.p2Star * 3 / 10))
  {
    AnsweredAtOnce(s, e, rest, from);
  }

  /** The poll that ends a pending answer. */
  lemma EndsPending(s: Server, e: Env)
    requires Consistent(s) && s.inProgress && s.pending && ValidEnv(e)
    ensures var s1 := Poll(Unbounded, s, e).0;
            var h := Evaluate(Unbounded, s.xfer, s.sec, true, s.request, e.now, e.answer);
            && (s1.pending <==> h.code == RESPONSE_PENDING)
            && (!s1.pending ==> s1.inProgress && s1.response == h.response && s1.p2Timer == e.now + s.p2)
            && s1.p2 == s.p2 && s1.p2Star == s.p2Star && Consistent(s1)
  {
    PollObserved(Unbounded, s, e);
  }

  /** A request answered pending is answered when it stops being pending, with what the user function says then: its
      response is sent and acknowledged by the first poll more than p2 later. */
  lemma AnsweredAfterPending(s: Server, e: Env, rest: seq<Env>)
    requires Consistent(s) && s.inProgress && s.pending && ValidEnv(e) && ValidEnvs(rest)
    requires rest != [] && rest[|rest| - 1].now > e.now + s.p2
    ensures var s1 := Poll(Unbounded, s, e).0;
            var h := Evaluate(Unbounded, s.xfer, s.sec, true, s.request, e.now, e.answer);
            h.code != RESPONSE_PENDING ==>
              AnswersBy(Run(Unbounded, s1, rest).1, h.response, rest, e.now + s.p2)
  {
    EndsPending(s, e);
    var s1 := Poll(Unbounded, s, e).0;
    if !s1.pending {
      WaitsAndAnswers(s1, rest, e.now + s.p2);
    }
  }

  /** From the acceptance of a request, over any number of pending answers, to its one final answer: it is the response
      to the request in the state in which it was accepted, with what the user function says in the end. (The exception
      is a key check, see UdsPending.) */
  lemma PendingRequestAnswered(s: Server, first: Env, again: seq<Env>, e: Env, rest: seq<Env>)
    requires Consistent(s) && !s.inProgress && !s.notReady
    requires ValidEnv(first) && first.arrival.Some? && ValidEnvs(again) && ValidEnv(e) && ValidEnvs(rest)
    requires !IsKeyCheck(first.arrival.value) && StaysPending(Unbounded, Poll(Unbounded, s, first).0, again)
    requires rest != [] && rest[|rest| - 1].now > e.now + s.p2
    ensures var s1 := Poll(Unbounded, Run(Unbounded, Poll(Unbounded, s, first).0, again).0, e).0;
            var h := Evaluate(Unbounded, s.xfer, s.sec, false, first.arrival.value, e.now, e.answer);
            h.code != RESPONSE_PENDING ==>
              AnswersBy(Run(Unbounded, s1, rest).1, h.response, rest, e.now + s.p2)
  {
    var q, s0 := first.arrival.value, Poll(Unbounded, s, first).0;
    PollObserved(Unbounded, s, first);
    TakesUp(s, first);
    FirstPending(Unbounded, s, first);
    StillWaiting(Unbounded, s0, again, s.xfer, s.sec, q);
    AnsweredOnce(Unbounded, s0, again);
    SameTimings(s0, again);
    var waiting := Run(Unbounded, s0, again).0;
    AnsweredAfterPending(waiting, e, rest);
  }

  lemma {:induction false} SameTimings(s: Server, envs: seq<Env>)
    requires Consistent(s) && ValidEnvs(envs)
    ensures var s1 := Run(Unbounded, s, envs).0; s1.p2 == s.p2 && s1.p2Star == s.p2Star
    decreases |envs|
  {
    if envs != [] {
      PollDue(s, envs[0], s.p2Timer);
      SameTimings(Poll(Unbounded, s, envs[0]).0, envs[1..]);
    }
  }

  // ----- the server stays ready

  /** A fresh request for an ECU reset is answered positively. */
  ghost predicate ToldToReset(s: Server, e: Env)
    requires ValidServer(s) && ValidEnv(e)
  {
    && !s.inProgress && !s.notReady && e.arrival.Some?
    && IsReset(e.arrival.value, Evaluate(Unbounded, s.xfer, s.sec, false, e.arrival.value, e.now, e.answer).code)
  }

  ghost predicate EverTold(s: Server, envs: seq<Env>)
    requires ValidServer(s) && ValidEnvs(envs)
    decreases |envs|
  {
    envs != [] && (ToldToReset(s, envs[0]) || EverTold(Poll(Unbounded, s, envs[0]).0, envs[1..]))
  }

  lemma PollReady(s: Server, e: Env)
    requires Consistent(s) && ValidEnv(e) && (s.notReady ==> s.pending)
    ensures var s1 := Poll(Unbounded, s, e).0;
            && Consistent(s1) && (!ToldToReset(s, e) ==> s1.notReady ==> s1.pending)
            && (ToldToReset(s, e) ==> s1.notReady && !s1.pending)
  {
    PollObserved(Unbounded, s, e);
  }

  lemma {:induction false} NeverReadyAgain(s: Server, envs: seq<Env>)
    requires Consistent(s) && ValidEnvs(envs) && s.notReady && !s.pending
    ensures var (s1, trace) := Run(Unbounded, s, envs);
            s1.notReady && !s1.pending && forall i :: 0 <= i < |trace| ==> !trace[i].Accepted?
    decreases |envs|
  {
    if envs != [] {
      PollObserved(Unbounded, s, envs[0]);
      NeverReadyAgain(Poll(Unbounded, s, envs[0]).0, envs[1..]);
    }
  }

  /** In every run of a ready server: it is ready for the next request whenever none is in progress, if and only if it
      has not been told to reset at once. */
  lemma {:induction false} ReadyUnlessReset(s: Server, envs: seq<Env>)
    requires Consistent(s) && ValidEnvs(envs) && (s.notReady ==> s.pending)
    ensures var s1 := Run(Unbounded, s, envs).0;
            && (!s1.inProgress ==> (s1.notReady <==> EverTold(s, envs)))
            && (s1.notReady ==> s1.pending || EverTold(s, envs))
    decreases |envs|
  {
    if envs != [] {
      var s1 := Poll(Unbounded, s, envs[0]).0;
      PollReady(s, envs[0]);
      if ToldToReset(s, envs[0]) {
        NeverReadyAgain(s1, envs[1..]);
      } else {
        ReadyUnlessReset(s1, envs[1..]);
      }
      AnsweredOnce(Unbounded, s1, envs[1..]);
    }
  }
}
