/** The 32-bit timers of the link take the same decisions as timers that never wrap. */
module IsoTpClock {
  import opened Bytes
  import opened Clock
  import opened IsoTp
  import opened IsoTpNetwork

  // ----- the 32-bit image of a state

  function WrapSender(s: Sender): Sender {
    s.(timerSt := Store(Wrapping, s.timerSt), timerBs := Store(Wrapping, s.timerBs))
  }

  function WrapReceiver(r: Receiver): Receiver {
    r.(timerCr := Store(Wrapping, r.timerCr))
  }

  function WrapLink(l: Link): Link {
    Link(WrapSender(l.snd), WrapReceiver(l.rcv))
  }

  function WrapNet(net: Net): (r: Net)
    ensures Valid(net) ==> Valid(r)
  {
    net.(a := WrapLink(net.a), b := WrapLink(net.b))
  }

  function WrapStep(step: Step): Step {
    match step
    case PollA(now, ok) => PollA(Store(Wrapping, now), ok)
    case PollB(now, ok) => PollB(Store(Wrapping, now), ok)
    case DeliverFwd(now) => DeliverFwd(Store(Wrapping, now))
    case DeliverBwd(now) => DeliverBwd(Store(Wrapping, now))
    case _ => step
  }

  function WrapSteps(steps: seq<Step>): seq<Step>
  {
    if steps == [] then [] else [WrapStep(steps[0])] + WrapSteps(steps[1..])
  }

  // ----- the comparisons a poll makes stay within half a clock period

  ghost predicate NearSender(s: Sender, now: int) {
    s.status.SendInProgress? ==> Near(now, s.timerBs) && (s.stMin != 0 ==> Near(now, s.timerSt))
  }

  ghost predicate NearReceiver(r: Receiver, now: int) {
    r.status.ReceiveInProgress? ==> Near(now, r.timerCr)
  }

  ghost predicate NearStep(net: Net, step: Step) {
    match step
    case PollA(now, _) => NearSender(net.a.snd, now) && NearReceiver(net.a.rcv, now)
    case PollB(now, _) => NearSender(net.b.snd, now) && NearReceiver(net.b.rcv, now)
    case _ => true
  }

  ghost predicate NearRun(net: Net, steps: seq<Step>)
    requires Valid(net)
    decreases |steps|
  {
    steps == [] || (NearStep(net, steps[0]) && NearRun(Apply(Unbounded, net, steps[0]), steps[1..]))
  }

  // ----- every operation commutes with the image

  lemma WrapSendWithId(l: Link, payload: seq<byte>, now: int, ok: bool)
    requires ValidLink(l)
    ensures var (l', ret, out) := SendWithId(Unbounded, l, payload, now, ok);
            SendWithId(Wrapping, WrapLink(l), payload, Store(Wrapping, now), ok) == (WrapLink(l'), ret, out)
  {
    StorePlus(now, 0);
    StorePlus(now, RESPONSE_TIMEOUT);
  }

  lemma WrapSendConsecutive(s: Sender, now: int, ok: bool)
    requires ValidSender(s) && s.status.SendInProgress?
    ensures var (s', out) := SendConsecutive(Unbounded, s, now, ok);
            SendConsecutive(Wrapping, WrapSender(s), Store(Wrapping, now), ok) == (WrapSender(s'), out)
  {
    StorePlus(now, RESPONSE_TIMEOUT);
    StorePlus(now, s.stMin);
  }

  lemma WrapPollSender(s: Sender, now: int, ok: bool)
    requires ValidSender(s) && NearSender(s, now)
    ensures var (s', out) := PollSender(Unbounded, s, now, ok);
            PollSender(Wrapping, WrapSender(s), Store(Wrapping, now), ok) == (WrapSender(s'), out)
  {
    if s.status.SendInProgress? {
      WrapSendConsecutive(s, now, ok);
      if s.stMin != 0 {
        TimeAfterIsAfter(now, s.timerSt);
      }
      assert MaySend(Wrapping, WrapSender(s), Store(Wrapping, now)) == MaySend(Unbounded, s, now);
      TimeAfterIsAfter(now, s.timerBs);
      TimeAfterIsAfter(now, now + RESPONSE_TIMEOUT);
    }
  }

  lemma WrapPoll(l: Link, now: int, ok: bool)
    requires ValidLink(l) && NearSender(l.snd, now) && NearReceiver(l.rcv, now)
    ensures var (l', out) := Poll(Unbounded, l, now, ok);
            Poll(Wrapping, WrapLink(l), Store(Wrapping, now), ok) == (WrapLink(l'), out)
  {
    WrapPollSender(l.snd, now, ok);
    if l.rcv.status.ReceiveInProgress? {
      TimeAfterIsAfter(now, l.rcv.timerCr);
    }
  }

  lemma WrapOnFirst(r: Receiver, msg: Frame, len: nat, now: int)
    requires ValidReceiver(r) && |msg| == 8
    ensures var (r', out) := OnFirst(Unbounded, r, msg, len, now);
            OnFirst(Wrapping, WrapReceiver(r), msg, len, Store(Wrapping, now)) == (WrapReceiver(r'), out)
  {
    StorePlus(now, RESPONSE_TIMEOUT);
  }

  lemma WrapOnConsecutive(r: Receiver, msg: Frame, len: nat, now: int)
    requires ValidReceiver(r) && |msg| == 8
    ensures var (r', out) := OnConsecutive(Unbounded, r, msg, len, now);
            OnConsecutive(Wrapping, WrapReceiver(r), msg, len, Store(Wrapping, now)) == (WrapReceiver(r'), out)
  {
    StorePlus(now, RESPONSE_TIMEOUT);
  }

  lemma WrapOnFlowControl(s: Sender, msg: Frame, len: nat, now: int)
    requires |msg| == 8
    ensures OnFlowControl(Wrapping, WrapSender(s), msg, len, Store(Wrapping, now))
            == WrapSender(OnFlowControl(Unbounded, s, msg, len, now))
  {
    StorePlus(now, RESPONSE_TIMEOUT);
  }

  lemma WrapOnCanMessage(l: Link, data: Frame, now: int)
    requires ValidLink(l)
    ensures var (l', out) := OnCanMessage(Unbounded, l, data, now);
            OnCanMessage(Wrapping, WrapLink(l), data, Store(Wrapping, now)) == (WrapLink(l'), out)
  {
    if 2 <= |data| <= 8 {
      var msg := data + Zeros(8 - |data|);
      WrapOnFirst(l.rcv, msg, |data|, now);
      WrapOnConsecutive(l.rcv, msg, |data|, now);
      WrapOnFlowControl(l.snd, msg, |data|, now);
    }
  }

  lemma WrapApply(net: Net, step: Step)
    requires Valid(net) && NearStep(net, step)
    ensures Apply(Wrapping, WrapNet(net), WrapStep(step)) == WrapNet(Apply(Unbounded, net, step))
  {
    match step
    case PollA(now, ok) => WrapPoll(net.a, now, ok);
    case PollB(now, ok) => WrapPoll(net.b, now, ok);
    case DeliverFwd(now) =>
      if net.fwd != [] {
        WrapOnCanMessage(net.b, net.fwd[0], now);
      }
    case DeliverBwd(now) =>
      if net.bwd != [] {
        WrapOnCanMessage(net.a, net.bwd[0], now);
      }
    case _ =>
  }

  /** Whole runs: the network with 32-bit timers passes through the images of the states of the network with unbounded
      timers, as long as every comparison is within half a period. */
  lemma {:induction false} WrapRun(net: Net, steps: seq<Step>)
    requires Valid(net) && NearRun(net, steps)
    ensures Run(Wrapping, WrapNet(net), WrapSteps(steps)) == WrapNet(Run(Unbounded, net, steps))
    decreases |steps|
  {
    if steps != [] {
      WrapApply(net, steps[0]);
      WrapRun(Apply(Unbounded, net, steps[0]), steps[1..]);
      assert WrapSteps(steps)[1..] == WrapSteps(steps[1..]);
    }
  }

  /** From the call that sends a message on: whole runs with 32-bit timers are images of runs with unbounded timers. */
  lemma WrapRunFromStart(a: Link, b: Link, payload: seq<byte>, now: int, steps: seq<Step>)
    requires Fresh(a) && Fresh(b) && |payload| <= |a.snd.buf|
    requires NearRun(Start(Unbounded, a, b, payload, now), steps)
    ensures Run(Wrapping, Start(Wrapping, WrapLink(a), WrapLink(b), payload, Store(Wrapping, now)), WrapSteps(steps))
            == WrapNet(Run(Unbounded, Start(Unbounded, a, b, payload, now), steps))
  {
    WrapSendWithId(a, payload, now, true);
    WrapRun(Start(Unbounded, a, b, payload, now), steps);
  }
}
