/** Without loss and without an expired timer every schedule of polls and deliveries ends with the payload delivered,
    after a number of frames that depends only on its length. */
module IsoTpCompletion {
  import opened Bytes
  import opened Clock
  import opened IsoTp
  import opened IsoTpNetwork

  // ----- schedules without loss

  /** The step polls or delivers, the driver takes the frame, and no running timer of the polled link has expired. */
  ghost predicate CalmStep(c: Clock, net: Net, step: Step) {
    match step
    case PollA(now, ok) => ok && (net.a.snd.status.SendInProgress? ==> !After(c, now, net.a.snd.timerBs))
    case PollB(now, ok) => ok && (net.b.rcv.status.ReceiveInProgress? ==> !After(c, now, net.b.rcv.timerCr))
    case DeliverFwd(_) => true
    case DeliverBwd(_) => true
    case _ => false
  }

  ghost predicate Calm(c: Clock, net: Net, steps: seq<Step>)
    requires Valid(net)
    decreases |steps|
  {
    steps == [] || (CalmStep(c, net, steps[0]) && Calm(c, Apply(c, net, steps[0]), steps[1..]))
  }

  // ----- counting frames

  /** Consecutive frames sent, frames of the message delivered, flow control frames delivered. */
  datatype Count = Count(sent: nat, taken: nat, granted: nat)

  function CountStep(c: Clock, net: Net, step: Step, n: Count): Count
    requires Valid(net)
  {
    match step
    case PollA(_, _) => n.(sent := n.sent + |Apply(c, net, step).fwd| - |net.fwd|)
    case DeliverFwd(_) => if net.fwd == [] then n else n.(taken := n.taken + 1)
    case DeliverBwd(_) => if net.bwd == [] then n else n.(granted := n.granted + 1)
    case _ => n
  }

  function CountRun(c: Clock, net: Net, steps: seq<Step>, n: Count): Count
    requires Valid(net)
    decreases |steps|
  {
    if steps == [] then n else CountRun(c, Apply(c, net, steps[0]), steps[1..], CountStep(c, net, steps[0], n))
  }

  /** Flow control frames of a message of n bytes: 1 + floor((N - 1) / 8) for its N consecutive frames. */
  function FcCount(n: nat): nat
    requires n >= 8
  {
    1 + (CfCount(n) - 1) / BLOCK_SIZE
  }

  /** Some step can still move the message. */
  ghost predicate CanMove(net: Net) {
    || net.fwd != [] || net.bwd != []
    || (net.a.snd.status.SendInProgress? && net.a.snd.bsRemain > 0)
  }

  // ----- the invariant of a lossless transfer

  /** All frames of a message, the first frame at index 0. */
  function Frames(payload: seq<byte>): (fs: seq<Frame>)
    requires 8 <= |payload|
    ensures |fs| == CfCount(|payload|) + 1
  {
    seq(CfCount(|payload|) + 1, i requires 0 <= i <= CfCount(|payload|) => FrameAt(payload, i))
  }

  ghost predicate ReceiverAt(net: Net, payload: seq<byte>, k: nat, ph: Phase, n: Count)
    requires 8 <= |payload| <= 4095 && k <= CfCount(|payload|)
  {
    var r := net.b.rcv;
    match ph
    case NotStarted =>
      r.status.ReceiveIdle? && k == 0 && net.bwd == [] && net.a.snd.bsRemain == 0
      && net.fwd == [FrameAt(payload, 0)] && n.taken == 0 && n.granted == 0
    case Taking(t) =>
      && TakingAt(r, payload, t) && t <= k && t < CfCount(|payload|)
      && k + net.a.snd.bsRemain + BLOCK_SIZE * |net.bwd| == BLOCK_SIZE * (t / BLOCK_SIZE + 1)
      && net.fwd == Frames(payload)[t + 1..k + 1]
      && n.taken == t + 1 && n.granted + |net.bwd| == t / BLOCK_SIZE + 1
    case Ended =>
      && r.status.ReceiveFull? && r.size == |payload| && Holds(r, payload, |payload|)
      && k == CfCount(|payload|) && net.fwd == [] && net.bwd == []
      && n.taken == k + 1 && n.granted == FcCount(|payload|)
  }

  ghost predicate LinksAt(net: Net, payload: seq<byte>, k: nat, n: Count) {
    && Valid(net) && !net.b.snd.status.SendInProgress? && net.a.rcv.status.ReceiveIdle?
    && |payload| <= 4095 && |payload| <= |net.b.rcv.buf|
    && SentFrames(net.a.snd, payload, k) && net.a.snd.stMin == 0 && n.sent == k
    && (net.a.snd.status.SendInProgress? <==> k < CfCount(|payload|))
    && (forall j :: 0 <= j < |net.bwd| ==> net.bwd[j] == Granting)
  }

  ghost predicate CalmAt(net: Net, payload: seq<byte>, k: nat, ph: Phase, n: Count) {
    LinksAt(net, payload, k, n) && ReceiverAt(net, payload, k, ph, n)
  }

  ghost predicate CalmInv(net: Net, payload: seq<byte>, n: Count) {
    exists k: nat, ph :: CalmAt(net, payload, k, ph, n)
  }

  lemma OneMoreFrame(q: seq<Frame>, payload: seq<byte>, lo: nat, hi: nat)
    requires 8 <= |payload| && lo <= hi < |Frames(payload)| && q == Frames(payload)[lo..hi]
    ensures q + [FrameAt(payload, hi)] == Frames(payload)[lo..hi + 1]
  {
  }

  lemma OneFrameLess(q: seq<Frame>, payload: seq<byte>, lo: nat, hi: nat)
    requires 8 <= |payload| && lo < hi <= |Frames(payload)| && q == Frames(payload)[lo..hi]
    ensures q[0] == FrameAt(payload, lo) && q[1..] == Frames(payload)[lo + 1..hi]
  {
  }

  /** From net to net' the sender put consecutive frame k + 1 on the channel. */
  ghost predicate SentOne(net: Net, net': Net, payload: seq<byte>, k: nat)
    requires 8 <= |payload| && k < CfCount(|payload|)
  {
    && Valid(net') && net'.b == net.b && net'.bwd == net.bwd && net'.a.rcv == net.a.rcv
    && net'.fwd == net.fwd + [FrameAt(payload, k + 1)]
    && SentFrames(net'.a.snd, payload, k + 1) && net'.a.snd.stMin == net.a.snd.stMin
    && net.a.snd.bsRemain > 0 && net'.a.snd.bsRemain == net.a.snd.bsRemain - 1
    && (net'.a.snd.status.SendInProgress? <==> k + 1 < CfCount(|payload|))
  }

  lemma SentOneKeeps(net: Net, net': Net, payload: seq<byte>, k: nat, ph: Phase, n: Count)
    requires CalmAt(net, payload, k, ph, n) && k < CfCount(|payload|) && SentOne(net, net', payload, k)
    ensures CalmAt(net', payload, k + 1, ph, n.(sent := n.sent + 1))
  {
    if ph.Taking? {
      OneMoreFrame(net.fwd, payload, ph.taken + 1, k + 1);
    }
  }

  lemma SendsOne(c: Clock, net: Net, payload: seq<byte>, k: nat, now: int)
    requires Valid(net) && SentFrames(net.a.snd, payload, k) && net.a.snd.stMin == 0
    requires net.a.rcv.status.ReceiveIdle? && net.a.snd.status.SendInProgress? && net.a.snd.bsRemain > 0
    ensures SentOne(net, Apply(c, net, PollA(now, true)), payload, k)
  {
    SendsNext(c, net.a.snd, payload, k, now);
  }

  lemma CalmSend(c: Clock, net: Net, payload: seq<byte>, k: nat, ph: Phase, n: Count, now: int)
    requires CalmAt(net, payload, k, ph, n) && net.a.snd.status.SendInProgress? && net.a.snd.bsRemain > 0
    ensures CalmAt(Apply(c, net, PollA(now, true)), payload, k + 1, ph, CountStep(c, net, PollA(now, true), n))
  {
    SendsOne(c, net, payload, k, now);
    SentOneKeeps(net, Apply(c, net, PollA(now, true)), payload, k, ph, n);
  }

  lemma CalmPollA(c: Clock, net: Net, payload: seq<byte>, k: nat, ph: Phase, n: Count, now: int)
    requires CalmAt(net, payload, k, ph, n) && CalmStep(c, net, PollA(now, true))
    ensures CalmInv(Apply(c, net, PollA(now, true)), payload, CountStep(c, net, PollA(now, true), n))
  {
    if net.a.snd.status.SendInProgress? && net.a.snd.bsRemain > 0 {
      CalmSend(c, net, payload, k, ph, n, now);
    } else {
      assert Apply(c, net, PollA(now, true)) == net;
      assert CalmAt(net, payload, k, ph, n);
    }
  }

  lemma CalmDeliverFirst(c: Clock, net: Net, payload: seq<byte>, n: Count, now: int)
    requires CalmAt(net, payload, 0, NotStarted, n)
    ensures CalmInv(Apply(c, net, DeliverFwd(now)), payload, CountStep(c, net, DeliverFwd(now), n))
  {
    var net' := Apply(c, net, DeliverFwd(now));
    Dispatch(c, net.b, FrameAt(payload, 0), now);
    FirstFrameStarts(c, net.b.rcv, payload, now);
    assert net'.fwd == [] && net'.bwd == [Granting] && net'.a == net.a;
    assert CalmAt(net', payload, 0, Taking(0), CountStep(c, net, DeliverFwd(now), n));
  }

  /** When the last frame is taken nothing else is left on either channel. */
  lemma LastFrameDrains(t: nat, k: nat, remain: nat, pending: nat, total: nat)
    requires t + 1 == k == total
    requires k + remain + BLOCK_SIZE * pending == BLOCK_SIZE * (t / BLOCK_SIZE + 1)
    ensures pending == 0
  {
  }

  lemma LinksStay(net: Net, net': Net, payload: seq<byte>, k: nat, t: nat, n: Count)
    requires LinksAt(net, payload, k, n) && net.fwd != [] && TookFrame(net, net', payload, t)
    ensures LinksAt(net', payload, k, n.(taken := n.taken + 1))
  {
  }

  lemma LastTaken(net: Net, net': Net, payload: seq<byte>, k: nat, t: nat, n: Count)
    requires 8 <= |payload| <= 4095 && k <= CfCount(|payload|) && ReceiverAt(net, payload, k, Taking(t), n)
    requires net.fwd != [] && t + 1 == CfCount(|payload|)
    requires TookFrame(net, net', payload, t)
    ensures ReceiverAt(net', payload, k, Ended, n.(taken := n.taken + 1))
  {
    LastFrameDrains(t, k, net.a.snd.bsRemain, |net.bwd|, CfCount(|payload|));
  }

  /** One frame further the grants, used and unused, still add up to whole blocks. */
  lemma GrantsAddUp(t: nat, k: nat, remain: nat, pending: nat, pending': nat)
    requires k + remain + BLOCK_SIZE * pending == BLOCK_SIZE * (t / BLOCK_SIZE + 1)
    requires pending' == if (t + 1) % BLOCK_SIZE == 0 then pending + 1 else pending
    ensures k + remain + BLOCK_SIZE * pending' == BLOCK_SIZE * ((t + 1) / BLOCK_SIZE + 1)
  {
    NextBlock(t);
  }

  lemma NextGrants(net: Net, net': Net, payload: seq<byte>, k: nat, t: nat, n: Count)
    requires 8 <= |payload| <= 4095 && k <= CfCount(|payload|) && ReceiverAt(net, payload, k, Taking(t), n)
    requires net.fwd != [] && t + 1 < CfCount(|payload|) && TookFrame(net, net', payload, t)
    ensures k + net'.a.snd.bsRemain + BLOCK_SIZE * |net'.bwd| == BLOCK_SIZE * ((t + 1) / BLOCK_SIZE + 1)
    ensures n.granted + |net'.bwd| == (t + 1) / BLOCK_SIZE + 1
  {
    assert 7 * (t + 1) + 6 < |payload|;
    NextBlock(t);
    GrantsAddUp(t, k, net.a.snd.bsRemain, |net.bwd|, |net'.bwd|);
  }

  lemma NextFwd(net: Net, net': Net, payload: seq<byte>, k: nat, t: nat, n: Count)
    requires 8 <= |payload| <= 4095 && k <= CfCount(|payload|) && ReceiverAt(net, payload, k, Taking(t), n)
    requires net.fwd != [] && TookFrame(net, net', payload, t)
    ensures t + 1 <= k && net'.fwd == Frames(payload)[t + 2..k + 1]
  {
    OneFrameLess(net.fwd, payload, t + 1, k + 1);
  }

  lemma NextReceiver(net: Net, net': Net, payload: seq<byte>, k: nat, t: nat, n: Count)
    requires 8 <= |payload| <= 4095 && k <= CfCount(|payload|) && ReceiverAt(net, payload, k, Taking(t), n)
    requires net.fwd != [] && t + 1 < CfCount(|payload|) && TookFrame(net, net', payload, t)
    ensures TakingAt(net'.b.rcv, payload, t + 1) && n.taken == t + 1
  {
    assert 7 * (t + 1) + 6 < |payload|;
    TakingNext(net.b.rcv, net'.b.rcv, payload, t);
  }

  lemma NextTaken(net: Net, net': Net, payload: seq<byte>, k: nat, t: nat, n: Count)
    requires 8 <= |payload| <= 4095 && k <= CfCount(|payload|) && ReceiverAt(net, payload, k, Taking(t), n)
    requires net.fwd != [] && t + 1 < CfCount(|payload|) && TookFrame(net, net', payload, t)
    ensures ReceiverAt(net', payload, k, Taking(t + 1), n.(taken := n.taken + 1))
  {
    NextReceiver(net, net', payload, k, t, n);
    NextGrants(net, net', payload, k, t, n);
    NextFwd(net, net', payload, k, t, n);
  }

  lemma Taken(net: Net, net': Net, payload: seq<byte>, k: nat, t: nat, n: Count)
    requires CalmAt(net, payload, k, Taking(t), n) && net.fwd != [] && TookFrame(net, net', payload, t)
    ensures CalmInv(net', payload, n.(taken := n.taken + 1))
  {
    LinksStay(net, net', payload, k, t, n);
    if t + 1 < CfCount(|payload|) {
      NextTaken(net, net', payload, k, t, n);
      assert CalmAt(net', payload, k, Taking(t + 1), n.(taken := n.taken + 1));
    } else {
      LastTaken(net, net', payload, k, t, n);
      assert CalmAt(net', payload, k, Ended, n.(taken := n.taken + 1));
    }
  }

  lemma CalmDeliverConsecutive(c: Clock, net: Net, payload: seq<byte>, k: nat, t: nat, n: Count, now: int)
    requires CalmAt(net, payload, k, Taking(t), n) && net.fwd != []
    ensures TookFrame(net, Apply(c, net, DeliverFwd(now)), payload, t)
  {
    OneFrameLess(net.fwd, payload, t + 1, k + 1);
    DeliverExpected(c, net, payload, t, now);
  }

  /** A grant arrives only when the previous one is used up. */
  lemma GrantFindsNothingLeft(t: nat, k: nat, remain: nat, pending: nat)
    requires t <= k && pending > 0
    requires k + remain + BLOCK_SIZE * pending == BLOCK_SIZE * (t / BLOCK_SIZE + 1)
    ensures remain == 0 && pending == 1 && k == t
  {
  }

  lemma CalmDeliverBwd(c: Clock, net: Net, payload: seq<byte>, k: nat, ph: Phase, n: Count, now: int)
    requires CalmAt(net, payload, k, ph, n) && net.bwd != []
    ensures CalmInv(Apply(c, net, DeliverBwd(now)), payload, CountStep(c, net, DeliverBwd(now), n))
  {
    var net' := Apply(c, net, DeliverBwd(now));
    var t := ph.taken;
    Dispatch(c, net.a, Granting, now);
    GrantFindsNothingLeft(t, k, net.a.snd.bsRemain, |net.bwd|);
    assert net'.fwd == net.fwd;
    assert CalmAt(net', payload, k, ph, CountStep(c, net, DeliverBwd(now), n));
  }

  lemma CalmDeliverNext(c: Clock, net: Net, payload: seq<byte>, k: nat, t: nat, n: Count, now: int)
    requires CalmAt(net, payload, k, Taking(t), n) && net.fwd != []
    ensures CalmInv(Apply(c, net, DeliverFwd(now)), payload, CountStep(c, net, DeliverFwd(now), n))
  {
    CalmDeliverConsecutive(c, net, payload, k, t, n, now);
    Taken(net, Apply(c, net, DeliverFwd(now)), payload, k, t, n);
  }

  lemma CalmDeliverFwd(c: Clock, net: Net, payload: seq<byte>, k: nat, ph: Phase, n: Count, now: int)
    requires CalmAt(net, payload, k, ph, n) && net.fwd != []
    ensures CalmInv(Apply(c, net, DeliverFwd(now)), payload, CountStep(c, net, DeliverFwd(now), n))
  {
    if ph.NotStarted? {
      CalmDeliverFirst(c, net, payload, n, now);
    } else {
      CalmDeliverNext(c, net, payload, k, ph.taken, n, now);
    }
  }

  /** A delivery from an empty channel and a poll of the receiver change nothing. */
  ghost predicate Idle(net: Net, step: Step) {
    step.PollB? || (step.DeliverFwd? && net.fwd == []) || (step.DeliverBwd? && net.bwd == [])
  }

  lemma CalmStepKeeps(c: Clock, net: Net, payload: seq<byte>, n: Count, step: Step)
    requires Valid(net) && CalmInv(net, payload, n) && CalmStep(c, net, step)
    ensures CalmInv(Apply(c, net, step), payload, CountStep(c, net, step, n))
  {
    var k: nat, ph :| CalmAt(net, payload, k, ph, n);
    if Idle(net, step) {
      assert Apply(c, net, step) == net;
    } else {
      match step
      case PollA(now, _) => CalmPollA(c, net, payload, k, ph, n, now);
      case DeliverFwd(now) => CalmDeliverFwd(c, net, payload, k, ph, n, now);
      case DeliverBwd(now) => CalmDeliverBwd(c, net, payload, k, ph, n, now);
    }
  }

  lemma {:induction false} CalmRunKeeps(c: Clock, net: Net, payload: seq<byte>, n: Count, steps: seq<Step>)
    requires Valid(net) && CalmInv(net, payload, n) && Calm(c, net, steps)
    ensures CalmInv(Run(c, net, steps), payload, CountRun(c, net, steps, n))
    decreases |steps|
  {
    if steps != [] {
      CalmStepKeeps(c, net, payload, n, steps[0]);
      CalmRunKeeps(c, Apply(c, net, steps[0]), payload, CountStep(c, net, steps[0], n), steps[1..]);
    }
  }

  /** The counts of a lossless transfer: they never exceed the totals, the totals are reached exactly when the payload
      is there, and before that some step can always move the message. */
  lemma CountsDecide(net: Net, payload: seq<byte>, n: Count)
    requires 8 <= |payload| && CalmInv(net, payload, n)
    ensures var cfs, fcs := CfCount(|payload|), FcCount(|payload|);
            && n.sent <= cfs && n.taken <= cfs + 1 && n.granted <= fcs
            && (net.b.rcv.status.ReceiveFull? <==> n == Count(cfs, cfs + 1, fcs))
            && (net.b.rcv.status.ReceiveFull? ==> Message(net.b.rcv) == payload && !net.a.snd.status.SendInProgress?)
            && (net.b.rcv.status.ReceiveFull? <==> !CanMove(net))
  {
    var k: nat, ph :| CalmAt(net, payload, k, ph, n);
    if ph.Taking? {
      assert ph.taken / BLOCK_SIZE <= (CfCount(|payload|) - 1) / BLOCK_SIZE;
      if net.fwd == [] && net.bwd == [] {
        assert k == ph.taken;
      }
    }
  }

  lemma StartCalm(c: Clock, a: Link, b: Link, payload: seq<byte>, now: int)
    requires Fresh(a) && Fresh(b) && 8 <= |payload| <= 4095 && |payload| <= |a.snd.buf| && |payload| <= |b.rcv.buf|
    ensures CalmInv(Start(c, a, b, payload, now), payload, Count(0, 0, 0))
  {
    var start := Start(c, a, b, payload, now);
    assert start.a.snd.buf[0..|payload|] == payload;
    assert CalmAt(start, payload, 0, NotStarted, Count(0, 0, 0));
  }

  /** Every lossless schedule: with 2N + 1 + F counted frames the payload is there, with fewer the schedule can go on,
      and there are never more. */
  lemma Completes(c: Clock, a: Link, b: Link, payload: seq<byte>, now: int, steps: seq<Step>)
    requires Fresh(a) && Fresh(b) && 8 <= |payload| <= 4095 && |payload| <= |a.snd.buf| && |payload| <= |b.rcv.buf|
    requires Calm(c, Start(c, a, b, payload, now), steps)
    ensures var start := Start(c, a, b, payload, now);
            var net, n := Run(c, start, steps), CountRun(c, start, steps, Count(0, 0, 0));
            var cfs, fcs := CfCount(|payload|), FcCount(|payload|);
            && n.sent <= cfs && n.taken <= cfs + 1 && n.granted <= fcs
            && (net.b.rcv.status.ReceiveFull? <==> n == Count(cfs, cfs + 1, fcs))
            && (net.b.rcv.status.ReceiveFull? ==> Message(net.b.rcv) == payload)
            && (net.b.rcv.status.ReceiveFull? <==> !CanMove(net))
  {
    var start := Start(c, a, b, payload, now);
    StartCalm(c, a, b, payload, now);
    CalmRunKeeps(c, start, payload, Count(0, 0, 0), steps);
    CountsDecide(Run(c, start, steps), payload, CountRun(c, start, steps, Count(0, 0, 0)));
  }

  // ----- every step of a lossless schedule is progress or nothing

  function Total(n: Count): nat {
    n.sent + n.taken + n.granted
  }

  /** The polls that send nothing only look at timers that have not expired. */
  lemma IdlePollA(c: Clock, net: Net, payload: seq<byte>, k: nat, ph: Phase, n: Count, now: int)
    requires CalmAt(net, payload, k, ph, n) && CalmStep(c, net, PollA(now, true))
    ensures var net' := Apply(c, net, PollA(now, true));
            net' == net || |net'.fwd| == |net.fwd| + 1
  {
    if net.a.snd.status.SendInProgress? && net.a.snd.bsRemain > 0 {
      SendsOne(c, net, payload, k, now);
    }
  }

  /** A step of a lossless schedule leaves the network as it is or raises the counts by one; since the counts are
      bounded, no schedule moves the message forever. */
  lemma StepMovesOrIdles(c: Clock, net: Net, payload: seq<byte>, n: Count, step: Step)
    requires Valid(net) && CalmInv(net, payload, n) && CalmStep(c, net, step)
    ensures (Apply(c, net, step) == net && CountStep(c, net, step, n) == n)
            || Total(CountStep(c, net, step, n)) == Total(n) + 1
  {
    var k: nat, ph :| CalmAt(net, payload, k, ph, n);
    if step.PollA? {
      IdlePollA(c, net, payload, k, ph, n, step.now);
    } else if Idle(net, step) {
      assert Apply(c, net, step) == net;
    }
  }

  // ----- rounds of polls and deliveries complete the message

  /** One poll of the sender and one delivery in each direction. */
  function RoundAt(now: int): seq<Step> {
    [PollA(now, true), DeliverFwd(now), DeliverBwd(now)]
  }

  function RoundsAt(times: seq<int>): seq<Step> {
    if times == [] then [] else RoundAt(times[0]) + RoundsAt(times[1..])
  }

  lemma StepsSplit(c: Clock, net: Net, step: Step, steps: seq<Step>, n: Count)
    requires Valid(net)
    ensures Run(c, net, [step] + steps) == Run(c, Apply(c, net, step), steps)
    ensures Calm(c, net, [step] + steps) <==> CalmStep(c, net, step) && Calm(c, Apply(c, net, step), steps)
    ensures CountRun(c, net, [step] + steps, n) == CountRun(c, Apply(c, net, step), steps, CountStep(c, net, step, n))
  {
    assert ([step] + steps)[1..] == steps;
  }

  lemma RoundSplit(c: Clock, net: Net, now: int, rest: seq<Step>, n: Count)
    requires Valid(net)
    ensures var net1 := Apply(c, net, PollA(now, true));
            var net2 := Apply(c, net1, DeliverFwd(now));
            var net3 := Apply(c, net2, DeliverBwd(now));
            var n1 := CountStep(c, net, PollA(now, true), n);
            var n2 := CountStep(c, net1, DeliverFwd(now), n1);
            && Run(c, net, RoundAt(now) + rest) == Run(c, net3, rest)
            && (Calm(c, net, RoundAt(now) + rest) ==>
                  CalmStep(c, net, PollA(now, true)) && Calm(c, net3, rest))
            && CountRun(c, net, RoundAt(now) + rest, n)
               == CountRun(c, net3, rest, CountStep(c, net2, DeliverBwd(now), n2))
  {
    var tail2 := [DeliverBwd(now)] + rest;
    var tail1 := [DeliverFwd(now)] + tail2;
    assert RoundAt(now) + rest == [PollA(now, true)] + tail1;
    var net1 := Apply(c, net, PollA(now, true));
    var net2 := Apply(c, net1, DeliverFwd(now));
    var n1 := CountStep(c, net, PollA(now, true), n);
    StepsSplit(c, net, PollA(now, true), tail1, n);
    StepsSplit(c, net1, DeliverFwd(now), tail2, n1);
    StepsSplit(c, net2, DeliverBwd(now), rest, CountStep(c, net1, DeliverFwd(now), n1));
  }

  /** A poll of the sender takes no frame from a channel, and sends one if it may. */
  lemma PollAMoves(c: Clock, net: Net, payload: seq<byte>, n: Count, now: int)
    requires Valid(net) && CalmInv(net, payload, n) && CalmStep(c, net, PollA(now, true))
    ensures var net1, n1 := Apply(c, net, PollA(now, true)), CountStep(c, net, PollA(now, true), n);
            && CalmInv(net1, payload, n1) && Total(n1) >= Total(n)
            && net1.bwd == net.bwd && (net.fwd != [] ==> net1.fwd != [])
            && (net.a.snd.status.SendInProgress? && net.a.snd.bsRemain > 0 ==> Total(n1) == Total(n) + 1)
  {
    CalmStepKeeps(c, net, payload, n, PollA(now, true));
    StepMovesOrIdles(c, net, payload, n, PollA(now, true));
    var k: nat, ph :| CalmAt(net, payload, k, ph, n);
    if net.a.snd.status.SendInProgress? && net.a.snd.bsRemain > 0 {
      SendsOne(c, net, payload, k, now);
    }
  }

  /** A delivery of a frame of the message takes no flow control frame away. */
  lemma DeliverFwdMoves(c: Clock, net: Net, payload: seq<byte>, n: Count, now: int)
    requires Valid(net) && CalmInv(net, payload, n)
    ensures var net1, n1 := Apply(c, net, DeliverFwd(now)), CountStep(c, net, DeliverFwd(now), n);
            && CalmInv(net1, payload, n1) && Total(n1) == Total(n) + (if net.fwd == [] then 0 else 1)
            && (net.bwd != [] ==> net1.bwd != [])
  {
    CalmStepKeeps(c, net, payload, n, DeliverFwd(now));
  }

  lemma DeliverBwdMoves(c: Clock, net: Net, payload: seq<byte>, n: Count, now: int)
    requires Valid(net) && CalmInv(net, payload, n)
    ensures var net1, n1 := Apply(c, net, DeliverBwd(now)), CountStep(c, net, DeliverBwd(now), n);
            && CalmInv(net1, payload, n1) && Total(n1) == Total(n) + (if net.bwd == [] then 0 else 1)
  {
    CalmStepKeeps(c, net, payload, n, DeliverBwd(now));
  }

  /** A round raises the counts unless the receiver has the message. */
  lemma RoundMoves(c: Clock, net: Net, payload: seq<byte>, n: Count, now: int)
    requires Valid(net) && CalmInv(net, payload, n) && CalmStep(c, net, PollA(now, true))
    ensures var net1 := Apply(c, net, PollA(now, true));
            var net2 := Apply(c, net1, DeliverFwd(now));
            var n1 := CountStep(c, net, PollA(now, true), n);
            var n2 := CountStep(c, net1, DeliverFwd(now), n1);
            var n3 := CountStep(c, net2, DeliverBwd(now), n2);
            && CalmInv(Apply(c, net2, DeliverBwd(now)), payload, n3)
            && (Total(n3) > Total(n) || !CanMove(net)) && Total(n3) >= Total(n)
  {
    var net1, n1 := Apply(c, net, PollA(now, true)), CountStep(c, net, PollA(now, true), n);
    PollAMoves(c, net, payload, n, now);
    DeliverFwdMoves(c, net1, payload, n1, now);
    DeliverBwdMoves(c, Apply(c, net1, DeliverFwd(now)), payload, CountStep(c, net1, DeliverFwd(now), n1), now);
  }

  lemma {:induction false} RoundsMove(c: Clock, net: Net, payload: seq<byte>, n: Count, times: seq<int>)
    requires Valid(net) && CalmInv(net, payload, n) && Calm(c, net, RoundsAt(times))
    ensures var net1, n1 := Run(c, net, RoundsAt(times)), CountRun(c, net, RoundsAt(times), n);
            CalmInv(net1, payload, n1) && (Total(n1) >= Total(n) + |times| || net1.b.rcv.status.ReceiveFull?)
    decreases |times|
  {
    CalmRunKeeps(c, net, payload, n, RoundsAt(times));
    if times != [] {
      var now, rest := times[0], RoundsAt(times[1..]);
      RoundSplit(c, net, now, rest, n);
      RoundMoves(c, net, payload, n, now);
      var net1 := Apply(c, net, PollA(now, true));
      var net2 := Apply(c, net1, DeliverFwd(now));
      var n2 := CountStep(c, net1, DeliverFwd(now), CountStep(c, net, PollA(now, true), n));
      RoundsMove(c, Apply(c, net2, DeliverBwd(now)), payload, CountStep(c, net2, DeliverBwd(now), n2), times[1..]);
      CountsDecide(net, payload, n);
      CountsDecide(Run(c, net, RoundsAt(times)), payload, CountRun(c, net, RoundsAt(times), n));
    }
  }

  lemma TotalDecides(net: Net, payload: seq<byte>, n: Count)
    requires 8 <= |payload| && CalmInv(net, payload, n)
    requires Total(n) >= 2 * CfCount(|payload|) + 1 + FcCount(|payload|) || net.b.rcv.status.ReceiveFull?
    ensures net.b.rcv.status.ReceiveFull? && ValidReceiver(net.b.rcv) && Message(net.b.rcv) == payload
  {
    CountsDecide(net, payload, n);
  }

  lemma RoundsEnd(c: Clock, net: Net, payload: seq<byte>, times: seq<int>)
    requires Valid(net) && CalmInv(net, payload, Count(0, 0, 0)) && Calm(c, net, RoundsAt(times))
    requires 8 <= |payload| && |times| >= 2 * CfCount(|payload|) + 1 + FcCount(|payload|)
    ensures var r := Run(c, net, RoundsAt(times)).b.rcv;
            r.status.ReceiveFull? && Message(r) == payload
  {
    RoundsMove(c, net, payload, Count(0, 0, 0), times);
    TotalDecides(Run(c, net, RoundsAt(times)), payload, CountRun(c, net, RoundsAt(times), Count(0, 0, 0)));
  }

  /** For N consecutive and F flow control frames, 2N + 1 + F rounds without loss or an expired timer end with the
      payload delivered. */
  lemma RoundsComplete(c: Clock, a: Link, b: Link, payload: seq<byte>, now: int, times: seq<int>)
    requires Fresh(a) && Fresh(b) && 8 <= |payload| <= 4095 && |payload| <= |a.snd.buf| && |payload| <= |b.rcv.buf|
    requires Calm(c, Start(c, a, b, payload, now), RoundsAt(times))
    requires |times| >= 2 * CfCount(|payload|) + 1 + FcCount(|payload|)
    ensures var r := Run(c, Start(c, a, b, payload, now), RoundsAt(times)).b.rcv;
            r.status.ReceiveFull? && Message(r) == payload
  {
    StartCalm(c, a, b, payload, now);
    RoundsEnd(c, Start(c, a, b, payload, now), payload, times);
  }

  // ----- messages that fit one frame

  /** Either the frame is under way or the message is there. */
  ghost predicate SingleCalm(net: Net, payload: seq<byte>) {
    SingleInv(net, payload) && (net.fwd == [] <==> net.b.rcv.status.ReceiveFull?)
  }

  lemma SingleCalmStep(c: Clock, net: Net, payload: seq<byte>, step: Step)
    requires SingleCalm(net, payload) && payload != [] && CalmStep(c, net, step)
    ensures SingleCalm(Apply(c, net, step), payload)
  {
    SingleStepKeeps(c, net, payload, step);
    if step.DeliverFwd? && net.fwd != [] {
      SingleDeliver(c, net, payload, step.now);
    }
  }

  lemma {:induction false} SingleCalmRun(c: Clock, net: Net, payload: seq<byte>, steps: seq<Step>)
    requires SingleCalm(net, payload) && payload != [] && Calm(c, net, steps)
    ensures SingleCalm(Run(c, net, steps), payload)
    decreases |steps|
  {
    if steps != [] {
      SingleCalmStep(c, net, payload, steps[0]);
      SingleCalmRun(c, Apply(c, net, steps[0]), payload, steps[1..]);
    }
  }

  /** Every lossless schedule for a payload of one to seven bytes: the only frame is under way, or the payload is
      there. */
  lemma SingleCompletes(c: Clock, a: Link, b: Link, payload: seq<byte>, now: int, steps: seq<Step>)
    requires Fresh(a) && Fresh(b) && 1 <= |payload| <= 7 && |payload| <= |a.snd.buf|
    requires Calm(c, Start(c, a, b, payload, now), steps)
    ensures var net := Run(c, Start(c, a, b, payload, now), steps);
            && (net.b.rcv.status.ReceiveFull? <==> net.fwd == [])
            && (net.b.rcv.status.ReceiveFull? ==> Message(net.b.rcv) == payload)
  {
    StartSingle(c, a, b, payload, now);
    SingleCalmRun(c, Start(c, a, b, payload, now), payload, steps);
    SingleIntact(Run(c, Start(c, a, b, payload, now), steps), payload);
    assert payload[..|payload|] == payload;
  }
}
