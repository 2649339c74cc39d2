/** Two ISO-TP links joined by two FIFO frame channels that may lose frames, for one message from a to b. */
module IsoTpNetwork {
  import opened Prelude
  import opened Bytes
  import opened Clock
  import opened IsoTp

  datatype Net = Net(a: Link, b: Link, fwd: seq<Frame>, bwd: seq<Frame>)

  /** What the environment may schedule next. A disabled step changes nothing. */
  datatype Step =
    | PollA(now: int, ok: bool)
    | PollB(now: int, ok: bool)
    | DeliverFwd(now: int)
    | DeliverBwd(now: int)
    | LoseFwd(i: nat)
    | LoseBwd(i: nat)
    | Take(room: nat)

  ghost predicate Valid(net: Net) {
    ValidLink(net.a) && ValidLink(net.b)
  }

  function Apply(c: Clock, net: Net, step: Step): (r: Net)
    requires Valid(net)
    ensures Valid(r)
  {
    match step
    case PollA(now, ok) =>
      PollKeepsValid(c, net.a, now, ok);
      var (a, out) := Poll(c, net.a, now, ok);
      net.(a := a, fwd := net.fwd + out)
    case PollB(now, ok) =>
      PollKeepsValid(c, net.b, now, ok);
      var (b, out) := Poll(c, net.b, now, ok);
      net.(b := b, bwd := net.bwd + out)
    case DeliverFwd(now) =>
      if net.fwd == [] then net
      else
        OnCanMessageKeepsValid(c, net.b, net.fwd[0], now);
        var (b, out) := OnCanMessage(c, net.b, net.fwd[0], now);
        net.(b := b, fwd := net.fwd[1..], bwd := net.bwd + out)
    case DeliverBwd(now) =>
      if net.bwd == [] then net
      else
        OnCanMessageKeepsValid(c, net.a, net.bwd[0], now);
        var (a, out) := OnCanMessage(c, net.a, net.bwd[0], now);
        net.(a := a, bwd := net.bwd[1..], fwd := net.fwd + out)
    case LoseFwd(i) => net.(fwd := Without(net.fwd, i))
    case LoseBwd(i) => net.(bwd := Without(net.bwd, i))
    case Take(room) => net.(b := Receive(net.b, room).0)
  }

  function Run(c: Clock, net: Net, steps: seq<Step>): (r: Net)
    requires Valid(net)
    ensures Valid(r)
    decreases |steps|
  {
    if steps == [] then net else Run(c, Apply(c, net, steps[0]), steps[1..])
  }

  /** A link with nothing in progress and no message waiting. */
  ghost predicate Fresh(l: Link) {
    ValidLink(l) && !l.snd.status.SendInProgress? && l.rcv.status.ReceiveIdle?
  }

  /** The network right after link a was asked to send the payload. */
  function Start(c: Clock, a: Link, b: Link, payload: seq<byte>, now: int): (r: Net)
    requires Fresh(a) && Fresh(b) && |payload| <= |a.snd.buf|
    ensures Valid(r)
  {
    SendKeepsValid(c, a, payload, now, true);
    var (a1, _, out) := SendWithId(c, a, payload, now, true);
    Net(a1, b, out, [])
  }

  // ----- the frames of a message

  /** The length a first frame can announce has 12 bits. */
  function Announced(payload: seq<byte>): nat {
    |payload| % 4096
  }

  /** Consecutive frames of a message of n bytes, n >= 8: ceil((n - 6) / 7). */
  function CfCount(n: nat): nat {
    n / 7
  }

  function FrameAt(payload: seq<byte>, i: nat): (f: Frame)
    requires 8 <= |payload| && i <= CfCount(|payload|)
    ensures |f| == 8
  {
    if i == 0 then FirstFrame(|payload|, payload[..6])
    else ConsecutiveFrame(i % 16, payload[7 * i - 1..Min(|payload|, 7 * i + 6)])
  }

  const Granting: Frame := FlowControl(FS_CONTINUE, BLOCK_SIZE, ST_MIN)
  const Refusing: Frame := FlowControl(FS_OVERFLOW, 0, 0)

  /** What a full frame does: the frame type nibble picks the handler. */
  lemma Dispatch(c: Clock, l: Link, f: Frame, now: int)
    requires ValidLink(l) && |f| == 8
    ensures f[0] / 16 == 1 ==> OnCanMessage(c, l, f, now) ==
                               (l.(rcv := OnFirst(c, l.rcv, f, 8, now).0), OnFirst(c, l.rcv, f, 8, now).1)
    ensures f[0] / 16 == 2 ==> OnCanMessage(c, l, f, now) ==
                               (l.(rcv := OnConsecutive(c, l.rcv, f, 8, now).0), OnConsecutive(c, l.rcv, f, 8, now).1)
    ensures f[0] / 16 == 3 ==> OnCanMessage(c, l, f, now) == (l.(snd := OnFlowControl(c, l.snd, f, 8, now)), [])
  {
    assert f + Zeros(0) == f;
  }

  // ----- the invariant of a multi-frame transfer

  datatype Phase = NotStarted | Taking(taken: nat) | Ended

  /** The sender holds the payload and has sent k consecutive frames. */
  ghost predicate SentFrames(s: Sender, payload: seq<byte>, k: nat) {
    && 8 <= |payload| == s.size <= |s.buf| && s.buf[..s.size] == payload
    && k <= CfCount(s.size) && s.offset == Min(s.size, 7 * k + 6)
    && s.sn == (1 + k) % 16 && s.bsRemain <= BLOCK_SIZE
    && (s.status.SendInProgress? ==> k < CfCount(s.size))
  }

  /** The channel holds frames lo..hi of the message, in order, possibly with gaps. */
  ghost predicate InFlight(q: seq<Frame>, idx: seq<nat>, payload: seq<byte>, lo: nat, hi: nat)
    requires 8 <= |payload| && hi <= CfCount(|payload|)
  {
    && |idx| == |q|
    && (forall j :: 0 <= j < |idx| ==> lo <= idx[j] <= hi && q[j] == FrameAt(payload, idx[j]))
    && (forall i, j :: 0 <= i < j < |idx| ==> idx[i] < idx[j])
  }

  ghost predicate OnlyFlowControl(q: seq<Frame>) {
    forall j :: 0 <= j < |q| ==> q[j] == Granting || q[j] == Refusing
  }

  /** The receive buffer starts with the first n bytes of the payload. */
  ghost predicate Holds(r: Receiver, payload: seq<byte>, n: nat) {
    n <= |payload| && n <= |r.buf| && r.buf[..n] == payload[..n]
  }

  /** Receiver r has taken the first t consecutive frames of the payload. */
  ghost predicate TakingAt(r: Receiver, payload: seq<byte>, t: nat) {
    && ValidReceiver(r) && r.status.ReceiveInProgress?
    && r.size == Announced(payload) && r.offset == 7 * t + 6 && Holds(r, payload, r.offset)
  }

  ghost predicate ReceiverIn(net: Net, payload: seq<byte>, k: nat, idx: seq<nat>, ph: Phase)
    requires 8 <= |payload| && k <= CfCount(|payload|)
  {
    var r := net.b.rcv;
    match ph
    case NotStarted =>
      r.status.ReceiveIdle? && k == 0 && net.bwd == [] && net.a.snd.bsRemain == 0
      && |net.fwd| <= 1 && InFlight(net.fwd, idx, payload, 0, 0)
    case Taking(t) =>
      && TakingAt(r, payload, t) && t <= k
      // The sender is never more than one block ahead of what the receiver granted.
      && k + net.a.snd.bsRemain + BLOCK_SIZE * |net.bwd| <= BLOCK_SIZE * (t / BLOCK_SIZE + 1)
      && InFlight(net.fwd, idx, payload, t + 1, k)
    case Ended =>
      && !r.status.ReceiveInProgress?
      && (r.status.ReceiveFull? ==> r.size == Announced(payload) && Holds(r, payload, r.size))
      && InFlight(net.fwd, idx, payload, 1, k)
  }

  ghost predicate InvAt(net: Net, payload: seq<byte>, k: nat, idx: seq<nat>, ph: Phase) {
    && Valid(net) && !net.b.snd.status.SendInProgress? && net.a.rcv.status.ReceiveIdle?
    && SentFrames(net.a.snd, payload, k)
    && OnlyFlowControl(net.bwd)
    && ReceiverIn(net, payload, k, idx, ph)
  }

  ghost predicate Inv(net: Net, payload: seq<byte>) {
    exists k: nat, idx, ph :: InvAt(net, payload, k, idx, ph)
  }

  // ----- each step keeps the invariant

  /** The window argument: within eight frames of each other, equal 4-bit numbers mean equal frames. */
  lemma SequenceNumberDecides(i: nat, t: nat, k: nat)
    requires t < i <= k <= BLOCK_SIZE * (t / BLOCK_SIZE + 1)
    ensures i % 16 == (1 + t) % 16 <==> i == t + 1
  {
    assert i <= t + 8;
  }

  /** A timer that was just set has not expired. */
  lemma JustSet(c: Clock, now: int)
    ensures !After(c, now, Plus(c, now, RESPONSE_TIMEOUT))
  {
    TimeAfterIsAfter(now, now + RESPONSE_TIMEOUT);
  }

  /** A poll that may send puts exactly the next frame of the message on the bus. */
  lemma SendsNext(c: Clock, s: Sender, payload: seq<byte>, k: nat, now: int)
    requires ValidSender(s) && SentFrames(s, payload, k) && s.status.SendInProgress? && MaySend(c, s, now)
    ensures var (s', out) := PollSender(c, s, now, true);
            && out == [FrameAt(payload, k + 1)] && SentFrames(s', payload, k + 1)
            && s'.bsRemain == s.bsRemain - 1 && s'.stMin == s.stMin
            && (s'.status.SendInProgress? <==> k + 1 < CfCount(|payload|))
  {
    var len := Min(s.size - s.offset, 7);
    JustSet(c, now);
    NextSnOf(k);
    assert s.buf[s.offset..s.offset + len] == payload[7 * k + 6..7 * k + 6 + len];
  }

  /** A poll that sends no frame leaves the message where it is. */
  lemma PollWithoutSending(c: Clock, s: Sender, payload: seq<byte>, k: nat, now: int, ok: bool)
    requires ValidSender(s) && SentFrames(s, payload, k)
    requires !(s.status.SendInProgress? && MaySend(c, s, now) && ok)
    ensures var (s', out) := PollSender(c, s, now, ok);
            out == [] && SentFrames(s', payload, k) && s'.bsRemain == s.bsRemain
  {
  }

  lemma PollAKeeps(c: Clock, net: Net, payload: seq<byte>, k: nat, idx: seq<nat>, ph: Phase, now: int, ok: bool)
    requires InvAt(net, payload, k, idx, ph)
    ensures Inv(Apply(c, net, PollA(now, ok)), payload)
  {
    var s := net.a.snd;
    var net' := Apply(c, net, PollA(now, ok));
    if s.status.SendInProgress? && MaySend(c, s, now) && ok {
      SendsNext(c, s, payload, k, now);
      OneMoreSent(net, net', payload, k, idx, ph);
    } else {
      PollWithoutSending(c, s, payload, k, now, ok);
      assert net'.fwd == net.fwd;
      assert InvAt(net', payload, k, idx, ph);
    }
  }

  lemma OneMoreSent(net: Net, net': Net, payload: seq<byte>, k: nat, idx: seq<nat>, ph: Phase)
    requires InvAt(net, payload, k, idx, ph) && Valid(net') && net'.b == net.b && net'.bwd == net.bwd
    requires net'.a.rcv == net.a.rcv && SentFrames(net'.a.snd, payload, k + 1)
    requires net.a.snd.bsRemain > 0 && net'.a.snd.bsRemain == net.a.snd.bsRemain - 1
    requires net'.fwd == net.fwd + [FrameAt(payload, k + 1)]
    ensures InvAt(net', payload, k + 1, idx + [k + 1], ph)
  {
  }

  lemma PollBKeeps(c: Clock, net: Net, payload: seq<byte>, k: nat, idx: seq<nat>, ph: Phase, now: int, ok: bool)
    requires InvAt(net, payload, k, idx, ph)
    ensures Inv(Apply(c, net, PollB(now, ok)), payload)
  {
    var net' := Apply(c, net, PollB(now, ok));
    assert net'.bwd == net.bwd;
    if net'.b.rcv.status == net.b.rcv.status {
      assert InvAt(net', payload, k, idx, ph);
    } else {
      assert InvAt(net', payload, k, idx, Ended);
    }
  }

  lemma TwelveBits(n: nat)
    ensures n / 256 % 16 * 256 + n % 256 == n % 4096
  {
    assert n == n / 4096 * 4096 + n % 4096;
    var m := n % 4096;
    assert n / 256 == n / 4096 * 16 + m / 256;
    assert n / 256 % 16 == m / 256;
  }

  lemma FirstFrameBytes(payload: seq<byte>)
    requires 8 <= |payload|
    ensures var f := FrameAt(payload, 0);
            var high: nat := f[0] % 16;
            f[0] / 16 == 1 && high * 256 + f[1] == Announced(payload) && f[2..8] == payload[..6]
  {
    TwelveBits(|payload|);
  }

  /** The first frame starts the reception if the announced length needs several frames and fits the buffer. */
  lemma FirstFrameStarts(c: Clock, r: Receiver, payload: seq<byte>, now: int)
    requires 8 <= |payload| && ValidReceiver(r) && r.status.ReceiveIdle?
    ensures var (r', out) := OnFirst(c, r, FrameAt(payload, 0), 8, now);
            if 8 <= Announced(payload) <= |r.buf|
            then TakingAt(r', payload, 0) && |r'.buf| == |r.buf| && out == [Granting]
            else r'.status.ReceiveIdle? && ValidReceiver(r') && (out == [] || out == [Refusing])
  {
    var f := FrameAt(payload, 0);
    FirstFrameBytes(payload);
    OnFirstKeepsValid(c, r, f, 8, now);
    assert Write(r.buf, 0, f[2..8])[0..6] == payload[..6];
  }

  lemma DeliverFirstKeeps(c: Clock, net: Net, payload: seq<byte>, k: nat, idx: seq<nat>, now: int)
    requires InvAt(net, payload, k, idx, NotStarted) && net.fwd != []
    ensures Inv(Apply(c, net, DeliverFwd(now)), payload)
  {
    var net' := Apply(c, net, DeliverFwd(now));
    assert net.fwd == [FrameAt(payload, 0)];
    Dispatch(c, net.b, net.fwd[0], now);
    FirstFrameStarts(c, net.b.rcv, payload, now);
    assert net'.fwd == [] && net'.a == net.a;
    assert InvAt(net', payload, k, [], if net'.b.rcv.status.ReceiveInProgress? then Taking(0) else Ended);
  }

  /** From r to r' the receiver accepted n data bytes of frame f and answered with out. */
  ghost predicate Accepted(r: Receiver, f: Frame, n: nat, r': Receiver, out: seq<Frame>) {
    && |f| == 8 && n <= 7 && r.offset + n <= |r.buf|
    && r'.buf == Write(r.buf, r.offset, f[1..1 + n]) && r'.offset == r.offset + n && r'.size == r.size
    && r'.status == (if r'.offset == r.size then ReceiveFull else ReceiveInProgress)
    && out == if r'.offset < r.size && r.bsCount - 1 == 0 then [Granting] else []
  }

  /** What the receiver makes of a consecutive frame that carries the number it waits for. */
  lemma Accept(c: Clock, r: Receiver, f: Frame, now: int)
    requires ValidReceiver(r) && r.status.ReceiveInProgress? && |f| == 8 && f[0] % 16 == r.sn
    ensures var (r', out) := OnConsecutive(c, r, f, 8, now);
            Accepted(r, f, Min(r.size - r.offset, 7), r', out)
  {
  }

  lemma HoldsMore(r: Receiver, payload: seq<byte>, src: seq<byte>)
    requires Holds(r, payload, r.offset) && r.offset + |src| <= |payload| && r.offset + |src| <= |r.buf|
    requires src == payload[r.offset..r.offset + |src|]
    ensures Write(r.buf, r.offset, src)[..r.offset + |src|] == payload[..r.offset + |src|]
  {
    WriteExtendsPrefix(r.buf, r.offset, src, payload[..r.offset]);
    SplitPrefix(payload, r.offset, r.offset + |src|);
  }

  /** The flow control frame due after consecutive frame t + 1: at the end of a block, unless the message is
      complete. */
  function GrantAfter(r: Receiver, t: nat): seq<Frame> {
    if r.offset < r.size && (t + 1) % BLOCK_SIZE == 0 then [Granting] else []
  }

  /** From r to r' the receiver took consecutive frame t + 1 of the payload. */
  ghost predicate TookNext(r: Receiver, r': Receiver, payload: seq<byte>, t: nat) {
    && |r'.buf| == |r.buf| && r'.size == Announced(payload)
    && r'.offset == Min(r'.size, 7 * t + 13) && Holds(r', payload, r'.offset)
    && r'.status == (if r'.offset == r'.size then ReceiveFull else ReceiveInProgress)
  }

  lemma AcceptedFrame(r: Receiver, payload: seq<byte>, t: nat, f: Frame, r': Receiver, out: seq<Frame>)
    requires 8 <= |payload| && TakingAt(r, payload, t)
    requires var n := Min(r.size - r.offset, 7);
             Accepted(r, f, n, r', out) && f[1..1 + n] == payload[r.offset..r.offset + n]
    ensures TookNext(r, r', payload, t) && out == GrantAfter(r', t)
  {
    var src := f[1..1 + Min(r.size - r.offset, 7)];
    InStep(r, t);
    HoldsMore(r, payload, src);
    assert r'.buf == Write(r.buf, r.offset, src) && r'.offset == r.offset + |src|;
  }

  lemma TakeGiven(c: Clock, r: Receiver, payload: seq<byte>, t: nat, f: Frame, now: int)
    requires 8 <= |payload| && TakingAt(r, payload, t) && |f| == 8 && f[0] == 0x20 + (t + 1) % 16
    requires var n := Min(r.size - r.offset, 7); f[1..1 + n] == payload[r.offset..r.offset + n]
    ensures var (r', out) := OnConsecutive(c, r, f, 8, now);
            TookNext(r, r', payload, t) && out == GrantAfter(r', t)
  {
    InStep(r, t);
    Accept(c, r, f, now);
    var (r', out) := OnConsecutive(c, r, f, 8, now);
    AcceptedFrame(r, payload, t, f, r', out);
  }

  lemma TakeFrame(c: Clock, r: Receiver, payload: seq<byte>, t: nat, now: int)
    requires 8 <= |payload| && TakingAt(r, payload, t) && t + 1 <= CfCount(|payload|)
    ensures var (r', out) := OnConsecutive(c, r, FrameAt(payload, t + 1), 8, now);
            TookNext(r, r', payload, t) && out == GrantAfter(r', t)
  {
    NextBytes(r, payload, t);
    TakeGiven(c, r, payload, t, FrameAt(payload, t + 1), now);
  }

  /** The expected frame carries what comes next. */
  lemma NextBytes(r: Receiver, payload: seq<byte>, t: nat)
    requires 8 <= |payload| && TakingAt(r, payload, t) && t + 1 <= CfCount(|payload|)
    ensures var n, f := Min(r.size - r.offset, 7), FrameAt(payload, t + 1);
            f[0] == 0x20 + (t + 1) % 16 && f[1..1 + n] == payload[r.offset..r.offset + n]
  {
    assert 7 * (t + 1) - 1 == r.offset;
    FrameBytes(payload, t + 1, Min(r.size - r.offset, 7));
  }

  lemma InStep(r: Receiver, t: nat)
    requires ValidReceiver(r) && r.status.ReceiveInProgress? && r.offset == 7 * t + 6
    ensures r.sn == (1 + t) % 16 && (r.bsCount - 1 == 0 <==> (t + 1) % BLOCK_SIZE == 0)
  {
    assert (r.offset - 6) / 7 == t;
  }

  /** Consecutive frame i carries its number modulo 16 and, from its second byte on, its part of the payload. */
  lemma FrameBytes(payload: seq<byte>, i: nat, n: nat)
    requires 8 <= |payload| && 1 <= i <= CfCount(|payload|) && n <= 7 && 7 * i - 1 + n <= |payload|
    ensures var f := FrameAt(payload, i);
            f[0] == 0x20 + i % 16 && f[1..1 + n] == payload[7 * i - 1..7 * i - 1 + n]
  {
    var f := FrameAt(payload, i);
    var data := payload[7 * i - 1..Min(|payload|, 7 * i + 6)];
    assert f == [0x20 + i % 16] + data + Zeros(7 - |data|);
    assert forall j :: 0 <= j < n ==> f[1 + j] == data[j] == payload[7 * i - 1 + j];
    assert f[1..1 + n] == payload[7 * i - 1..7 * i - 1 + n];
  }

  /** A block boundary is exactly where the granted total grows by one block. */
  lemma NextBlock(t: nat)
    ensures (t + 1) / BLOCK_SIZE == if (t + 1) % BLOCK_SIZE == 0 then t / BLOCK_SIZE + 1 else t / BLOCK_SIZE
  {
  }

  /** From net to net' the receiver took consecutive frame t + 1 from the head of the channel. */
  ghost predicate TookFrame(net: Net, net': Net, payload: seq<byte>, t: nat)
    requires net.fwd != []
  {
    && net'.a == net.a && net'.b.snd == net.b.snd && ValidReceiver(net'.b.rcv)
    && TookNext(net.b.rcv, net'.b.rcv, payload, t)
    && net'.fwd == net.fwd[1..] && net'.bwd == net.bwd + GrantAfter(net'.b.rcv, t)
  }

  /** What the delivery of a consecutive frame does to the network. */
  lemma ApplyConsecutive(c: Clock, net: Net, now: int)
    requires Valid(net) && net.fwd != [] && |net.fwd[0]| == 8 && net.fwd[0][0] / 16 == 2
    ensures var (r, out) := OnConsecutive(c, net.b.rcv, net.fwd[0], 8, now);
            Apply(c, net, DeliverFwd(now)) == Net(net.a, Link(net.b.snd, r), net.fwd[1..], net.bwd + out)
  {
    Dispatch(c, net.b, net.fwd[0], now);
  }

  /** Delivery of the frame the receiver waits for. */
  lemma DeliverExpected(c: Clock, net: Net, payload: seq<byte>, t: nat, now: int)
    requires Valid(net) && 8 <= |payload| && TakingAt(net.b.rcv, payload, t) && t + 1 <= CfCount(|payload|)
    requires net.fwd != [] && net.fwd[0] == FrameAt(payload, t + 1)
    ensures TookFrame(net, Apply(c, net, DeliverFwd(now)), payload, t)
  {
    FrameBytes(payload, t + 1, 0);
    ApplyConsecutive(c, net, now);
    TakeFrame(c, net.b.rcv, payload, t, now);
  }

  lemma TakingNext(r: Receiver, r': Receiver, payload: seq<byte>, t: nat)
    requires TakingAt(r, payload, t) && TookNext(r, r', payload, t) && ValidReceiver(r')
    ensures if 7 * t + 13 < Announced(payload) then TakingAt(r', payload, t + 1)
            else r'.status.ReceiveFull? && Holds(r', payload, Announced(payload))
  {
  }

  lemma TakingEnds(net: Net, net': Net, payload: seq<byte>, k: nat, idx: seq<nat>, t: nat)
    requires InvAt(net, payload, k, idx, Taking(t)) && net.fwd != [] && idx[0] == t + 1
    requires TookFrame(net, net', payload, t) && 7 * t + 13 >= Announced(payload)
    ensures InvAt(net', payload, k, idx[1..], Ended)
  {
    TakingNext(net.b.rcv, net'.b.rcv, payload, t);
  }

  lemma TakingGoesOn(net: Net, net': Net, payload: seq<byte>, k: nat, idx: seq<nat>, t: nat)
    requires InvAt(net, payload, k, idx, Taking(t)) && net.fwd != [] && idx[0] == t + 1
    requires TookFrame(net, net', payload, t) && 7 * t + 13 < Announced(payload)
    ensures InvAt(net', payload, k, idx[1..], Taking(t + 1))
  {
    TakingNext(net.b.rcv, net'.b.rcv, payload, t);
    NextBlock(t);
  }

  lemma TakingKeeps(net: Net, net': Net, payload: seq<byte>, k: nat, idx: seq<nat>, t: nat)
    requires InvAt(net, payload, k, idx, Taking(t)) && net.fwd != [] && idx[0] == t + 1
    requires TookFrame(net, net', payload, t)
    ensures Inv(net', payload)
  {
    if 7 * t + 13 < Announced(payload) {
      TakingGoesOn(net, net', payload, k, idx, t);
    } else {
      TakingEnds(net, net', payload, k, idx, t);
    }
  }

  /** Any other consecutive frame ends the reception or finds it ended; there is no answer. */
  lemma OtherFrame(c: Clock, r: Receiver, f: Frame, now: int)
    requires ValidReceiver(r) && |f| == 8 && (r.status.ReceiveInProgress? ==> r.sn != f[0] % 16)
    ensures var (r', out) := OnConsecutive(c, r, f, 8, now);
            && out == [] && r'.buf == r.buf && r'.size == r.size
            && r'.status == if r.status.ReceiveInProgress? then ReceiveIdle else r.status
  {
  }

  /** In flight is a frame other than the one the receiver waits for: their numbers differ modulo 16. */
  lemma OtherNumber(net: Net, payload: seq<byte>, k: nat, idx: seq<nat>, ph: Phase)
    requires InvAt(net, payload, k, idx, ph) && net.fwd != [] && (ph.Ended? || (ph.Taking? && idx[0] != ph.taken + 1))
    ensures |net.fwd[0]| == 8 && net.fwd[0][0] / 16 == 2
    ensures net.b.rcv.status.ReceiveInProgress? ==> net.b.rcv.sn != net.fwd[0][0] % 16
  {
    FrameBytes(payload, idx[0], 0);
    if ph.Taking? {
      InStep(net.b.rcv, ph.taken);
      SequenceNumberDecides(idx[0], ph.taken, k);
    }
  }

  lemma DeliverOtherKeeps(c: Clock, net: Net, payload: seq<byte>, k: nat, idx: seq<nat>, ph: Phase, now: int)
    requires InvAt(net, payload, k, idx, ph) && net.fwd != [] && (ph.Ended? || (ph.Taking? && idx[0] != ph.taken + 1))
    ensures Inv(Apply(c, net, DeliverFwd(now)), payload)
  {
    OtherNumber(net, payload, k, idx, ph);
    ApplyConsecutive(c, net, now);
    OtherFrame(c, net.b.rcv, net.fwd[0], now);
    OtherTaken(net, Apply(c, net, DeliverFwd(now)), payload, k, idx, ph);
  }

  lemma OtherTaken(net: Net, net': Net, payload: seq<byte>, k: nat, idx: seq<nat>, ph: Phase)
    requires InvAt(net, payload, k, idx, ph) && net.fwd != [] && !ph.NotStarted? && Valid(net')
    requires net'.a == net.a && net'.b.snd == net.b.snd && net'.fwd == net.fwd[1..] && net'.bwd == net.bwd + []
    requires net'.b.rcv.buf == net.b.rcv.buf && net'.b.rcv.size == net.b.rcv.size
    requires net'.b.rcv.status == if net.b.rcv.status.ReceiveInProgress? then ReceiveIdle else net.b.rcv.status
    ensures Inv(net', payload)
  {
    assert InvAt(net', payload, k, idx[1..], Ended);
  }

  lemma DeliverBwdKeeps(c: Clock, net: Net, payload: seq<byte>, k: nat, idx: seq<nat>, ph: Phase, now: int)
    requires InvAt(net, payload, k, idx, ph)
    ensures Inv(Apply(c, net, DeliverBwd(now)), payload)
  {
    var net' := Apply(c, net, DeliverBwd(now));
    if net.bwd == [] {
      assert InvAt(net', payload, k, idx, ph);
    } else {
      var f := net.bwd[0];
      Dispatch(c, net.a, f, now);
      assert net'.fwd == net.fwd;
      assert InvAt(net', payload, k, idx, ph);
    }
  }

  lemma LossInFlight(q: seq<Frame>, idx: seq<nat>, payload: seq<byte>, lo: nat, hi: nat, i: nat)
    requires 8 <= |payload| && hi <= CfCount(|payload|) && InFlight(q, idx, payload, lo, hi) && i < |q|
    ensures InFlight(Without(q, i), idx[..i] + idx[i + 1..], payload, lo, hi)
  {
  }

  lemma LoseFwdKeeps(net: Net, payload: seq<byte>, k: nat, idx: seq<nat>, ph: Phase, i: nat)
    requires InvAt(net, payload, k, idx, ph) && i < |net.fwd|
    ensures Inv(net.(fwd := Without(net.fwd, i)), payload)
  {
    var lo, hi := (match ph case NotStarted => 0 case Taking(t) => t + 1 case Ended => 1), k;
    LossInFlight(net.fwd, idx, payload, lo, hi, i);
    assert InvAt(net.(fwd := Without(net.fwd, i)), payload, k, idx[..i] + idx[i + 1..], ph);
  }

  lemma LoseBwdKeeps(net: Net, payload: seq<byte>, k: nat, idx: seq<nat>, ph: Phase, i: nat)
    requires InvAt(net, payload, k, idx, ph)
    ensures Inv(net.(bwd := Without(net.bwd, i)), payload)
  {
    assert InvAt(net.(bwd := Without(net.bwd, i)), payload, k, idx, ph);
  }

  lemma TakeKeeps(c: Clock, net: Net, payload: seq<byte>, k: nat, idx: seq<nat>, ph: Phase, room: nat)
    requires InvAt(net, payload, k, idx, ph)
    ensures Inv(Apply(c, net, Take(room)), payload)
  {
    assert InvAt(Apply(c, net, Take(room)), payload, k, idx, ph);
  }

  lemma DeliverFwdKeeps(c: Clock, net: Net, payload: seq<byte>, k: nat, idx: seq<nat>, ph: Phase, now: int)
    requires InvAt(net, payload, k, idx, ph) && net.fwd != []
    ensures Inv(Apply(c, net, DeliverFwd(now)), payload)
  {
    if ph.Taking? && idx[0] == ph.taken + 1 {
      DeliverExpected(c, net, payload, ph.taken, now);
      TakingKeeps(net, Apply(c, net, DeliverFwd(now)), payload, k, idx, ph.taken);
    } else if ph.NotStarted? {
      DeliverFirstKeeps(c, net, payload, k, idx, now);
    } else {
      DeliverOtherKeeps(c, net, payload, k, idx, ph, now);
    }
  }

  /** A step whose channel is empty changes nothing. */
  ghost predicate Disabled(net: Net, step: Step) {
    (step.DeliverFwd? && net.fwd == []) || (step.LoseFwd? && step.i >= |net.fwd|)
  }

  lemma StepKeeps(c: Clock, net: Net, payload: seq<byte>, step: Step)
    requires Valid(net) && Inv(net, payload)
    ensures Inv(Apply(c, net, step), payload)
  {
    var k: nat, idx, ph :| InvAt(net, payload, k, idx, ph);
    if Disabled(net, step) {
      assert Apply(c, net, step) == net;
    } else {
      match step
      case PollA(now, ok) => PollAKeeps(c, net, payload, k, idx, ph, now, ok);
      case PollB(now, ok) => PollBKeeps(c, net, payload, k, idx, ph, now, ok);
      case DeliverFwd(now) => DeliverFwdKeeps(c, net, payload, k, idx, ph, now);
      case DeliverBwd(now) => DeliverBwdKeeps(c, net, payload, k, idx, ph, now);
      case LoseFwd(i) => LoseFwdKeeps(net, payload, k, idx, ph, i);
      case LoseBwd(i) => LoseBwdKeeps(net, payload, k, idx, ph, i);
      case Take(room) => TakeKeeps(c, net, payload, k, idx, ph, room);
    }
  }

  lemma {:induction false} RunKeeps(c: Clock, net: Net, payload: seq<byte>, steps: seq<Step>)
    requires Valid(net) && Inv(net, payload)
    ensures Inv(Run(c, net, steps), payload)
    decreases |steps|
  {
    if steps != [] {
      StepKeeps(c, net, payload, steps[0]);
      RunKeeps(c, Apply(c, net, steps[0]), payload, steps[1..]);
    }
  }

  lemma StartInv(c: Clock, a: Link, b: Link, payload: seq<byte>, now: int)
    requires Fresh(a) && Fresh(b) && 8 <= |payload| <= |a.snd.buf|
    ensures Inv(Start(c, a, b, payload, now), payload)
  {
    var net := Start(c, a, b, payload, now);
    assert net.fwd == [FrameAt(payload, 0)];
    assert net.a.snd.buf[0..|payload|] == payload;
    assert InvAt(net, payload, 0, [0], NotStarted);
  }

  // ----- messages that fit one frame

  ghost predicate SingleInv(net: Net, payload: seq<byte>) {
    && Valid(net) && |payload| <= 7
    && !net.a.snd.status.SendInProgress? && !net.b.snd.status.SendInProgress?
    && |net.fwd| <= 1 && (net.fwd != [] ==> net.fwd[0] == SingleFrame(payload))
    && net.bwd == [] && !net.b.rcv.status.ReceiveInProgress?
    && (net.b.rcv.status.ReceiveFull? ==> net.b.rcv.size == |payload| && Holds(net.b.rcv, payload, |payload|))
  }

  lemma SingleDeliver(c: Clock, net: Net, payload: seq<byte>, now: int)
    requires SingleInv(net, payload) && net.fwd != []
    ensures SingleInv(Apply(c, net, DeliverFwd(now)), payload)
    ensures payload != [] ==> Apply(c, net, DeliverFwd(now)).b.rcv.status.ReceiveFull?
  {
    var f := SingleFrame(payload);
    var n := |payload|;
    assert f + Zeros(0) == f && f[0] == n && f[0] / 16 == 0;
    assert f[1..1 + n] == payload;
    if n > 0 {
      var buf := Write(net.b.rcv.buf, 0, payload);
      assert buf[0..n] == payload[..n];
    }
  }

  lemma SingleStepKeeps(c: Clock, net: Net, payload: seq<byte>, step: Step)
    requires SingleInv(net, payload)
    ensures SingleInv(Apply(c, net, step), payload)
  {
    if step.DeliverFwd? && net.fwd != [] {
      SingleDeliver(c, net, payload, step.now);
    }
  }

  lemma {:induction false} SingleRunKeeps(c: Clock, net: Net, payload: seq<byte>, steps: seq<Step>)
    requires SingleInv(net, payload)
    ensures SingleInv(Run(c, net, steps), payload)
    decreases |steps|
  {
    if steps != [] {
      SingleStepKeeps(c, net, payload, steps[0]);
      SingleRunKeeps(c, Apply(c, net, steps[0]), payload, steps[1..]);
    }
  }

  // ----- safety of every run, under loss

  /** The message a complete receiver hands to its application. */
  function Message(r: Receiver): seq<byte>
    requires ValidReceiver(r)
  {
    r.buf[..r.size]
  }

  lemma StartSingle(c: Clock, a: Link, b: Link, payload: seq<byte>, now: int)
    requires Fresh(a) && Fresh(b) && |payload| <= 7 && |payload| <= |a.snd.buf|
    ensures SingleInv(Start(c, a, b, payload, now), payload)
  {
  }

  /** If the receiver reports a complete message, it is the payload as far as the announced length reaches. */
  ghost predicate Intact(r: Receiver, payload: seq<byte>) {
    && ValidReceiver(r)
    && (r.status.ReceiveFull? ==> Message(r) == payload[..Announced(payload)])
  }

  lemma InvIntact(net: Net, payload: seq<byte>)
    requires Inv(net, payload)
    ensures Intact(net.b.rcv, payload)
  {
    var k: nat, idx, ph :| InvAt(net, payload, k, idx, ph);
    assert ReceiverIn(net, payload, k, idx, ph);
  }

  lemma SingleIntact(net: Net, payload: seq<byte>)
    requires SingleInv(net, payload)
    ensures Intact(net.b.rcv, payload)
  {
  }

  /** Whatever is polled, delivered, lost or timed out, in whatever order: a receiver that reports a complete
      message holds the payload, as far as the 12-bit length of the first frame reaches. */
  lemma SafeUnderLoss(c: Clock, a: Link, b: Link, payload: seq<byte>, now: int, steps: seq<Step>)
    requires Fresh(a) && Fresh(b) && |payload| <= |a.snd.buf|
    ensures Intact(Run(c, Start(c, a, b, payload, now), steps).b.rcv, payload)
  {
    var net := Start(c, a, b, payload, now);
    if |payload| < 8 {
      StartSingle(c, a, b, payload, now);
      SingleRunKeeps(c, net, payload, steps);
      SingleIntact(Run(c, net, steps), payload);
    } else {
      StartInv(c, a, b, payload, now);
      RunKeeps(c, net, payload, steps);
      InvIntact(Run(c, net, steps), payload);
    }
  }

  /** What isotp_receive hands to the application behind link b, whenever it is called and whatever happened before: the
      beginning of the payload that the announced length and the application's buffer have room for, once a message is
      complete, and nothing otherwise. */
  lemma ReceivesPayload(c: Clock, a: Link, b: Link, payload: seq<byte>, now: int, steps: seq<Step>, room: nat)
    requires Fresh(a) && Fresh(b) && |payload| <= |a.snd.buf|
    ensures var b1 := Run(c, Start(c, a, b, payload, now), steps).b;
            Receive(b1, room).1
            == if b1.rcv.status.ReceiveFull? then payload[..Min(room, |payload| % 4096)] else []
  {
    SafeUnderLoss(c, a, b, payload, now, steps);
    var r := Run(c, Start(c, a, b, payload, now), steps).b.rcv;
    if r.status.ReceiveFull? {
      FirstBytes(r.buf, r.size, payload, room);
    }
  }

  lemma FirstBytes(buf: seq<byte>, size: nat, payload: seq<byte>, room: nat)
    requires size <= |buf| && buf[..size] == payload[..Announced(payload)]
    ensures buf[..Min(size, room)] == payload[..Min(room, |payload| % 4096)]
  {
    assert size == Announced(payload);
    assert buf[..Min(size, room)] == buf[..size][..Min(size, room)];
    assert payload[..Min(size, room)] == payload[..Announced(payload)][..Min(size, room)];
  }

  lemma AnnouncedWhole(payload: seq<byte>)
    ensures payload[..Announced(payload)] == payload <==> |payload| <= 4095
  {
    if |payload| <= 4095 {
      assert payload[..|payload|] == payload;
    } else {
      assert |payload[..Announced(payload)]| < |payload|;
    }
  }

  /** The payload arrives unchanged exactly when it has the documented length of at most 4095 bytes:
      isotp_send_with_id checks the send buffer only. */
  lemma UnchangedIffAnnounceable(c: Clock, a: Link, b: Link, payload: seq<byte>, now: int, steps: seq<Step>)
    requires Fresh(a) && Fresh(b) && |payload| <= |a.snd.buf|
    ensures var r := Run(c, Start(c, a, b, payload, now), steps).b.rcv;
            r.status.ReceiveFull? ==> (Message(r) == payload <==> |payload| <= 4095)
  {
    SafeUnderLoss(c, a, b, payload, now, steps);
    AnnouncedWhole(payload);
  }

  // ----- a payload that is too long does get truncated

  /** First frame, grant, consecutive frame: the steps that deliver a message announced with 8 bytes. */
  function TruncatingRun(now: int): seq<Step> {
    [DeliverFwd(now), DeliverBwd(now), PollA(now, true), DeliverFwd(now)]
  }

  lemma RunFirst(c: Clock, net: Net, step: Step, steps: seq<Step>)
    requires Valid(net)
    ensures Run(c, net, [step] + steps) == Run(c, Apply(c, net, step), steps)
  {
    assert ([step] + steps)[1..] == steps;
  }

  lemma RunOfFour(c: Clock, net: Net, s1: Step, s2: Step, s3: Step, s4: Step)
    requires Valid(net)
    ensures Run(c, net, [s1, s2, s3, s4]) == Apply(c, Apply(c, Apply(c, Apply(c, net, s1), s2), s3), s4)
  {
    assert [s1, s2, s3, s4] == [s1] + [s2, s3, s4] && [s2, s3, s4] == [s2] + [s3, s4] && [s3, s4] == [s3] + [s4];
    assert [s4] == [s4] + [];
    RunFirst(c, net, s1, [s2, s3, s4]);
    var net1 := Apply(c, net, s1);
    RunFirst(c, net1, s2, [s3, s4]);
    var net2 := Apply(c, net1, s2);
    RunFirst(c, net2, s3, [s4]);
    RunFirst(c, Apply(c, net2, s3), s4, []);
  }

  /** The receiver takes the first frame and grants a block. */
  lemma FirstIsTaken(c: Clock, net: Net, payload: seq<byte>, now: int)
    requires InvAt(net, payload, 0, [0], NotStarted) && net.fwd == [FrameAt(payload, 0)]
    requires 8 <= Announced(payload) <= |net.b.rcv.buf|
    ensures var net1 := Apply(c, net, DeliverFwd(now));
            && TakingAt(net1.b.rcv, payload, 0) && net1.a == net.a && net1.fwd == [] && net1.bwd == [Granting]
  {
    Dispatch(c, net.b, net.fwd[0], now);
    FirstFrameStarts(c, net.b.rcv, payload, now);
  }

  /** The sender takes the grant. */
  lemma GrantIsTaken(c: Clock, net: Net, payload: seq<byte>, now: int)
    requires Valid(net) && net.bwd == [Granting]
    requires SentFrames(net.a.snd, payload, 0) && net.a.snd.status.SendInProgress?
    ensures var net1 := Apply(c, net, DeliverBwd(now));
            && net1.b == net.b && net1.fwd == net.fwd && SentFrames(net1.a.snd, payload, 0)
            && net1.a.snd.status.SendInProgress? && MaySend(c, net1.a.snd, now)
  {
    Dispatch(c, net.a, Granting, now);
  }

  /** The next frame completes a message announced with 8 bytes. */
  lemma NextCompletes(c: Clock, net: Net, payload: seq<byte>, now: int)
    requires Valid(net) && net.fwd == [] && SentFrames(net.a.snd, payload, 0) && net.a.snd.status.SendInProgress?
    requires MaySend(c, net.a.snd, now) && TakingAt(net.b.rcv, payload, 0) && Announced(payload) == 8
    ensures Apply(c, Apply(c, net, PollA(now, true)), DeliverFwd(now)).b.rcv.status.ReceiveFull?
  {
    SendsNext(c, net.a.snd, payload, 0, now);
    var net1 := Apply(c, net, PollA(now, true));
    assert net1.fwd == [FrameAt(payload, 1)];
    DeliverExpected(c, net1, payload, 0, now);
  }

  /** A payload above 4095 bytes is announced modulo 4096 and does arrive truncated: one of 4096 + 8 bytes (or any other
      multiple of 4096 and 8) is reported complete with 8 bytes. It takes a send buffer that holds it; with one of 4095
      bytes, which this repository configures, isotp_send_with_id refuses such a payload. */
  lemma TruncationIsReached(c: Clock, a: Link, b: Link, payload: seq<byte>, now: int)
    requires Fresh(a) && Fresh(b) && 4095 < |payload| <= |a.snd.buf| && |payload| % 4096 == 8 <= |b.rcv.buf|
    ensures var r := Run(c, Start(c, a, b, payload, now), TruncatingRun(now)).b.rcv;
            r.status.ReceiveFull? && Message(r) == payload[..8] != payload
  {
    var net := Start(c, a, b, payload, now);
    assert net.fwd == [FrameAt(payload, 0)];
    assert net.a.snd.buf[0..|payload|] == payload;
    assert InvAt(net, payload, 0, [0], NotStarted);
    FirstIsTaken(c, net, payload, now);
    var net1 := Apply(c, net, DeliverFwd(now));
    GrantIsTaken(c, net1, payload, now);
    NextCompletes(c, Apply(c, net1, DeliverBwd(now)), payload, now);
    RunOfFour(c, net, DeliverFwd(now), DeliverBwd(now), PollA(now, true), DeliverFwd(now));
    SafeUnderLoss(c, a, b, payload, now, TruncatingRun(now));
  }
}
