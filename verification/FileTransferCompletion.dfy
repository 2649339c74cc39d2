/** Without losses and timeouts every schedule of the file transfer ends with the whole file, after a fixed number of
    steps. */
module FileTransferCompletion {
  import opened Bytes
  import opened Uds
  import opened Upgrade
  import opened FileTransfer
  import opened FileTransferSafety

  /** Nothing is lost, nothing times out, and the file system takes what it is given. */
  predicate Calm(step: Step) {
    match step
    case Take(_, w, _) => w.opens && w.writable >= BLOCK
    case Receive => true
    case _ => false
  }

  /** The one message that is under way, and where the server stands. */
  ghost predicate OneUnderWay(source: seq<byte>, n: System) {
    var i := n.client.index;
    match n.client.phase
    case Opening =>
      || (n.requests == [Open] && n.responses == [] && !n.xfer.active)
      || (n.requests == [] && n.xfer.active
          && |n.responses| == 1 && Positive(n.responses[0], SID_REQUEST_FILE_TRANSFER))
    case Sending =>
      || (n.responses == [] && n.requests == [Block(i, BlockOf(source, BLOCK, i))] && n.xfer.active && n.accepted == i)
      || (n.requests == [] && n.responses == [[ResponseSid(SID_TRANSFER_DATA), (i + 1) % 256]] && n.xfer.active)
    case Exiting =>
      || (n.responses == [] && n.requests == [Exit] && n.xfer.active)
      || (n.requests == [] && n.responses == [[ResponseSid(SID_REQUEST_TRANSFER_EXIT)]])
    case Done => n.requests == [] && n.responses == []
    case Failed => false
  }

  ghost predicate CalmInv(source: seq<byte>, n: System) {
    Inv(source, n) && OneUnderWay(source, n)
  }

  /** The messages still to be delivered, in both directions. */
  function Togo(source: seq<byte>, n: System): int {
    var request := if n.requests == [] then 0 else 1;
    match n.client.phase
    case Opening => 2 * Blocks(source) + 3 + request
    case Sending => 2 * (Blocks(source) - n.client.index) + 1 + request
    case Exiting => 1 + request
    case _ => 0
  }

  lemma OpenTaken(source: seq<byte>, open: seq<byte>, n: System, step: Step)
    requires Opens(source, open) && CalmInv(source, n) && Calm(step) && step.Take? && Enabled(open, n, step)
    requires n.client.phase.Opening?
    ensures var n1 := Apply(source, open, n, step);
            OneUnderWay(source, n1) && n1.client == n.client && n1.requests == []
  {
    ServeOpen(source, open, n, step);
    var f := ParseFileRequest(step.q);
    TakesEffect(source, open, n, step, OnOpen(|source|, f.mode, f.format, n.xfer, n.app, step.w));
  }

  lemma BlockAccepted(source: seq<byte>, n: System, w: World)
    requires CalmInv(source, n) && n.client.phase.Sending? && n.requests != [] && w.writable >= BLOCK
    ensures n.requests[0].Block? && n.requests[0].index == n.client.index
    ensures var i, data := n.client.index, n.requests[0].data;
            var e := OnBlock((i + 1) % 256, data, n.xfer, n.app, w);
            e.code == POSITIVE && e.xfer.active && e.response == [ResponseSid(SID_TRANSFER_DATA), (i + 1) % 256]
  {
    PrefixGrows(source, n.client.index);
  }

  lemma BlockAnswered(source: seq<byte>, n: System, n1: System, e: Effect)
    requires CalmInv(source, n) && n.client.phase.Sending? && n.requests != [] && Took(n, n1, e)
    requires e.code == POSITIVE && e.xfer.active
             && e.response == [ResponseSid(SID_TRANSFER_DATA), (n.client.index + 1) % 256]
    ensures OneUnderWay(source, n1) && n1.client == n.client && n1.requests == []
  {
  }

  lemma BlockTookCalmly(source: seq<byte>, n: System, n1: System, w: World)
    requires CalmInv(source, n) && n.client.phase.Sending? && n.requests != [] && n.requests[0].Block?
    requires w.writable >= BLOCK
    requires Took(n, n1, OnBlock((n.requests[0].index + 1) % 256, n.requests[0].data, n.xfer, n.app, w))
    ensures OneUnderWay(source, n1) && n1.client == n.client && n1.requests == []
  {
    var i := n.client.index;
    BlockAccepted(source, n, w);
    BlockAnswered(source, n, n1, OnBlock((i + 1) % 256, n.requests[0].data, n.xfer, n.app, w));
  }

  lemma BlockUnderWay(source: seq<byte>, n: System)
    requires CalmInv(source, n) && n.client.phase.Sending? && n.requests != []
    ensures n.requests[0].Block?
  {
  }

  lemma BlockTaken(source: seq<byte>, open: seq<byte>, n: System, step: Step)
    requires CalmInv(source, n) && Calm(step) && step.Take? && Enabled(open, n, step) && n.client.phase.Sending?
    ensures var n1 := Apply(source, open, n, step);
            OneUnderWay(source, n1) && n1.client == n.client && n1.requests == []
  {
    BlockUnderWay(source, n);
    TakesBlock(source, open, n, step);
    BlockTookCalmly(source, n, Apply(source, open, n, step), step.w);
  }

  lemma ExitTakenCalmly(source: seq<byte>, open: seq<byte>, n: System, step: Step)
    requires CalmInv(source, n) && step.Take? && Enabled(open, n, step) && n.client.phase.Exiting?
    ensures var n1 := Apply(source, open, n, step);
            OneUnderWay(source, n1) && n1.client == n.client && n1.requests == []
  {
    TakeExitKeeps(source, open, n, step);
  }

  /** The client goes on to block `index`, or to the exit. */
  lemma EntersCalmly(source: seq<byte>, n: System, n1: System, index: nat)
    requires Inv(source, n) && n.requests == [] && n.xfer.active && n.accepted == index <= Blocks(source)
    requires n1 == n.(client := Enter(source, index, BLOCK), responses := [],
                      requests := Outgoing(source, Enter(source, index, BLOCK)))
    ensures OneUnderWay(source, n1)
    ensures Togo(source, n1) == 2 * (Blocks(source) - index) + 2
  {
  }

  lemma OpenAnswered(source: seq<byte>, open: seq<byte>, n: System)
    requires CalmInv(source, n) && n.responses != [] && n.client.phase.Opening?
    ensures var n1 := Apply(source, open, n, Receive);
            OneUnderWay(source, n1) && Togo(source, n1) == Togo(source, n) - 1
  {
    assert ResponseOk(source, n, n.responses[0]);
    assert n.responses[1..] == [];
    EntersCalmly(source, n, Apply(source, open, n, Receive), 0);
  }

  lemma BlockAcknowledged(source: seq<byte>, open: seq<byte>, n: System)
    requires CalmInv(source, n) && n.responses != [] && n.client.phase.Sending?
    ensures var n1 := Apply(source, open, n, Receive);
            OneUnderWay(source, n1) && Togo(source, n1) == Togo(source, n) - 1
  {
    assert ResponseOk(source, n, n.responses[0]);
    assert n.responses[1..] == [];
    EntersCalmly(source, n, Apply(source, open, n, Receive), n.client.index + 1);
  }

  lemma ReceiveCalmly(source: seq<byte>, open: seq<byte>, n: System)
    requires CalmInv(source, n) && n.responses != []
    ensures var n1 := Apply(source, open, n, Receive);
            OneUnderWay(source, n1) && Togo(source, n1) == Togo(source, n) - 1
  {
    if n.client.phase.Opening? {
      OpenAnswered(source, open, n);
    } else if n.client.phase.Sending? {
      BlockAcknowledged(source, open, n);
    }
  }

  /** A step delivers the one message under way, or changes nothing. */
  lemma CalmStep(source: seq<byte>, open: seq<byte>, n: System, step: Step)
    requires Opens(source, open) && CalmInv(source, n) && Calm(step)
    ensures CalmInv(source, Apply(source, open, n, step))
    ensures Togo(source, Apply(source, open, n, step)) == Togo(source, n) - if Enabled(open, n, step) then 1 else 0
  {
    StepKeeps(source, open, n, step);
    if Enabled(open, n, step) {
      if step.Receive? {
        ReceiveCalmly(source, open, n);
      } else if n.client.phase.Opening? {
        OpenTaken(source, open, n, step);
      } else if n.client.phase.Sending? {
        BlockTaken(source, open, n, step);
      } else {
        ExitTakenCalmly(source, open, n, step);
      }
    }
  }

  /** The steps of a run that deliver a message. */
  ghost function Deliveries(source: seq<byte>, open: seq<byte>, n: System, steps: seq<Step>): nat
    decreases |steps|
  {
    if steps == [] then 0
    else (if Enabled(open, n, steps[0]) then 1 else 0)
         + Deliveries(source, open, Apply(source, open, n, steps[0]), steps[1..])
  }

  lemma {:induction false} CalmRun(source: seq<byte>, open: seq<byte>, n: System, steps: seq<Step>)
    requires Opens(source, open) && CalmInv(source, n) && forall i :: 0 <= i < |steps| ==> Calm(steps[i])
    ensures var n1 := RunAll(source, open, n, steps);
            CalmInv(source, n1) && Togo(source, n1) == Togo(source, n) - Deliveries(source, open, n, steps)
    decreases |steps|
  {
    if steps != [] {
      CalmStep(source, open, n, steps[0]);
      CalmRun(source, open, Apply(source, open, n, steps[0]), steps[1..]);
    }
  }

  lemma DoneIffNothingToGo(source: seq<byte>, n: System)
    requires CalmInv(source, n)
    ensures Togo(source, n) >= 0 && (Togo(source, n) == 0 <==> n.client.phase.Done?)
    ensures Togo(source, n) > 0 ==> n.requests != [] || n.responses != []
  {
  }

  /** On every schedule without losses and timeouts, with b blocks: until the end a message is under way; at most b +
      2 requests and as many responses are delivered; and once they all are, the client is done and the file is the
      source. */
  lemma CompletesCalmly(source: seq<byte>, open: seq<byte>, n: System, steps: seq<Step>)
    requires Opens(source, open) && Start(n) && forall i :: 0 <= i < |steps| ==> Calm(steps[i])
    ensures var n1, deliveries := RunAll(source, open, n, steps), Deliveries(source, open, n, steps);
            && deliveries <= 2 * (Blocks(source) + 2)
            && (deliveries == 2 * (Blocks(source) + 2) <==> n1.client.phase.Done?)
            && (n1.client.phase.Done? ==> n1.app.file == source)
            && (!n1.client.phase.Done? ==> n1.requests != [] || n1.responses != [])
  {
    CalmRun(source, open, n, steps);
    DoneIffNothingToGo(source, RunAll(source, open, n, steps));
  }
}
