/** Safety of the file transfer over every run, whatever is lost and whenever the client times out. */
module FileTransferSafety {
  import opened Prelude
  import opened Bytes
  import opened Uds
  import opened Upgrade
  import opened FileTransfer

  // ----- blocks

  /** The blocks partition the source. */
  lemma PrefixGrows(source: seq<byte>, k: nat)
    requires k < Blocks(source)
    ensures Prefix(source, k) + BlockOf(source, BLOCK, k) == Prefix(source, k + 1)
    ensures |Prefix(source, k)| + |BlockOf(source, BLOCK, k)| <= |source|
  {
    SplitPrefix(source, Cut(|source|, BLOCK, k), Cut(|source|, BLOCK, k + 1));
  }

  lemma PrefixAll(source: seq<byte>)
    ensures Prefix(source, Blocks(source)) == source && Prefix(source, 0) == []
  {
  }

  /** Block numbers that are at most one apart are equal if they are equal modulo 256. */
  lemma CounterDecides(j: nat, k: nat)
    requires k <= j + 1 && j <= k
    ensures (j + 1) % 256 == (k + 1) % 256 <==> j == k
  {
  }

  // ----- the server takes a message

  /** The system after the server took the first message with effect e. */
  function TakenWith(n: System, sec: Security, e: Effect): System
    requires n.requests != []
  {
    System(n.client, n.requests[1..], n.responses + [e.response], e.xfer, sec, e.app,
           if n.requests[0].Block? && e.code == POSITIVE then n.accepted + 1 else n.accepted)
  }

  /** n1 is n after the server took the first message with effect e. */
  ghost predicate Took(n: System, n1: System, e: Effect) {
    n.requests != [] && n1 == TakenWith(n, n1.sec, e)
  }

  lemma RestOrdered(requests: seq<Message>)
    requires Ordered(requests) && requests != []
    ensures Ordered(requests[1..]) && (!requests[0].Block? ==> requests[1..] == [])
  {
  }

  /** A refusal leaves the transfer state or ends the transfer, and adds a negative response. */
  lemma TakeRefused(source: seq<byte>, n: System, n1: System, e: Effect)
    requires Inv(source, n) && Took(n, n1, e) && e.code != POSITIVE && !e.xfer.active && !Accepting(e.response)
    ensures Inv(source, n1)
  {
    RestOrdered(n.requests);
    assert forall i :: 0 <= i < |n1.requests| ==> n1.requests[i] == n.requests[i + 1];
  }

  lemma OpenIsFirst(source: seq<byte>, n: System)
    requires Inv(source, n) && n.requests != [] && n.requests[0].Open?
    ensures !n.xfer.active && n.accepted == 0 && n.client.index == 0 && |n.requests| == 1
    ensures n.client.phase.Failed? || (n.client.phase.Opening? && n.responses == [])
  {
  }

  lemma AnnouncementRead(mode: byte, format: byte)
    ensures MaxLength([ResponseSid(SID_REQUEST_FILE_TRANSFER), mode, 2, MTU / 256, MTU % 256, format]) == MTU
  {
    var r := [ResponseSid(SID_REQUEST_FILE_TRANSFER), mode, 2, MTU / 256, MTU % 256, format];
    assert r[3..5] == BigEndian.Encode(MTU, 2) by {
      AnnouncesMtu();
    }
    assert BigEndian.Pow256(2) == 65536 by {
      assert BigEndian.Pow256(1) == 256;
    }
    BigEndian.DecodeEncode(MTU, 2);
  }

  lemma TakeOpen(source: seq<byte>, n: System, n1: System, mode: byte, format: byte, w: World)
    requires Inv(source, n) && n.requests != [] && n.requests[0].Open?
    requires Took(n, n1, OnOpen(|source|, mode, format, n.xfer, n.app, w))
    ensures Inv(source, n1)
  {
    OpenIsFirst(source, n);
    PrefixAll(source);
    AnnouncementRead(mode, format);
  }

  lemma BlockInTurn(source: seq<byte>, n: System)
    requires Inv(source, n) && n.requests != [] && n.requests[0].Block?
    ensures var m := n.requests[0];
            && m.data == BlockOf(source, BLOCK, m.index) && m.index < Blocks(source) && m.index <= n.client.index
            && (n.xfer.active ==> ((m.index + 1) % 256 == n.xfer.counter <==> m.index == n.accepted))
    ensures !n.client.phase.Opening? || n.responses == []
  {
    if n.xfer.active {
      CounterDecides(n.requests[0].index, n.accepted);
    }
  }

  /** The block that is in turn, written. */
  ghost predicate Accepts(n: System, e: Effect) {
    && n.requests != [] && n.requests[0].Block? && n.xfer.active && n.requests[0].index == n.accepted
    && e.code == POSITIVE && e.response == [ResponseSid(SID_TRANSFER_DATA), (n.accepted + 1) % 256]
    && e.xfer == n.xfer.(counter := (n.xfer.counter + 1) % 256, done := n.xfer.done + |n.requests[0].data|)
    && e.app == n.app.(file := n.app.file + n.requests[0].data)
  }

  lemma NextCounter(k: nat)
    ensures ((k + 1) % 256 + 1) % 256 == (k + 2) % 256
  {
  }

  /** A server in step that takes the block in turn is in step. */
  lemma ServerAccepts(source: seq<byte>, x: Xfer, app: App, k: nat, data: seq<byte>)
    requires ServerOk(source, x, app, k) && x.active && k < Blocks(source) && data == BlockOf(source, BLOCK, k)
    ensures x.done + |data| <= x.total
    ensures ServerOk(source, x.(counter := (x.counter + 1) % 256, done := x.done + |data|),
                     app.(file := app.file + data), k + 1)
  {
    PrefixGrows(source, k);
    NextCounter(k);
  }

  lemma AcceptedServer(source: seq<byte>, n: System, n1: System, e: Effect)
    requires Inv(source, n) && Accepts(n, e) && Took(n, n1, e)
    ensures ServerOk(source, n1.xfer, n1.app, n1.accepted)
  {
    BlockInTurn(source, n);
    ServerAccepts(source, n.xfer, n.app, n.accepted, n.requests[0].data);
  }

  lemma AcceptedQueue(source: seq<byte>, n: System, n1: System, e: Effect)
    requires Inv(source, n) && Accepts(n, e) && Took(n, n1, e)
    ensures QueueOk(source, n1)
  {
    RestOrdered(n.requests);
    assert forall i :: 0 <= i < |n1.requests| ==> n1.requests[i] == n.requests[i + 1];
  }

  lemma AcceptedRest(source: seq<byte>, n: System, n1: System, e: Effect)
    requires Inv(source, n) && Accepts(n, e) && Took(n, n1, e)
    ensures ClientOk(source, n1) && ResponsesOk(source, n1)
  {
    BlockInTurn(source, n);
  }

  lemma TakeBlock(source: seq<byte>, n: System, n1: System, w: World)
    requires Inv(source, n) && n.requests != [] && n.requests[0].Block?
    requires Took(n, n1, OnBlock((n.requests[0].index + 1) % 256, n.requests[0].data, n.xfer, n.app, w))
    ensures Inv(source, n1)
  {
    var m := n.requests[0];
    var e := OnBlock((m.index + 1) % 256, m.data, n.xfer, n.app, w);
    BlockInTurn(source, n);
    if e.code == POSITIVE {
      assert m.data[..|m.data|] == m.data;
      AcceptedServer(source, n, n1, e);
      AcceptedQueue(source, n, n1, e);
      AcceptedRest(source, n, n1, e);
    } else {
      TakeRefused(source, n, n1, e);
    }
  }

  lemma TakeExit(source: seq<byte>, n: System, n1: System)
    requires Inv(source, n) && n.requests != [] && n.requests[0].Exit?
    requires Took(n, n1, OnExit(n.xfer, n.app))
    ensures Inv(source, n1)
  {
    RestOrdered(n.requests);
    PrefixAll(source);
    if !n.xfer.active {
      TakeRefused(source, n, n1, OnExit(n.xfer, n.app));
    }
  }

  // ----- the other steps

  lemma TakesEffect(source: seq<byte>, open: seq<byte>, n: System, step: Step, e: Effect)
    requires step.Take? && Enabled(open, n, step) && Does(n, step, e)
    ensures Took(n, Apply(source, open, n, step), e)
  {
  }

  lemma TakeOpenKeeps(source: seq<byte>, open: seq<byte>, n: System, step: Step)
    requires Opens(source, open) && Inv(source, n) && step.Take? && Enabled(open, n, step) && n.requests[0].Open?
    ensures Inv(source, Apply(source, open, n, step))
  {
    ServeOpen(source, open, n, step);
    var f := ParseFileRequest(step.q);
    TakesEffect(source, open, n, step, OnOpen(|source|, f.mode, f.format, n.xfer, n.app, step.w));
    TakeOpen(source, n, Apply(source, open, n, step), f.mode, f.format, step.w);
  }

  lemma CarriesBlock(open: seq<byte>, n: System, step: Step)
    requires step.Take? && Enabled(open, n, step) && n.requests[0].Block?
    ensures Carries(step.q, Wire([], Block(n.requests[0].index, n.requests[0].data)))
  {
  }

  lemma TakesCarried(source: seq<byte>, open: seq<byte>, n: System, step: Step, index: nat, data: seq<byte>)
    requires step.Take? && Enabled(open, n, step) && Carries(step.q, Wire([], Block(index, data)))
    ensures Took(n, Apply(source, open, n, step), OnBlock((index + 1) % 256, data, n.xfer, n.app, step.w))
  {
    ServeBlock(n, step, index, data);
    TakesEffect(source, open, n, step, OnBlock((index + 1) % 256, data, n.xfer, n.app, step.w));
  }

  lemma TakesBlock(source: seq<byte>, open: seq<byte>, n: System, step: Step)
    requires step.Take? && Enabled(open, n, step) && n.requests[0].Block?
    ensures var m := n.requests[0];
            Took(n, Apply(source, open, n, step), OnBlock((m.index + 1) % 256, m.data, n.xfer, n.app, step.w))
  {
    CarriesBlock(open, n, step);
    TakesCarried(source, open, n, step, n.requests[0].index, n.requests[0].data);
  }

  lemma TakeBlockKeeps(source: seq<byte>, open: seq<byte>, n: System, step: Step)
    requires Inv(source, n) && step.Take? && Enabled(open, n, step) && n.requests[0].Block?
    ensures Inv(source, Apply(source, open, n, step))
  {
    TakesBlock(source, open, n, step);
    TakeBlock(source, n, Apply(source, open, n, step), step.w);
  }

  lemma TakeExitKeeps(source: seq<byte>, open: seq<byte>, n: System, step: Step)
    requires Inv(source, n) && step.Take? && Enabled(open, n, step) && n.requests[0].Exit?
    ensures Took(n, Apply(source, open, n, step), OnExit(n.xfer, n.app))
    ensures Inv(source, Apply(source, open, n, step))
  {
    ServeExit(n, step);
    TakesEffect(source, open, n, step, OnExit(n.xfer, n.app));
    TakeExit(source, n, Apply(source, open, n, step));
  }

  lemma TakeKeeps(source: seq<byte>, open: seq<byte>, n: System, step: Step)
    requires Opens(source, open) && Inv(source, n) && step.Take? && Enabled(open, n, step)
    ensures Inv(source, Apply(source, open, n, step))
  {
    match n.requests[0]
    case Open => TakeOpenKeeps(source, open, n, step);
    case Block(_, _) => TakeBlockKeeps(source, open, n, step);
    case Exit => TakeExitKeeps(source, open, n, step);
  }

  /** n1 is n after the client moved to c and sent what c sends. */
  ghost predicate Moved(source: seq<byte>, n: System, n1: System, c: Client) {
    && n1.client == c && n1.requests == n.requests + Outgoing(source, c)
    && n1.xfer == n.xfer && n1.app == n.app && n1.accepted == n.accepted
  }

  lemma SendKeepsQueue(source: seq<byte>, n: System, n1: System, c: Client)
    requires Inv(source, n) && Moved(source, n, n1, c) && n.client.index <= c.index <= n.accepted
    requires (c.phase.Sending? && c.blockSize == BLOCK && c.index < Blocks(source))
             || (c.phase.Exiting? && c.index == Blocks(source) && (n.client.phase.Opening? || n.client.phase.Sending?))
    requires n.client.phase.Opening? || n.client.phase.Sending?
    requires n.client.phase.Opening? ==> n.requests == []
    ensures QueueOk(source, n1)
  {
  }

  /** The client takes the response it waits for. */
  lemma AdvanceKeeps(source: seq<byte>, n: System, n1: System)
    requires Inv(source, n) && n.responses != [] && n1.responses == n.responses[1..]
    requires (n.client.phase.Opening? && Positive(n.responses[0], SID_REQUEST_FILE_TRANSFER))
             || (n.client.phase.Sending? && Accepting(n.responses[0]))
    requires Moved(source, n, n1, Enter(source, if n.client.phase.Opening? then 0 else n.client.index + 1, BLOCK))
    ensures Inv(source, n1)
  {
    assert forall i :: 0 <= i < |n1.responses| ==> n1.responses[i] == n.responses[i + 1];
    assert ResponseOk(source, n, n.responses[0]);
    SendKeepsQueue(source, n, n1, n1.client);
    assert forall i :: 0 <= i < |n1.responses| ==> !Accepting(n1.responses[i]);
  }

  lemma FailKeeps(source: seq<byte>, n: System, n1: System)
    requires Inv(source, n) && n1 == n.(client := n.client.(phase := Failed), responses := n1.responses)
    ensures Inv(source, n1)
  {
  }

  lemma ReceiveKeeps(source: seq<byte>, open: seq<byte>, n: System)
    requires Inv(source, n) && n.responses != []
    ensures Inv(source, Apply(source, open, n, Receive))
  {
    var n1 := Apply(source, open, n, Receive);
    var r := n.responses[0];
    assert ResponseOk(source, n, r);
    assert forall i :: 0 <= i < |n1.responses| ==> n1.responses[i] == n.responses[i + 1];
    if n1.client.phase.Failed? {
      assert n1.requests == n.requests;
      FailKeeps(source, n, n1);
    } else if n.client.phase.Opening? || n.client.phase.Sending? {
      AdvanceKeeps(source, n, n1);
    } else {
      assert n1.requests == n.requests;
    }
  }

  lemma TimeoutKeeps(source: seq<byte>, open: seq<byte>, n: System)
    requires Inv(source, n)
    ensures Inv(source, Apply(source, open, n, Timeout))
  {
    var n1 := Apply(source, open, n, Timeout);
    if n.client.phase.Sending? {
      SendKeepsQueue(source, n, n1, n.client);
    } else {
      assert n1.requests == n.requests;
    }
  }

  lemma RequestLossKeeps(source: seq<byte>, n: System, i: nat)
    requires Inv(source, n) && i < |n.requests|
    ensures Inv(source, n.(requests := Without(n.requests, i)))
  {
  }

  lemma ResponseLossKeeps(source: seq<byte>, n: System, i: nat)
    requires Inv(source, n) && i < |n.responses|
    ensures Inv(source, n.(responses := Without(n.responses, i)))
  {
  }

  lemma StepKeeps(source: seq<byte>, open: seq<byte>, n: System, step: Step)
    requires Opens(source, open) && Inv(source, n)
    ensures Inv(source, Apply(source, open, n, step))
  {
    if Enabled(open, n, step) {
      match step
      case Take(_, _, _) => TakeKeeps(source, open, n, step);
      case Receive => ReceiveKeeps(source, open, n);
      case Timeout => TimeoutKeeps(source, open, n);
      case LoseRequest(i) => RequestLossKeeps(source, n, i);
      case LoseResponse(i) => ResponseLossKeeps(source, n, i);
    }
  }

  lemma {:induction false} RunKeeps(source: seq<byte>, open: seq<byte>, n: System, steps: seq<Step>)
    requires Opens(source, open) && Inv(source, n)
    ensures Inv(source, RunAll(source, open, n, steps))
    decreases |steps|
  {
    if steps != [] {
      StepKeeps(source, open, n, steps[0]);
      RunKeeps(source, open, Apply(source, open, n, steps[0]), steps[1..]);
    }
  }

  /** Over every run, whatever the channels lose, whenever the client times out and whatever the file system does: while
      the transfer is active, the file holds exactly the first k blocks of the source, for a k that is the client's
      index or one more; and a client that ends well leaves the whole source in the file. */
  lemma PrefixUnderLoss(source: seq<byte>, open: seq<byte>, n: System, steps: seq<Step>)
    requires Opens(source, open) && Start(n)
    ensures var n1 := RunAll(source, open, n, steps);
            && n1.client.index <= n1.accepted <= n1.client.index + 1
            && (n1.xfer.active ==> n1.app.file == Prefix(source, n1.accepted) && n1.xfer.done == |n1.app.file|)
            && (n1.client.phase.Done? ==> n1.app.file == source && !n1.xfer.active && n1.accepted == Blocks(source))
  {
    RunKeeps(source, open, n, steps);
  }

  lemma ExitTaken(source: seq<byte>, n: System, n1: System)
    requires Inv(source, n) && n.requests != [] && n.requests[0].Exit? && Took(n, n1, OnExit(n.xfer, n.app))
    ensures n1.responses[|n1.responses| - 1] == [ResponseSid(SID_REQUEST_TRANSFER_EXIT)] ==> Complete(source, n1)
  {
    RestOrdered(n.requests);
    PrefixAll(source);
  }

  /** A positive answer to request_transfer_exit, whether or not it reaches the client, means that the file is
      complete. */
  lemma ExitMeansComplete(source: seq<byte>, open: seq<byte>, n: System, steps: seq<Step>, step: Step)
    requires Opens(source, open) && Start(n)
    ensures var n1 := RunAll(source, open, n, steps);
            var n2 := Apply(source, open, n1, step);
            step.Take? && Enabled(open, n1, step) && n1.requests[0].Exit?
            && n2.responses[|n2.responses| - 1] == [ResponseSid(SID_REQUEST_TRANSFER_EXIT)]
            ==> Complete(source, n2)
  {
    RunKeeps(source, open, n, steps);
    var n1 := RunAll(source, open, n, steps);
    if step.Take? && Enabled(open, n1, step) && n1.requests[0].Exit? {
      TakeExitKeeps(source, open, n1, step);
      ExitTaken(source, n1, Apply(source, open, n1, step));
    }
  }

  /** A block that was accepted before and reaches the server again ends the transfer; it is not written twice. */
  lemma ResentBlockResets(source: seq<byte>, open: seq<byte>, n: System, steps: seq<Step>, step: Step)
    requires Opens(source, open) && Start(n)
    ensures var n1 := RunAll(source, open, n, steps);
            var n2 := Apply(source, open, n1, step);
            step.Take? && Enabled(open, n1, step) && n1.requests[0].Block? && n1.requests[0].index < n1.accepted
            ==> !n2.xfer.active && n2.app.file == n1.app.file && n2.accepted == n1.accepted
                && n2.responses[|n2.responses| - 1] ==
                   Negative(SID_TRANSFER_DATA,
                            if n1.xfer.active then REQUEST_SEQUENCE_ERROR else UPLOAD_DOWNLOAD_NOT_ACCEPTED)
  {
    RunKeeps(source, open, n, steps);
    var n1 := RunAll(source, open, n, steps);
    if step.Take? && Enabled(open, n1, step) && n1.requests[0].Block? {
      TakesBlock(source, open, n1, step);
      BlockInTurn(source, n1);
    }
  }

  // ----- a refusal is final

  /** The response to block `index` that the client goes on with. */
  predicate Acknowledges(r: seq<byte>, index: nat) {
    |r| >= 2 && r[0] == 0x76 && r[1] == (index + 1) % 256
  }

  /** What a step makes the client send. */
  ghost function Sent(source: seq<byte>, open: seq<byte>, n: System, step: Step): seq<Message> {
    var n1 := Apply(source, open, n, step);
    if step.Receive? || step.Timeout? then n1.requests[Min(|n.requests|, |n1.requests|)..] else []
  }

  ghost function AllSent(source: seq<byte>, open: seq<byte>, n: System, steps: seq<Step>): seq<Message>
    decreases |steps|
  {
    if steps == [] then []
    else Sent(source, open, n, steps[0]) + AllSent(source, open, Apply(source, open, n, steps[0]), steps[1..])
  }

  lemma {:induction false} FailedSendsNothing(source: seq<byte>, open: seq<byte>, n: System, steps: seq<Step>)
    requires n.client.phase.Failed?
    ensures AllSent(source, open, n, steps) == [] && RunAll(source, open, n, steps).client == n.client
    decreases |steps|
  {
    if steps != [] {
      FailedSendsNothing(source, open, Apply(source, open, n, steps[0]), steps[1..]);
    }
  }

  /** What a response makes a client send that waits for the answer to a block. */
  lemma AnswerDecides(source: seq<byte>, open: seq<byte>, n: System)
    requires n.client.phase.Sending? && n.client.blockSize == BLOCK && n.responses != []
    ensures if Acknowledges(n.responses[0], n.client.index)
            then Sent(source, open, n, Receive)
                 == (if n.client.index + 1 < Blocks(source)
                     then [Block(n.client.index + 1, BlockOf(source, BLOCK, n.client.index + 1))]
                     else [Exit])
            else Sent(source, open, n, Receive) == [] && Apply(source, open, n, Receive).client.phase.Failed?
  {
  }

  /** Over every run: a client that waits for the answer to a block sends, when a response arrives, the next block or
      the final request if that is the positive response with the block's number; after any other response it sends
      nothing ever again. */
  lemma RefusalIsFinal(source: seq<byte>, open: seq<byte>, n: System, before: seq<Step>, after: seq<Step>)
    requires Opens(source, open) && Start(n)
    ensures var n1 := RunAll(source, open, n, before);
            var n2 := Apply(source, open, n1, Receive);
            n1.client.phase.Sending? && n1.responses != [] ==>
              if Acknowledges(n1.responses[0], n1.client.index)
              then Sent(source, open, n1, Receive)
                   == (if n1.client.index + 1 < Blocks(source)
                       then [Block(n1.client.index + 1, BlockOf(source, BLOCK, n1.client.index + 1))]
                       else [Exit])
              else Sent(source, open, n1, Receive) + AllSent(source, open, n2, after) == []
  {
    RunKeeps(source, open, n, before);
    var n1 := RunAll(source, open, n, before);
    if n1.client.phase.Sending? && n1.responses != [] {
      AnswerDecides(source, open, n1);
      if !Acknowledges(n1.responses[0], n1.client.index) {
        FailedSendsNothing(source, open, Apply(source, open, n1, Receive), after);
      }
    }
  }

  /** Over every run: only the request for a block is repeated after a timeout; without an answer to the first or to the
      final request the transfer is over. */
  lemma TimeoutRepeatsBlocksOnly(source: seq<byte>, open: seq<byte>, n: System, before: seq<Step>, after: seq<Step>)
    requires Opens(source, open) && Start(n)
    ensures var n1 := RunAll(source, open, n, before);
            var n2 := Apply(source, open, n1, Timeout);
            if n1.client.phase.Sending?
            then n2.client == n1.client && n1.client.index < Blocks(source)
                 && Sent(source, open, n1, Timeout) == [Block(n1.client.index, BlockOf(source, BLOCK, n1.client.index))]
            else Sent(source, open, n1, Timeout) == []
                 && (n1.client.phase.Opening? || n1.client.phase.Exiting? ==> AllSent(source, open, n2, after) == [])
  {
    RunKeeps(source, open, n, before);
    var n1 := RunAll(source, open, n, before);
    if n1.client.phase.Opening? || n1.client.phase.Exiting? {
      FailedSendsNothing(source, open, Apply(source, open, n1, Timeout), after);
    }
  }
}
