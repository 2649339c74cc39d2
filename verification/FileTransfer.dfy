/** A file transfer between the Python client ProgramSoc and the upgrade server, over two first-in first-out channels
    that may lose any message, with a client that may time out at any moment. */
module FileTransfer {
  import opened Prelude
  import opened Bytes
  import opened Clock
  import BigEndian
  import opened Uds
  import opened Upgrade

  // ----- the client

  /** Where ProgramSoc is: waiting for the answer to request_file_transfer, to block `index`, to request_transfer_exit,
      or out of the protocol. */
  datatype Phase = Opening | Sending | Exiting | Done | Failed

  datatype Client = Client(phase: Phase, index: nat, blockSize: nat)

  datatype Message = Open | Block(index: nat, data: seq<byte>) | Exit

  function BlockCount(size: nat, blockSize: nat): nat
    requires blockSize > 0
  {
    size / blockSize + if size % blockSize != 0 then 1 else 0
  }

  /** Where block `index` begins; the last block may be shorter. */
  function Cut(size: nat, blockSize: nat, index: nat): (r: nat)
    ensures r <= size
  {
    Min(index * blockSize, size)
  }

  function BlockOf(source: seq<byte>, blockSize: nat, index: nat): seq<byte> {
    var from, to := Cut(|source|, blockSize, index), Cut(|source|, blockSize, index + 1);
    if from <= to then source[from..to] else []
  }

  /** The client before block `index`, and what it sends there. */
  function Enter(source: seq<byte>, index: nat, blockSize: nat): Client
    requires blockSize > 0
  {
    Client(if index < BlockCount(|source|, blockSize) then Sending else Exiting, index, blockSize)
  }

  function Outgoing(source: seq<byte>, c: Client): seq<Message> {
    match c.phase
    case Sending => [Block(c.index, BlockOf(source, c.blockSize, c.index))]
    case Exiting => [Exit]
    case _ => []
  }

  /** The length that a response to RequestFileTransfer announces. */
  function MaxLength(r: seq<byte>): nat {
    if |r| < 3 then 0
    else
      var width: nat := r[2];
      if |r| < 3 + width then 0 else BigEndian.Decode(r[3..3 + width])
  }

  predicate Positive(r: seq<byte>, sid: byte) {
    r != [] && r[0] == ResponseSid(sid)
  }

  /** The client takes a response; a response that does not fit its request ends the transfer. The server announces
      MTU, so that the block size is positive. */
  function React(source: seq<byte>, c: Client, r: seq<byte>): Client {
    match c.phase
    case Opening =>
      if Positive(r, SID_REQUEST_FILE_TRANSFER) && MaxLength(r) > 2 then Enter(source, 0, MaxLength(r) - 2)
      else c.(phase := Failed)
    case Sending =>
      if Positive(r, SID_TRANSFER_DATA) && |r| >= 2 && r[1] == (c.index + 1) % 256 && c.blockSize > 0
      then Enter(source, c.index + 1, c.blockSize)
      else c.(phase := Failed)
    case Exiting => c.(phase := if Positive(r, SID_REQUEST_TRANSFER_EXIT) then Done else Failed)
    case _ => c
  }

  /** Only transfer_data is repeated after a timeout. */
  function TimedOut(c: Client): Client {
    if c.phase.Opening? || c.phase.Exiting? then c.(phase := Failed) else c
  }

  // ----- the system

  /** `accepted` counts the blocks the server has answered positively. */
  datatype System = System(client: Client, requests: seq<Message>, responses: seq<seq<byte>>,
                           xfer: Xfer, sec: Security, app: App, accepted: nat)

  datatype Step =
    | Take(q: Request, w: World, now: int)
    | Receive
    | Timeout
    | LoseRequest(i: nat)
    | LoseResponse(i: nat)

  /** The bytes of a message; `open` is the request for the transfer. */
  function Wire(open: seq<byte>, m: Message): seq<byte> {
    match m
    case Open => open
    case Block(index, data) => [SID_TRANSFER_DATA, (index + 1) % 256] + data
    case Exit => [SID_REQUEST_TRANSFER_EXIT]
  }

  /** The receive buffer holds the message, with anything behind it. */
  ghost predicate Carries(q: Request, message: seq<byte>) {
    ValidRequest(q) && !q.functional && q.len == |message| && q.buf[..q.len] == message
  }

  ghost predicate Enabled(open: seq<byte>, n: System, step: Step) {
    match step
    case Take(q, _, _) => n.requests != [] && Carries(q, Wire(open, n.requests[0]))
    case Receive => n.responses != []
    case Timeout => true
    case LoseRequest(i) => i < |n.requests|
    case LoseResponse(i) => i < |n.responses|
  }

  ghost function Apply(source: seq<byte>, open: seq<byte>, n: System, step: Step): System {
    if !Enabled(open, n, step) then n
    else
      match step
      case Take(q, w, now) =>
        var (h, app) := Serve(Wrapping, n.xfer, n.sec, false, q, now, n.app, w);
        var accepts := n.requests[0].Block? && h.code == POSITIVE;
        n.(requests := n.requests[1..], responses := n.responses + [h.response],
           xfer := h.xfer, sec := h.sec, app := app,
           accepted := if accepts then n.accepted + 1 else n.accepted)
      case Receive =>
        var c := React(source, n.client, n.responses[0]);
        var sends := if c == n.client then [] else Outgoing(source, c);
        n.(client := c, responses := n.responses[1..], requests := n.requests + sends)
      case Timeout =>
        var c := TimedOut(n.client);
        n.(client := c, requests := n.requests + if c.phase.Sending? then Outgoing(source, c) else [])
      case LoseRequest(i) => n.(requests := Without(n.requests, i))
      case LoseResponse(i) => n.(responses := Without(n.responses, i))
  }

  ghost function RunAll(source: seq<byte>, open: seq<byte>, n: System, steps: seq<Step>): System
    decreases |steps|
  {
    if steps == [] then n else RunAll(source, open, Apply(source, open, n, steps[0]), steps[1..])
  }

  /** The request for the transfer announces the size of the source. */
  ghost predicate Opens(source: seq<byte>, open: seq<byte>) {
    && 4 <= |open| <= MTU && open[0] == SID_REQUEST_FILE_TRANSFER
    && forall q :: Carries(q, open) ==> ParseFileRequest(q).FileRequest? && ParseFileRequest(q).compressed == |source|
  }

  /** The client has sent its first request; the server is idle. */
  ghost predicate Start(n: System) {
    && n.client == Client(Opening, 0, 0) && n.requests == [Open] && n.responses == [] && n.accepted == 0
    && !n.xfer.active
  }

  // ----- what the server does with each message

  datatype Effect = Effect(xfer: Xfer, app: App, code: byte, response: seq<byte>)

  function Refused(sid: byte, x: Xfer, app: App, code: byte): Effect {
    Effect(x, app, code, Negative(sid, code))
  }

  function OnOpen(size: nat, mode: byte, format: byte, x: Xfer, app: App, w: World): Effect {
    var sid := SID_REQUEST_FILE_TRANSFER;
    if x.active then Refused(sid, x, app, CONDITIONS_NOT_CORRECT)
    else if !w.opens then Refused(sid, x, HandleRequestFileTransfer(app, w).0, UPLOAD_DOWNLOAD_NOT_ACCEPTED)
    else Effect(Started(x, size, MTU), HandleRequestFileTransfer(app, w).0, POSITIVE,
                [ResponseSid(sid), mode, 2, MTU / 256, MTU % 256, format])
  }

  function OnBlock(counter: byte, data: seq<byte>, x: Xfer, app: App, w: World): Effect {
    var sid := SID_TRANSFER_DATA;
    if !x.active then Refused(sid, x, app, UPLOAD_DOWNLOAD_NOT_ACCEPTED)
    else if counter != x.counter then Refused(sid, ResetTransfer(x), app, REQUEST_SEQUENCE_ERROR)
    else if x.done + |data| > x.total then Refused(sid, ResetTransfer(x), app, TRANSFER_DATA_SUSPENDED)
    else
      var (app1, a) := HandleTransferData(app, data, w);
      if a.code != POSITIVE then Refused(sid, ResetTransfer(x), app1, a.code)
      else Effect(x.(counter := (x.counter + 1) % 256, done := x.done + |data|), app1, POSITIVE,
                  [ResponseSid(sid), counter])
  }

  function OnExit(x: Xfer, app: App): Effect {
    var sid := SID_REQUEST_TRANSFER_EXIT;
    if !x.active then Refused(sid, x, app, UPLOAD_DOWNLOAD_NOT_ACCEPTED)
    else Effect(ResetTransfer(x), HandleRequestTransferExit(app).0, POSITIVE, [ResponseSid(sid)])
  }

  /** Library and application have effect e when they serve request q. */
  ghost predicate Serves(x: Xfer, sec: Security, app: App, q: Request, now: int, w: World, e: Effect)
    requires ValidRequest(q)
  {
    var (h, app1) := Serve(Wrapping, x, sec, false, q, now, app, w);
    h.xfer == e.xfer && h.code == e.code && h.response == e.response && app1 == e.app
  }

  ghost predicate Does(n: System, step: Step, e: Effect)
    requires step.Take? && ValidRequest(step.q)
  {
    Serves(n.xfer, n.sec, n.app, step.q, step.now, step.w, e)
  }

  /** A physically addressed transfer request gets the response of its service. */
  lemma PhysicalResponse(x: Xfer, sec: Security, q: Request, now: int, a: Answer)
    requires ValidRequest(q) && !q.functional && q.buf[0] in [0x36, 0x37, 0x38]
    ensures Evaluate(Wrapping, x, sec, false, q, now, a) == Service(Wrapping, x, sec, false, q, now, a)
  {
  }

  lemma ServeOpen(source: seq<byte>, open: seq<byte>, n: System, step: Step)
    requires Opens(source, open) && step.Take? && Carries(step.q, open)
    ensures var f := ParseFileRequest(step.q);
            f.FileRequest? && Does(n, step, OnOpen(|source|, f.mode, f.format, n.xfer, n.app, step.w))
  {
    assert step.q.buf[0] == step.q.buf[..step.q.len][0];
    PhysicalResponse(n.xfer, n.sec, step.q, step.now, Consult(n.app, step.q, step.w).1);
    AnnouncesMtu();
  }

  lemma AnnouncesMtu()
    ensures BigEndian.Encode(MTU, 2) == [MTU / 256, MTU % 256]
  {
    assert BigEndian.Encode(MTU / 256, 1) == BigEndian.Encode(0, 0) + [MTU / 256];
  }

  lemma BlockServed(x: Xfer, sec: Security, app: App, q: Request, now: int, w: World, counter: byte, data: seq<byte>)
    requires Carries(q, [SID_TRANSFER_DATA, counter] + data)
    ensures Serves(x, sec, app, q, now, w, OnBlock(counter, data, x, app, w))
  {
    assert q.buf[0] == q.buf[..q.len][0] && q.buf[1] == q.buf[..q.len][1];
    assert q.buf[2..q.len] == q.buf[..q.len][2..] == data;
    PhysicalResponse(x, sec, q, now, Consult(app, q, w).1);
  }

  lemma ExitServed(x: Xfer, sec: Security, app: App, q: Request, now: int, w: World)
    requires Carries(q, [SID_REQUEST_TRANSFER_EXIT])
    ensures Serves(x, sec, app, q, now, w, OnExit(x, app))
  {
    assert q.buf[0] == q.buf[..q.len][0];
    PhysicalResponse(x, sec, q, now, Consult(app, q, w).1);
  }

  lemma ServeBlock(n: System, step: Step, index: nat, data: seq<byte>)
    requires step.Take? && Carries(step.q, Wire([], Block(index, data)))
    ensures Does(n, step, OnBlock((index + 1) % 256, data, n.xfer, n.app, step.w))
  {
    BlockServed(n.xfer, n.sec, n.app, step.q, step.now, step.w, (index + 1) % 256, data);
  }

  lemma ServeExit(n: System, step: Step)
    requires step.Take? && Carries(step.q, [SID_REQUEST_TRANSFER_EXIT])
    ensures Does(n, step, OnExit(n.xfer, n.app))
  {
    ExitServed(n.xfer, n.sec, n.app, step.q, step.now, step.w);
  }

  // ----- the invariant

  /** The block size the client computes from the announcement of this server. */
  const BLOCK := MTU - 2

  function Blocks(source: seq<byte>): nat {
    BlockCount(|source|, BLOCK)
  }

  /** The first k blocks of the source. */
  function Prefix(source: seq<byte>, k: nat): seq<byte> {
    source[..Cut(|source|, BLOCK, k)]
  }

  /** While the transfer is active the file holds the accepted blocks, and the block counter counts them modulo 256. */
  ghost predicate ServerOk(source: seq<byte>, x: Xfer, app: App, k: nat) {
    && k <= Blocks(source)
    && (x.active ==>
          && app.open && app.file == Prefix(source, k) && x.done == |app.file| && x.total == |source|
          && x.counter == (k + 1) % 256)
  }

  /** A message in flight to a server that has accepted k blocks, from a client that has sent block `index` last. */
  ghost predicate MessageOk(source: seq<byte>, m: Message, active: bool, index: nat, k: nat) {
    m.Block? ==>
      && m.index <= index && m.index < Blocks(source) && m.data == BlockOf(source, BLOCK, m.index)
      && (active ==> k <= m.index + 1)
  }

  ghost predicate Ordered(requests: seq<Message>) {
    && (forall i, j :: 0 <= i < j < |requests| && requests[i].Block? && requests[j].Block? ==>
          requests[i].index <= requests[j].index)
    && (forall i :: 0 <= i < |requests| && requests[i].Open? ==> |requests| == 1)
    && (forall i :: 0 <= i < |requests| && requests[i].Exit? ==> i == |requests| - 1)
  }

  ghost predicate QueueOk(source: seq<byte>, n: System) {
    && Ordered(n.requests)
    && (forall i :: 0 <= i < |n.requests| ==>
          MessageOk(source, n.requests[i], n.xfer.active, n.client.index, n.accepted))
    && (forall i :: 0 <= i < |n.requests| && n.requests[i].Open? ==>
          !n.xfer.active && n.accepted == 0 && (n.client.phase.Opening? || n.client.phase.Failed?))
    && (forall i :: 0 <= i < |n.requests| && n.requests[i].Block? ==> !n.client.phase.Opening?)
    && (forall i :: 0 <= i < |n.requests| && n.requests[i].Exit? ==>
          n.client.index == Blocks(source) && !n.client.phase.Opening? && !n.client.phase.Sending?)
  }

  /** The client is at most one accepted block behind the server. */
  ghost predicate ClientOk(source: seq<byte>, n: System) {
    var c := n.client;
    && c.index <= n.accepted <= c.index + 1
    && (c.phase.Opening? ==> n.accepted == 0 && |n.requests| + |n.responses| <= 1)
    && (c.phase.Sending? ==> c.index < Blocks(source) && c.blockSize == BLOCK)
    && (c.phase.Exiting? || c.phase.Done? ==> c.index == Blocks(source))
  }

  predicate Accepting(r: seq<byte>) {
    r != [] && r[0] != 0x7F
  }

  /** The transfer has ended and the file is the source. */
  ghost predicate Complete(source: seq<byte>, n: System) {
    !n.xfer.active && n.requests == [] && n.app.file == source
  }

  /** What a positive response in flight means to a client in its phase. */
  ghost predicate ResponseOk(source: seq<byte>, n: System, r: seq<byte>) {
    Accepting(r) ==>
      && (n.client.phase.Opening? ==>
            Positive(r, SID_REQUEST_FILE_TRANSFER) ==> MaxLength(r) == MTU)
      && (n.client.phase.Sending? ==>
            r == [ResponseSid(SID_TRANSFER_DATA), (n.client.index + 1) % 256] && n.accepted == n.client.index + 1)
      && (n.client.phase.Exiting? ==> r == [ResponseSid(SID_REQUEST_TRANSFER_EXIT)] && Complete(source, n))
  }

  ghost predicate ResponsesOk(source: seq<byte>, n: System) {
    && (forall i :: 0 <= i < |n.responses| ==> ResponseOk(source, n, n.responses[i]))
    && (n.client.phase.Sending? ==>
          forall i, j :: 0 <= i < j < |n.responses| ==> !(Accepting(n.responses[i]) && Accepting(n.responses[j])))
    && (n.client.phase.Done? ==> Complete(source, n))
  }

  ghost predicate Inv(source: seq<byte>, n: System) {
    && ServerOk(source, n.xfer, n.app, n.accepted)
    && QueueOk(source, n)
    && ClientOk(source, n)
    && ResponsesOk(source, n)
  }
}
