/** The C client's download sequence together with the server: what the client receives are the server's responses,
    and what the end of the sequence means for the server's file. */
module DownloadSystem {
  import opened Prelude
  import opened Bytes
  import opened Clock
  import opened BigEndian
  import opened Uds
  import Upgrade
  import opened Requests
  import opened Download
  import opened DownloadCompletion
  import FileTransfer

  type App = Upgrade.App
  type World = Upgrade.World
  type Effect = FileTransfer.Effect

  // ----- client and server

  /** What the client asks for, and the application behind the server: one that stores downloads and chooses the block
      length, or the one of this repository, which refuses them. */
  datatype Deal = Deal(
    format: byte, address: nat, addressLen: nat, size: nat, sizeLen: nat, stores: bool, grant: nat)

  ghost predicate ValidRequestOf(deal: Deal) {
    1 <= deal.addressLen <= 8 && 1 <= deal.sizeLen <= 8
  }

  ghost predicate ValidDeal(deal: Deal) {
    ValidRequestOf(deal) && deal.stores && deal.grant >= 3
  }

  function Asks(deal: Deal, file: seq<byte>): Job
    requires ValidRequestOf(deal)
  {
    Job(LoadRequest(SID_REQUEST_DOWNLOAD, deal.format, deal.address, deal.addressLen, deal.size, deal.sizeLen), file)
  }

  /** The number of bytes that the server expects. */
  function Total(deal: Deal): nat {
    deal.size % Pow256(deal.sizeLen)
  }

  /** The block length that the client is told. */
  function Granted(deal: Deal): nat
    requires ValidDeal(deal)
  {
    Min(deal.grant, MTU)
  }

  datatype System = System(client: Client, xfer: Xfer, sec: Security, app: App, reply: seq<byte>)

  /** One poll of the client: what the transport does, what the receive buffer held, what the file system does. */
  datatype Turn = Turn(takes: bool, sent: bool, arrives: bool, stale: seq<byte>, world: World, now: int)

  ghost predicate ValidTurn(t: Turn) {
    |t.stale| == MTU
  }

  /** A request buffer with the message at its front. */
  function Incoming(message: seq<byte>, stale: seq<byte>): (q: Request)
    requires 1 <= |message| <= MTU == |stale|
    ensures FileTransfer.Carries(q, message)
  {
    var buf := message + stale[|message|..];
    assert buf[..|message|] == message;
    Request(buf, |message|, false)
  }

  /** An application that stores what is downloaded opens its file when the download is requested. */
  function Consult(app: App, q: Request, deal: Deal, w: World): (App, Answer)
    requires ValidRequest(q)
  {
    if deal.stores && q.buf[0] == SID_REQUEST_DOWNLOAD then
      if w.opens then (app.(open := true, file := []), Answer(POSITIVE, [], deal.grant))
      else (app.(open := false), Answer(UPLOAD_DOWNLOAD_NOT_ACCEPTED, [], deal.grant))
    else Upgrade.Consult(app, q, w)
  }

  function Serve(n: System, q: Request, deal: Deal, t: Turn): (Handled, App)
    requires ValidRequest(q)
  {
    var (app1, a) := Consult(n.app, q, deal, t.world);
    var h := Evaluate(Wrapping, n.xfer, n.sec, false, q, t.now, a);
    (h, if h.asked then app1 else n.app)
  }

  /** The transport takes the client's message in this poll. */
  predicate Takes(d: Client, d1: Client) {
    d1.state == AwaitSendComplete && d.state != AwaitSendComplete
  }

  function Meets(n: System, t: Turn): Surroundings {
    Surroundings(t.takes, t.sent, if t.arrives then Some(n.reply) else None, false)
  }

  function Step(deal: Deal, job: Job, n: System, t: Turn): (r: System)
    requires Sound(job, n.client) && ValidTurn(t)
    ensures Sound(job, r.client)
  {
    var d1 := Download.Poll(job, n.client, Meets(n, t));
    if Takes(n.client, d1) && 1 <= |d1.message| <= MTU then
      var (h, app1) := Serve(n, Incoming(d1.message, t.stale), deal, t);
      System(d1, h.xfer, h.sec, app1, h.response)
    else n.(client := d1)
  }

  ghost predicate ValidTurns(turns: seq<Turn>) {
    forall i :: 0 <= i < |turns| ==> ValidTurn(turns[i])
  }

  function Steps(deal: Deal, job: Job, n: System, turns: seq<Turn>): (r: System)
    requires Sound(job, n.client) && ValidTurns(turns)
    ensures Sound(job, r.client)
    decreases |turns|
  {
    if turns == [] then n else Steps(deal, job, Step(deal, job, n, turns[0]), turns[1..])
  }

  ghost predicate Begins(n: System) {
    n.client == START && !n.xfer.active
  }

  // ----- what the server does with each message

  function OnRequest(total: nat, grant: nat, x: Xfer, app: App, w: World): Effect {
    var sid := SID_REQUEST_DOWNLOAD;
    if x.active then FileTransfer.Refused(sid, x, app, CONDITIONS_NOT_CORRECT)
    else if !w.opens then FileTransfer.Refused(sid, x, app.(open := false), UPLOAD_DOWNLOAD_NOT_ACCEPTED)
    else FileTransfer.Effect(Started(x, total, grant), app.(open := true, file := []), POSITIVE,
                             [ResponseSid(sid), 0x20] + BigEndian.Encode(Min(grant, MTU), 2))
  }

  ghost predicate Does(n: System, q: Request, deal: Deal, t: Turn, e: Effect)
    requires ValidRequest(q)
  {
    var (h, app1) := Serve(n, q, deal, t);
    h.xfer == e.xfer && h.code == e.code && h.response == e.response && app1 == e.app
  }

  lemma PhysicalLoad(x: Xfer, sec: Security, q: Request, now: int, a: Answer)
    requires ValidRequest(q) && !q.functional && q.buf[0] == SID_REQUEST_DOWNLOAD
    ensures Evaluate(Wrapping, x, sec, false, q, now, a) == RequestLoad(SID_REQUEST_DOWNLOAD, x, sec, q, a)
  {
  }

  lemma RequestServed(n: System, q: Request, deal: Deal, file: seq<byte>, t: Turn)
    requires ValidDeal(deal) && FileTransfer.Carries(q, Asks(deal, file).request)
    ensures Does(n, q, deal, t, OnRequest(Total(deal), deal.grant, n.xfer, n.app, t.world))
  {
    ByteShows(q, Asks(deal, file).request, 0);
    LoadRoundTrip(q, SID_REQUEST_DOWNLOAD, deal.format, deal.address, deal.addressLen, deal.size, deal.sizeLen);
    PhysicalLoad(n.xfer, n.sec, q, t.now, Consult(n.app, q, deal, t.world).1);
  }

  lemma BlockServed(n: System, q: Request, deal: Deal, t: Turn, counter: byte, data: seq<byte>)
    requires FileTransfer.Carries(q, [SID_TRANSFER_DATA, counter] + data)
    ensures Does(n, q, deal, t, FileTransfer.OnBlock(counter, data, n.xfer, n.app, t.world))
  {
    ByteShows(q, [SID_TRANSFER_DATA, counter] + data, 0);
    FileTransfer.BlockServed(n.xfer, n.sec, n.app, q, t.now, t.world, counter, data);
  }

  lemma ExitServed(n: System, q: Request, deal: Deal, t: Turn)
    requires FileTransfer.Carries(q, [SID_REQUEST_TRANSFER_EXIT])
    ensures Does(n, q, deal, t, FileTransfer.OnExit(n.xfer, n.app))
  {
    ByteShows(q, [SID_REQUEST_TRANSFER_EXIT], 0);
    FileTransfer.ExitServed(n.xfer, n.sec, n.app, q, t.now, t.world);
  }

  // ----- the invariant

  /** The file system does what it is asked. */
  predicate Willing(t: Turn, file: seq<byte>) {
    t.world.opens && t.world.writable >= |file|
  }

  /** The server has met the first k data messages. While the transfer is active the file holds their bytes; it
      always holds a beginning of the job's file, no longer than announced. A willing file system keeps the transfer
      active as long as the announced size suffices. */
  ghost predicate ServerAt(deal: Deal, file: seq<byte>, B: nat, k: nat, x: Xfer, app: App, willing: bool) {
    var cut, total := FileTransfer.Cut(|file|, B, k), Total(deal);
    && app.file <= file && |app.file| <= total
    && (x.active || |app.file| < |file|)
    && (x.active ==>
          && cut <= total && x.total == total && x.counter == (k + 1) % 256 && app.open
          && |app.file| == x.done == cut)
    && (willing && cut <= total ==> x.active)
  }

  /** The transfer is over: what the answer to the exit request says about the file. */
  ghost predicate ServerDone(deal: Deal, file: seq<byte>, app: App, reply: seq<byte>, willing: bool) {
    && app.file <= file && |app.file| <= Total(deal)
    && (reply == [ResponseSid(SID_REQUEST_TRANSFER_EXIT)] ==> app.file == file)
    && (reply != [ResponseSid(SID_REQUEST_TRANSFER_EXIT)] ==>
          |app.file| < |file| && reply == Negative(SID_REQUEST_TRANSFER_EXIT, UPLOAD_DOWNLOAD_NOT_ACCEPTED))
    && (willing && |file| <= Total(deal) ==> reply == [ResponseSid(SID_REQUEST_TRANSFER_EXIT)])
  }

  lemma EmptyPrefix(file: seq<byte>)
    ensures [] <= file
  {
  }

  /** The server with a data message in hand. */
  lemma BlockKeepsServer(deal: Deal, file: seq<byte>, B: nat, k: nat, x: Xfer, app: App, w: World, willing: bool)
    requires B > 0 && k < Count(|file|, B) && ServerAt(deal, file, B, k, x, app, willing)
    requires willing ==> w.writable >= |file|
    ensures var e := FileTransfer.OnBlock((k + 1) % 256, FileTransfer.BlockOf(file, B, k), x, app, w);
            ServerAt(deal, file, B, k + 1, e.xfer, e.app, willing)
  {
    CutStep(|file|, B, k);
    var from, to := FileTransfer.Cut(|file|, B, k), FileTransfer.Cut(|file|, B, k + 1);
    var block := FileTransfer.BlockOf(file, B, k);
    CounterStep(k);
    if x.active {
      assert app.file == file[..from];
      var size := Min(w.writable, |block|);
      SplitPrefix(file, from, from + size);
      assert block[..size] == file[from..from + size];
    }
  }

  lemma ExitKeepsServer(deal: Deal, file: seq<byte>, B: nat, x: Xfer, app: App, willing: bool)
    requires B > 0 && ServerAt(deal, file, B, Count(|file|, B), x, app, willing)
    ensures var e := FileTransfer.OnExit(x, app); ServerDone(deal, file, e.app, e.response, willing)
  {
    WholeFile(|file|, B);
  }

  /** Where the server is while the client's latest message is still to be taken. */
  ghost predicate BeforeMessage(deal: Deal, file: seq<byte>, n: System, willing: bool)
    requires ValidDeal(deal)
  {
    var d, p, B := n.client, n.client.at, Granted(deal) - 2;
    if p.callback == AWAIT_GRANT then d.message == Asks(deal, file).request && !n.xfer.active
    else if p.callback == TRANSFER_DATA then
      var k := |p.issued| - 1;
      1 <= k <= Count(|file|, B) && d.message == DataMessage(file, B, k - 1)
      && ServerAt(deal, file, B, k - 1, n.xfer, n.app, willing)
    else
      p.callback == AWAIT_EXIT && d.message == [SID_REQUEST_TRANSFER_EXIT]
      && ServerAt(deal, file, B, Count(|file|, B), n.xfer, n.app, willing)
  }

  /** The answer to the request: the granted block length, or a refusal by an unwilling file system. */
  ghost predicate GrantAnswered(deal: Deal, file: seq<byte>, n: System, willing: bool)
    requires ValidDeal(deal)
  {
    if n.reply == [ResponseSid(SID_REQUEST_DOWNLOAD), 0x20] + BigEndian.Encode(Granted(deal), 2)
    then ServerAt(deal, file, Granted(deal) - 2, 0, n.xfer, n.app, willing)
    else !willing && |n.reply| == 3 && n.reply[0] == 0x7F
  }

  /** Where the server is when it has taken all messages so far. */
  ghost predicate AfterMessage(deal: Deal, file: seq<byte>, n: System, willing: bool)
    requires ValidDeal(deal)
  {
    var p, B := n.client.at, Granted(deal) - 2;
    if p.callback == REQUEST_DOWNLOAD then !n.xfer.active
    else if p.callback <= CHECK_RESPONSE then GrantAnswered(deal, file, n, willing)
    else if p.callback == PREPARE then ServerAt(deal, file, B, 0, n.xfer, n.app, willing)
    else if p.callback == TRANSFER_DATA then
      p.issued != [] && ServerAt(deal, file, B, |p.issued| - 1, n.xfer, n.app, willing)
    else if p.callback == REQUEST_EXIT then ServerAt(deal, file, B, Count(|file|, B), n.xfer, n.app, willing)
    else ServerDone(deal, file, n.app, n.reply, willing)
  }

  ghost predicate Live(deal: Deal, file: seq<byte>, n: System, willing: bool)
    requires ValidDeal(deal)
  {
    var d, p := n.client, n.client.at;
    && Sound(Asks(deal, file), d) && Follows(Asks(deal, file), p) && !d.failed
    && (p.callback >= PREPARE ==> p.blockLength == Granted(deal))
    && (if d.state == Sending then BeforeMessage(deal, file, n, willing) else AfterMessage(deal, file, n, willing))
    && (d.state != Idle && d.state != Sending ==> n.reply != [] && Validate(d.message, n.reply) == Fine)
    && (d.state == ProcessResponse || (d.state == Idle && p.callback >= AWAIT_GRANT) ==> d.received == n.reply)
    && (p.callback in {REQUEST_DOWNLOAD, CHECK_RESPONSE, PREPARE, REQUEST_EXIT, END} ==> d.state == Idle)
  }

  /** An unwilling file system may make the client give up. */
  ghost predicate SystemInv(deal: Deal, file: seq<byte>, n: System, willing: bool)
    requires ValidDeal(deal)
  {
    Live(deal, file, n, willing)
    || (!willing && n.client.failed && n.client.state == Idle && n.client.at.callback < END)
  }

  // ----- each part of a poll keeps it

  /** The server takes a message. */
  ghost predicate Took(n: System, n1: System, e: Effect) {
    n1.client == n.client.(state := AwaitSendComplete) && n1.xfer == e.xfer && n1.app == e.app && n1.reply == e.response
  }

  lemma RequestTaken(deal: Deal, file: seq<byte>, n: System, n1: System, w: World, willing: bool)
    requires ValidDeal(deal) && Live(deal, file, n, willing) && (willing ==> w.opens)
    requires n.client.state == Sending && n.client.at.callback == AWAIT_GRANT
    requires Took(n, n1, OnRequest(Total(deal), deal.grant, n.xfer, n.app, w))
    ensures Live(deal, file, n1, willing)
  {
    EmptyPrefix(file);
  }

  lemma BlockTaken(deal: Deal, file: seq<byte>, n: System, n1: System, w: World, willing: bool)
    requires ValidDeal(deal) && Live(deal, file, n, willing) && (willing ==> w.writable >= |file|)
    requires n.client.state == Sending && n.client.at.callback == TRANSFER_DATA
    requires var k := |n.client.at.issued| - 1;
             k >= 1 && Took(n, n1, FileTransfer.OnBlock(k % 256, FileTransfer.BlockOf(file, Granted(deal) - 2, k - 1),
                                                        n.xfer, n.app, w))
    ensures Live(deal, file, n1, willing)
  {
    BlockKeepsServer(deal, file, Granted(deal) - 2, |n.client.at.issued| - 2, n.xfer, n.app, w, willing);
  }

  lemma ExitTaken(deal: Deal, file: seq<byte>, n: System, n1: System, willing: bool)
    requires ValidDeal(deal) && Live(deal, file, n, willing)
    requires n.client.state == Sending && n.client.at.callback == AWAIT_EXIT
    requires Took(n, n1, FileTransfer.OnExit(n.xfer, n.app))
    ensures Live(deal, file, n1, willing)
  {
    ExitKeepsServer(deal, file, Granted(deal) - 2, n.xfer, n.app, willing);
  }

  /** The state after the server took the client's message. */
  function Taken(deal: Deal, n: System, t: Turn): System
    requires ValidTurn(t) && 1 <= |n.client.message| <= MTU
  {
    var (h, app1) := Serve(n, Incoming(n.client.message, t.stale), deal, t);
    System(n.client.(state := AwaitSendComplete), h.xfer, h.sec, app1, h.response)
  }

  lemma MessageFits(deal: Deal, file: seq<byte>, n: System, willing: bool)
    requires ValidDeal(deal) && Live(deal, file, n, willing) && n.client.state == Sending
    ensures 1 <= |n.client.message| <= MTU
  {
    if n.client.at.callback == TRANSFER_DATA {
      MessageShape(file, Granted(deal) - 2, |n.client.at.issued| - 2);
    }
  }

  lemma TakenIs(deal: Deal, n: System, t: Turn, e: Effect)
    requires ValidTurn(t) && 1 <= |n.client.message| <= MTU
    requires Does(n, Incoming(n.client.message, t.stale), deal, t, e)
    ensures Took(n, Taken(deal, n, t), e)
  {
  }

  lemma TakenRequestKeeps(deal: Deal, file: seq<byte>, n: System, t: Turn, willing: bool)
    requires ValidDeal(deal) && Live(deal, file, n, willing) && n.client.state == Sending && ValidTurn(t)
    requires (willing ==> Willing(t, file)) && n.client.at.callback == AWAIT_GRANT && 1 <= |n.client.message| <= MTU
    ensures Live(deal, file, Taken(deal, n, t), willing)
  {
    RequestServed(n, Incoming(n.client.message, t.stale), deal, file, t);
    TakenIs(deal, n, t, OnRequest(Total(deal), deal.grant, n.xfer, n.app, t.world));
    RequestTaken(deal, file, n, Taken(deal, n, t), t.world, willing);
  }

  lemma TakenBlockKeeps(deal: Deal, file: seq<byte>, n: System, t: Turn, willing: bool)
    requires ValidDeal(deal) && Live(deal, file, n, willing) && n.client.state == Sending && ValidTurn(t)
    requires (willing ==> Willing(t, file)) && n.client.at.callback == TRANSFER_DATA && 1 <= |n.client.message| <= MTU
    ensures Live(deal, file, Taken(deal, n, t), willing)
  {
    var k := |n.client.at.issued| - 1;
    var block := FileTransfer.BlockOf(file, Granted(deal) - 2, k - 1);
    BlockServed(n, Incoming(n.client.message, t.stale), deal, t, k % 256, block);
    TakenIs(deal, n, t, FileTransfer.OnBlock(k % 256, block, n.xfer, n.app, t.world));
    BlockTaken(deal, file, n, Taken(deal, n, t), t.world, willing);
  }

  lemma TakenExitKeeps(deal: Deal, file: seq<byte>, n: System, t: Turn, willing: bool)
    requires ValidDeal(deal) && Live(deal, file, n, willing) && n.client.state == Sending && ValidTurn(t)
    requires n.client.at.callback == AWAIT_EXIT && 1 <= |n.client.message| <= MTU
    ensures Live(deal, file, Taken(deal, n, t), willing)
  {
    ExitServed(n, Incoming(n.client.message, t.stale), deal, t);
    TakenIs(deal, n, t, FileTransfer.OnExit(n.xfer, n.app));
    ExitTaken(deal, file, n, Taken(deal, n, t), willing);
  }

  lemma TakenKeeps(deal: Deal, file: seq<byte>, n: System, t: Turn, willing: bool)
    requires ValidDeal(deal) && Live(deal, file, n, willing) && n.client.state == Sending && ValidTurn(t)
    requires willing ==> Willing(t, file)
    requires 1 <= |n.client.message| <= MTU
    ensures Live(deal, file, Taken(deal, n, t), willing)
  {
    if n.client.at.callback == AWAIT_GRANT {
      TakenRequestKeeps(deal, file, n, t, willing);
    } else if n.client.at.callback == TRANSFER_DATA {
      TakenBlockKeeps(deal, file, n, t, willing);
    } else {
      TakenExitKeeps(deal, file, n, t, willing);
    }
  }

  /** The request state machine moves on without taking a message. */
  lemma LowLevelKeeps(deal: Deal, file: seq<byte>, n: System, t: Turn, willing: bool)
    requires ValidDeal(deal) && Live(deal, file, n, willing) && n.client.state != Sending
    ensures Live(deal, file, n.(client := PollLowLevel(n.client, Meets(n, t))), willing)
  {
  }

  /** The callback, with its message still to be taken. */
  function Issued(job: Job, d: Client, e: Surroundings): Client
    requires job.request != []
  {
    Callback(job, d, e.(takes := false))
  }

  lemma CallbackIssues(job: Job, d: Client, e: Surroundings)
    requires job.request != [] && d.state == Idle
    ensures var d1 := Issued(job, d, e);
            && (d1.state == Idle || d1.state == Sending)
            && Callback(job, d, e) == if d1.state == Sending && e.takes then d1.(state := AwaitSendComplete) else d1
  {
  }

  lemma GrantChecked(deal: Deal, file: seq<byte>, n: System, e: Surroundings, willing: bool)
    requires ValidDeal(deal) && Live(deal, file, n, willing) && n.client.at.callback == CHECK_RESPONSE
    ensures SystemInv(deal, file, n.(client := Issued(Asks(deal, file), n.client, e)), willing)
  {
    var job := Asks(deal, file);
    CallbackFollows(job, n.client, e.(takes := false));
    if n.reply == [ResponseSid(SID_REQUEST_DOWNLOAD), 0x20] + BigEndian.Encode(Granted(deal), 2) {
      AnnouncementRecovered(n.reply, Granted(deal));
    }
  }

  lemma NextIssued(deal: Deal, file: seq<byte>, n: System, e: Surroundings)
    requires ValidDeal(deal) && Live(deal, file, n, false) && n.client.state == Idle
    requires n.client.at.callback == TRANSFER_DATA && !n.client.at.eof
    ensures var d, p := Issued(Asks(deal, file), n.client, e), n.client.at;
            && d.state == Sending && !d.failed && |d.at.issued| == |p.issued| + 1
            && d.at.callback == TRANSFER_DATA && d.at.blockLength == p.blockLength
            && |p.issued| <= Count(|file|, Granted(deal) - 2)
            && d.message == DataMessage(file, Granted(deal) - 2, |p.issued| - 1)
  {
    ReadsOn(Asks(deal, file), n.client.at, |n.client.at.issued| - 1);
  }

  lemma Relaxed(deal: Deal, file: seq<byte>, n: System, willing: bool)
    requires ValidDeal(deal) && Live(deal, file, n, willing) && n.client.at.callback == TRANSFER_DATA
    ensures Live(deal, file, n, false)
  {
  }

  lemma NextKeeps(deal: Deal, file: seq<byte>, n: System, d1: Client, willing: bool)
    requires ValidDeal(deal) && Live(deal, file, n, willing) && n.client.state == Idle
    requires n.client.at.callback == TRANSFER_DATA && Follows(Asks(deal, file), d1.at)
    requires && d1.state == Sending && !d1.failed && |d1.at.issued| == |n.client.at.issued| + 1
             && d1.at.callback == TRANSFER_DATA && d1.at.blockLength == n.client.at.blockLength
             && |n.client.at.issued| <= Count(|file|, Granted(deal) - 2)
             && d1.message == DataMessage(file, Granted(deal) - 2, |n.client.at.issued| - 1)
    ensures Live(deal, file, n.(client := d1), willing)
  {
  }

  lemma BlockIssued(deal: Deal, file: seq<byte>, n: System, e: Surroundings, willing: bool)
    requires ValidDeal(deal) && Live(deal, file, n, willing) && n.client.state == Idle
    requires n.client.at.callback == TRANSFER_DATA
    ensures Live(deal, file, n.(client := Issued(Asks(deal, file), n.client, e)), willing)
  {
    CallbackFollows(Asks(deal, file), n.client, e.(takes := false));
    if !n.client.at.eof {
      Relaxed(deal, file, n, willing);
      NextIssued(deal, file, n, e);
      NextKeeps(deal, file, n, Issued(Asks(deal, file), n.client, e), willing);
    } else {
      EndReached(deal, file, n, e, willing);
    }
  }

  lemma EndReached(deal: Deal, file: seq<byte>, n: System, e: Surroundings, willing: bool)
    requires ValidDeal(deal) && Live(deal, file, n, willing) && n.client.state == Idle
    requires n.client.at.callback == TRANSFER_DATA && n.client.at.eof
    requires Follows(Asks(deal, file), Issued(Asks(deal, file), n.client, e).at)
    ensures Live(deal, file, n.(client := Issued(Asks(deal, file), n.client, e)), willing)
  {
  }

  lemma OtherIssued(deal: Deal, file: seq<byte>, n: System, e: Surroundings, willing: bool)
    requires ValidDeal(deal) && Live(deal, file, n, willing) && n.client.state == Idle && n.client.at.callback < END
    requires n.client.at.callback != TRANSFER_DATA && n.client.at.callback != CHECK_RESPONSE
    ensures Live(deal, file, n.(client := Issued(Asks(deal, file), n.client, e)), willing)
  {
    CallbackFollows(Asks(deal, file), n.client, e.(takes := false));
  }

  lemma IssuedKeeps(deal: Deal, file: seq<byte>, n: System, e: Surroundings, willing: bool)
    requires ValidDeal(deal) && Live(deal, file, n, willing) && n.client.state == Idle && n.client.at.callback < END
    ensures SystemInv(deal, file, n.(client := Issued(Asks(deal, file), n.client, e)), willing)
  {
    if n.client.at.callback == CHECK_RESPONSE {
      GrantChecked(deal, file, n, e, willing);
    } else if n.client.at.callback == TRANSFER_DATA {
      BlockIssued(deal, file, n, e, willing);
    } else {
      OtherIssued(deal, file, n, e, willing);
    }
  }

  // ----- a whole poll

  /** An idle client in state n0.client runs its callback in the poll. */
  function WithCallback(deal: Deal, job: Job, n0: System, t: Turn, e: Surroundings): System
    requires job.request != [] && ValidTurn(t)
  {
    var n1 := n0.(client := Issued(job, n0.client, e));
    if n1.client.state == Sending && t.takes && 1 <= |n1.client.message| <= MTU then Taken(deal, n1, t) else n1
  }

  lemma WithCallbackKeeps(deal: Deal, file: seq<byte>, n0: System, t: Turn, e: Surroundings, willing: bool)
    requires ValidDeal(deal) && Live(deal, file, n0, willing) && n0.client.state == Idle && n0.client.at.callback < END
    requires ValidTurn(t) && (willing ==> Willing(t, file))
    ensures SystemInv(deal, file, WithCallback(deal, Asks(deal, file), n0, t, e), willing)
  {
    var n1 := n0.(client := Issued(Asks(deal, file), n0.client, e));
    IssuedKeeps(deal, file, n0, e, willing);
    if n1.client.state == Sending {
      MessageFits(deal, file, n1, willing);
      TakenKeeps(deal, file, n1, t, willing);
    }
  }

  /** A poll from an idle client, or from one that a response makes idle. */
  lemma StepIsCallback(deal: Deal, job: Job, n: System, t: Turn)
    requires Sound(job, n.client) && ValidTurn(t) && n.client.state != Sending && n.client.state != AwaitSendComplete
    requires var d0 := PollLowLevel(n.client, Meets(n, t));
             && d0.state == Idle && !d0.failed && d0.at.callback < END
             && (Issued(job, d0, Meets(n, t)).state == Sending ==> 1 <= |Issued(job, d0, Meets(n, t)).message| <= MTU)
    ensures var n0 := n.(client := PollLowLevel(n.client, Meets(n, t)));
            Step(deal, job, n, t) == WithCallback(deal, job, n0, t, Meets(n, t))
  {
    CallbackIssues(job, PollLowLevel(n.client, Meets(n, t)), Meets(n, t));
  }

  lemma StepIsTaken(deal: Deal, job: Job, n: System, t: Turn)
    requires Sound(job, n.client) && ValidTurn(t) && n.client.state == Sending && 1 <= |n.client.message| <= MTU
    ensures Step(deal, job, n, t) == if t.takes then Taken(deal, n, t) else n
  {
  }

  lemma StepStays(deal: Deal, job: Job, n: System, t: Turn)
    requires Sound(job, n.client) && ValidTurn(t) && n.client.state != Sending
    requires var d0 := PollLowLevel(n.client, Meets(n, t)); d0.failed || d0.state != Idle || d0.at.callback >= END
    ensures Step(deal, job, n, t) == n.(client := PollLowLevel(n.client, Meets(n, t)))
  {
  }

  lemma IssuedFits(deal: Deal, file: seq<byte>, n0: System, e: Surroundings, willing: bool)
    requires ValidDeal(deal) && Live(deal, file, n0, willing) && n0.client.state == Idle && n0.client.at.callback < END
    ensures var d := Issued(Asks(deal, file), n0.client, e); d.state == Sending ==> 1 <= |d.message| <= MTU
  {
    var n1 := n0.(client := Issued(Asks(deal, file), n0.client, e));
    IssuedKeeps(deal, file, n0, e, willing);
    if n1.client.state == Sending {
      MessageFits(deal, file, n1, willing);
    }
  }

  lemma LivePoll(deal: Deal, file: seq<byte>, n: System, t: Turn, willing: bool)
    requires ValidDeal(deal) && Live(deal, file, n, willing) && ValidTurn(t) && (willing ==> Willing(t, file))
    requires n.client.state != Sending
    ensures SystemInv(deal, file, Step(deal, Asks(deal, file), n, t), willing)
  {
    var job, e := Asks(deal, file), Meets(n, t);
    LowLevelKeeps(deal, file, n, t, willing);
    var n0 := n.(client := PollLowLevel(n.client, e));
    if n0.client.state == Idle && n0.client.at.callback < END {
      IssuedFits(deal, file, n0, e, willing);
      StepIsCallback(deal, job, n, t);
      WithCallbackKeeps(deal, file, n0, t, e, willing);
    } else {
      StepStays(deal, job, n, t);
    }
  }

  lemma StepKeeps(deal: Deal, file: seq<byte>, n: System, t: Turn, willing: bool)
    requires ValidDeal(deal) && SystemInv(deal, file, n, willing) && Sound(Asks(deal, file), n.client)
    requires ValidTurn(t) && (willing ==> Willing(t, file))
    ensures SystemInv(deal, file, Step(deal, Asks(deal, file), n, t), willing)
  {
    var job := Asks(deal, file);
    if n.client.failed {
      StepStays(deal, job, n, t);
    } else if n.client.state == Sending {
      MessageFits(deal, file, n, willing);
      StepIsTaken(deal, job, n, t);
      TakenKeeps(deal, file, n, t, willing);
    } else {
      LivePoll(deal, file, n, t, willing);
    }
  }

  ghost predicate AllWilling(turns: seq<Turn>, file: seq<byte>) {
    forall i :: 0 <= i < |turns| ==> Willing(turns[i], file)
  }

  lemma {:induction false} StepsKeep(deal: Deal, file: seq<byte>, n: System, turns: seq<Turn>, willing: bool)
    requires ValidDeal(deal) && SystemInv(deal, file, n, willing) && Sound(Asks(deal, file), n.client)
    requires ValidTurns(turns) && (willing ==> AllWilling(turns, file))
    ensures SystemInv(deal, file, Steps(deal, Asks(deal, file), n, turns), willing)
    decreases |turns|
  {
    if turns != [] {
      StepKeeps(deal, file, n, turns[0], willing);
      StepsKeep(deal, file, Step(deal, Asks(deal, file), n, turns[0]), turns[1..], willing);
    }
  }

  // ----- main results

  lemma BeginsLive(deal: Deal, file: seq<byte>, n: System, willing: bool)
    requires ValidDeal(deal) && Begins(n)
    ensures Live(deal, file, n, willing)
  {
  }

  lemma EndSays(deal: Deal, file: seq<byte>, n: System, willing: bool)
    requires ValidDeal(deal) && SystemInv(deal, file, n, willing) && n.client.at.callback == END
    ensures n.client.at.issued == Script(Asks(deal, file), Granted(deal)) && !n.client.failed
    ensures var positive := n.client.received == [ResponseSid(SID_REQUEST_TRANSFER_EXIT)];
            && (positive <==> n.app.file == file) && (positive ==> |file| <= Total(deal))
            && (!positive ==> n.client.received == Negative(SID_REQUEST_TRANSFER_EXIT, UPLOAD_DOWNLOAD_NOT_ACCEPTED))
            && (willing && |file| <= Total(deal) ==> positive)
  {
  }

  /** In every run, with any delays and any file system: a client at the end of its sequence has sent the script, and
      the last response it received is positive if and only if the server's file is the job's file. */
  lemma PositiveIffStored(deal: Deal, file: seq<byte>, n: System, turns: seq<Turn>)
    requires ValidDeal(deal) && Begins(n) && ValidTurns(turns)
    ensures var n1 := Steps(deal, Asks(deal, file), n, turns);
            n1.client.at.callback == END ==>
              && n1.client.at.issued == Script(Asks(deal, file), Granted(deal))
              && (n1.client.received == [ResponseSid(SID_REQUEST_TRANSFER_EXIT)] <==> n1.app.file == file)
  {
    BeginsLive(deal, file, n, false);
    StepsKeep(deal, file, n, turns, false);
    var n1 := Steps(deal, Asks(deal, file), n, turns);
    if n1.client.at.callback == END {
      EndSays(deal, file, n1, false);
    }
  }

  /** In every run with a file system that does what it is asked: at the end of the sequence the server's file is the
      job's file if and only if the announced size covers it; and so is the last response positive. Otherwise it is a
      refusal, which the client has received without noticing an error. */
  lemma StoredIffAnnounced(deal: Deal, file: seq<byte>, n: System, turns: seq<Turn>)
    requires ValidDeal(deal) && Begins(n) && ValidTurns(turns) && AllWilling(turns, file)
    ensures var n1 := Steps(deal, Asks(deal, file), n, turns);
            n1.client.at.callback == END ==>
              && n1.client.at.issued == Script(Asks(deal, file), Granted(deal)) && !n1.client.failed
              && (n1.app.file == file <==> |file| <= Total(deal))
              && n1.client.received == if |file| <= Total(deal) then [ResponseSid(SID_REQUEST_TRANSFER_EXIT)]
                                       else Negative(SID_REQUEST_TRANSFER_EXIT, UPLOAD_DOWNLOAD_NOT_ACCEPTED)
  {
    BeginsLive(deal, file, n, true);
    StepsKeep(deal, file, n, turns, true);
    var n1 := Steps(deal, Asks(deal, file), n, turns);
    if n1.client.at.callback == END {
      EndSays(deal, file, n1, true);
    }
  }

  // ----- the end is reached in any case

  lemma LiveSmooth(deal: Deal, file: seq<byte>, n: System)
    requires ValidDeal(deal) && Live(deal, file, n, true)
    ensures Smooth(Asks(deal, file), Granted(deal), n.client) && !FindsPending(n.client)
  {
    var L := Granted(deal);
    AnnouncementRecovered([ResponseSid(SID_REQUEST_DOWNLOAD), 0x20] + BigEndian.Encode(L, 2), L);
  }

  lemma ReplyHelps(deal: Deal, file: seq<byte>, n: System, t: Turn)
    requires ValidDeal(deal) && Live(deal, file, n, true)
    ensures Helpful(Granted(deal), n.client, Meets(n, t))
    ensures t.takes && t.sent && t.arrives ==> Prompt(n.client, Meets(n, t))
  {
    var L := Granted(deal);
    AnnouncementRecovered([ResponseSid(SID_REQUEST_DOWNLOAD), 0x20] + BigEndian.Encode(L, 2), L);
  }

  lemma StepClient(deal: Deal, job: Job, n: System, t: Turn)
    requires Sound(job, n.client) && ValidTurn(t)
    ensures Step(deal, job, n, t).client == Download.Poll(job, n.client, Meets(n, t))
  {
  }

  /** Nothing is delayed. */
  predicate AllPromptTurns(turns: seq<Turn>) {
    forall i :: 0 <= i < |turns| ==> turns[i].takes && turns[i].sent && turns[i].arrives
  }

  lemma {:induction false} StepsEnd(deal: Deal, file: seq<byte>, n: System, turns: seq<Turn>)
    requires ValidDeal(deal) && Live(deal, file, n, true) && ValidTurns(turns) && AllWilling(turns, file)
    requires AllPromptTurns(turns) && |turns| >= Measure(Asks(deal, file), Granted(deal), n.client)
    ensures Steps(deal, Asks(deal, file), n, turns).client.at.callback == END
    decreases |turns|
  {
    var job, L := Asks(deal, file), Granted(deal);
    LiveSmooth(deal, file, n);
    RemainingIsNatural(job, L, n.client);
    if turns != [] {
      var t := turns[0];
      ReplyHelps(deal, file, n, t);
      PollSmooth(job, L, n.client, Meets(n, t));
      StepClient(deal, job, n, t);
      StepKeeps(deal, file, n, t, true);
      StepsEnd(deal, file, Step(deal, job, n, t), turns[1..]);
    }
  }

  /** Whatever size was announced, the sequence reaches its end: also where the server refuses the data, so that by
      StoredIffAnnounced the file is not stored. */
  lemma SequenceEndsRegardless(deal: Deal, file: seq<byte>, n: System, turns: seq<Turn>)
    requires ValidDeal(deal) && Begins(n) && ValidTurns(turns) && AllWilling(turns, file) && AllPromptTurns(turns)
    requires |turns| >= 10 * (Count(|file|, Granted(deal) - 2) + 2) + END
    ensures var n1 := Steps(deal, Asks(deal, file), n, turns);
            && n1.client.at.callback == END && !n1.client.failed
            && (|file| > Total(deal) ==>
                  n1.app.file != file
                  && n1.client.received == Negative(SID_REQUEST_TRANSFER_EXIT, UPLOAD_DOWNLOAD_NOT_ACCEPTED))
  {
    BeginsLive(deal, file, n, true);
    StepsEnd(deal, file, n, turns);
    StoredIffAnnounced(deal, file, n, turns);
  }

  // ----- the application of this repository

  /** The refusal of HandleRequestDownload. */
  const REFUSAL: seq<byte> := Negative(SID_REQUEST_DOWNLOAD, SERVICE_NOT_SUPPORTED)

  lemma RequestRefused(n: System, q: Request, deal: Deal, file: seq<byte>, t: Turn)
    requires ValidRequestOf(deal) && !deal.stores && !n.xfer.active
    requires FileTransfer.Carries(q, Asks(deal, file).request)
    ensures var (h, app1) := Serve(n, q, deal, t);
            h.response == REFUSAL && !h.xfer.active && app1 == n.app
  {
    ByteShows(q, Asks(deal, file).request, 0);
    PhysicalLoad(n.xfer, n.sec, q, t.now, Consult(n.app, q, deal, t.world).1);
    LoadRoundTrip(q, SID_REQUEST_DOWNLOAD, deal.format, deal.address, deal.addressLen, deal.size, deal.sizeLen);
  }

  /** The client is on the way to its request, to the answer, or to its failure at the check of the answer. */
  ghost predicate Doomed(deal: Deal, file: seq<byte>, n: System)
    requires ValidRequestOf(deal)
  {
    var d, p, request := n.client, n.client.at, Asks(deal, file).request;
    && !n.xfer.active && p.callback <= CHECK_RESPONSE
    && (if p.callback == REQUEST_DOWNLOAD then d.state == Idle && p.issued == [] && !d.failed
        else p.issued == [request] && d.message == request && (d.state != Sending ==> n.reply == REFUSAL))
    && (d.state == ProcessResponse || (d.state == Idle && p.callback > REQUEST_DOWNLOAD) ==> d.received == REFUSAL)
    && (p.callback == CHECK_RESPONSE || d.failed ==> d.state == Idle && p.callback == CHECK_RESPONSE)
  }

  /** The polls that such a client may still need. */
  function DoomedFor(d: Client): nat {
    if d.failed then 0
    else if d.at.callback == REQUEST_DOWNLOAD then 8
    else if d.at.callback == AWAIT_GRANT then 2 + Stage(d.state)
    else 1
  }

  lemma DoomedTakes(deal: Deal, file: seq<byte>, n: System, t: Turn)
    requires ValidRequestOf(deal) && !deal.stores && Doomed(deal, file, n) && ValidTurn(t) && n.client.state == Sending
    ensures 1 <= |n.client.message| <= MTU
    ensures Doomed(deal, file, Taken(deal, n, t)) && Taken(deal, n, t).app == n.app
    ensures DoomedFor(Taken(deal, n, t).client) < DoomedFor(n.client)
  {
    RequestRefused(n, Incoming(n.client.message, t.stale), deal, file, t);
  }

  lemma DoomedIssues(deal: Deal, file: seq<byte>, n: System, e: Surroundings)
    requires ValidRequestOf(deal) && Doomed(deal, file, n) && n.client.state == Idle && !n.client.failed
    ensures var n1 := n.(client := Issued(Asks(deal, file), n.client, e));
            && Doomed(deal, file, n1) && DoomedFor(n1.client) < DoomedFor(n.client)
            && (n1.client.state == Sending ==> n1.client.message == Asks(deal, file).request)
  {
  }

  lemma DoomedCallback(deal: Deal, file: seq<byte>, n: System, t: Turn, e: Surroundings)
    requires ValidRequestOf(deal) && !deal.stores && Doomed(deal, file, n) && ValidTurn(t)
    requires n.client.state == Idle && !n.client.failed
    ensures var n1 := WithCallback(deal, Asks(deal, file), n, t, e);
            Doomed(deal, file, n1) && n1.app == n.app && DoomedFor(n1.client) < DoomedFor(n.client)
  {
    var n1 := n.(client := Issued(Asks(deal, file), n.client, e));
    DoomedIssues(deal, file, n, e);
    if n1.client.state == Sending {
      DoomedTakes(deal, file, n1, t);
    }
  }

  lemma DoomedLowLevel(deal: Deal, file: seq<byte>, n: System, t: Turn)
    requires ValidRequestOf(deal) && Doomed(deal, file, n) && n.client.state != Sending
    ensures var n0 := n.(client := PollLowLevel(n.client, Meets(n, t)));
            && Doomed(deal, file, n0) && n0.client.failed == n.client.failed
            && DoomedFor(n0.client) <= DoomedFor(n.client)
            && (t.takes && t.sent && t.arrives && n.client.state != Idle ==> DoomedFor(n0.client) < DoomedFor(n.client))
  {
  }

  lemma DoomedStep(deal: Deal, file: seq<byte>, n: System, t: Turn)
    requires ValidRequestOf(deal) && !deal.stores && Doomed(deal, file, n) && ValidTurn(t)
    requires Sound(Asks(deal, file), n.client)
    ensures var n1 := Step(deal, Asks(deal, file), n, t);
            && Doomed(deal, file, n1) && n1.app == n.app
            && (t.takes && t.sent && t.arrives && !n.client.failed ==> DoomedFor(n1.client) < DoomedFor(n.client))
            && (n.client.failed ==> n1.client.failed)
  {
    var job := Asks(deal, file);
    if n.client.state == Sending {
      DoomedTakes(deal, file, n, t);
      StepIsTaken(deal, job, n, t);
    } else {
      DoomedLowLevel(deal, file, n, t);
      var n0 := n.(client := PollLowLevel(n.client, Meets(n, t)));
      if n0.client.state == Idle && !n0.client.failed {
        DoomedIssues(deal, file, n0, Meets(n, t));
        StepIsCallback(deal, job, n, t);
        DoomedCallback(deal, file, n0, t, Meets(n, t));
      } else {
        StepStays(deal, job, n, t);
      }
    }
  }

  lemma PromptTail(turns: seq<Turn>)
    requires turns != [] && AllPromptTurns(turns)
    ensures turns[0].takes && turns[0].sent && turns[0].arrives && AllPromptTurns(turns[1..])
  {
  }

  lemma {:induction false} DoomedSteps(deal: Deal, file: seq<byte>, n: System, turns: seq<Turn>)
    requires ValidRequestOf(deal) && !deal.stores && Doomed(deal, file, n) && ValidTurns(turns)
    requires Sound(Asks(deal, file), n.client)
    ensures var n1 := Steps(deal, Asks(deal, file), n, turns);
            && Doomed(deal, file, n1) && n1.app == n.app && (n.client.failed ==> n1.client.failed)
            && (AllPromptTurns(turns) && |turns| >= DoomedFor(n.client) ==> n1.client.failed)
    decreases |turns|
  {
    if turns != [] {
      var n1 := Step(deal, Asks(deal, file), n, turns[0]);
      DoomedStep(deal, file, n, turns[0]);
      DoomedSteps(deal, file, n1, turns[1..]);
      if AllPromptTurns(turns) && |turns| >= DoomedFor(n.client) {
        PromptTail(turns);
        assert |turns[1..]| >= DoomedFor(n1.client);
      }
    }
  }

  /** With the application of this repository, in every run: the client sends nothing but its request, never reaches the
      end, and writes nothing; and after eight polls without a delay it has failed at the check of the response. */
  lemma ThisApplicationRefuses(deal: Deal, file: seq<byte>, n: System, turns: seq<Turn>)
    requires ValidRequestOf(deal) && !deal.stores && Begins(n) && ValidTurns(turns)
    ensures var n1 := Steps(deal, Asks(deal, file), n, turns);
            && n1.client.at.issued <= [Asks(deal, file).request] && n1.client.at.callback <= CHECK_RESPONSE
            && n1.app == n.app && !n1.xfer.active
            && (AllPromptTurns(turns) && |turns| >= 8 ==>
                  n1.client.failed && n1.client.at.callback == CHECK_RESPONSE && n1.client.received == REFUSAL)
  {
    DoomedSteps(deal, file, n, turns);
  }
}
