/** The upgrade application behind the server: the file it writes during a file transfer. */
module Upgrade {
  import opened Prelude
  import opened Bytes
  import opened Clock
  import opened Uds

  /** File handles: how many have been opened, closed, and overwritten while they were open. */
  datatype Handles = Handles(openings: nat, closings: nat, lost: nat)

  /** The handle fw_file_, the contents of the file it was last opened on, whether a null handle was ever closed, and
      what became of the handles. */
  datatype App = App(open: bool, file: seq<byte>, nullClosed: bool, handles: Handles := Handles(0, 0, 0))

  /** What the file system does with one call: can the file be created, how many bytes does a write take; and the answer
      to the events that do not concern the file. */
  datatype World = World(opens: bool, writable: nat, other: Answer)

  // ----- the handlers

  /** fopen overwrites the handle, whatever it was. */
  function Reopened(app: App, opens: bool): Handles {
    var h := app.handles;
    Handles(h.openings + if opens then 1 else 0, h.closings, h.lost + if app.open then 1 else 0)
  }

  function HandleRequestFileTransfer(app: App, w: World): (App, Answer) {
    var handles := Reopened(app, w.opens);
    if w.opens then (app.(open := true, file := [], handles := handles), Answer(POSITIVE, [], MTU))
    else (app.(open := false, handles := handles), Answer(UPLOAD_DOWNLOAD_NOT_ACCEPTED, [], 0))
  }

  function HandleTransferData(app: App, data: seq<byte>, w: World): (App, Answer) {
    if !app.open then (app, Answer(GENERAL_PROGRAMMING_FAILURE, [], 0))
    else
      var size := Min(w.writable, |data|);
      (app.(file := app.file + data[..size]),
       Answer(if size == |data| then POSITIVE else GENERAL_PROGRAMMING_FAILURE, [], 0))
  }

  function HandleRequestTransferExit(app: App): (App, Answer) {
    var h := app.handles;
    (App(false, app.file, app.nullClosed || !app.open, h.(closings := h.closings + if app.open then 1 else 0)),
     Answer(POSITIVE, [], 0))
  }

  /** The block length the library proposes to a RequestDownload callback. */
  const DEFAULT_BLOCK_LENGTH := MTU

  /** HandleRequestDownload and HandleRequestUpload refuse. */
  function HandleRequestLoad(): Answer {
    Answer(SERVICE_NOT_SUPPORTED, [], DEFAULT_BLOCK_LENGTH)
  }

  /** What the application would do about request q if the library asked it. */
  function Consult(app: App, q: Request, w: World): (App, Answer)
    requires ValidRequest(q)
  {
    var sid := q.buf[0];
    if sid == SID_REQUEST_FILE_TRANSFER then HandleRequestFileTransfer(app, w)
    else if sid == SID_TRANSFER_DATA then HandleTransferData(app, if q.len >= 2 then q.buf[2..q.len] else [], w)
    else if sid == SID_REQUEST_TRANSFER_EXIT then HandleRequestTransferExit(app)
    else if sid == SID_REQUEST_DOWNLOAD || sid == SID_REQUEST_UPLOAD then (app, HandleRequestLoad())
    else (app, w.other)
  }

  // ----- library and application together

  /** Library and application evaluate a request; the application changes only if the library asks it. */
  function Serve(c: Clock, x: Xfer, sec: Security, pending: bool, q: Request, now: int, app: App, w: World)
    : (Handled, App)
    requires ValidRequest(q)
  {
    var (app1, a) := Consult(app, q, w);
    var h := Evaluate(c, x, sec, pending, q, now, a);
    (h, if h.asked then app1 else app)
  }

  /** While a transfer is active the file is open and holds exactly the bytes the library has counted. */
  ghost predicate Conserved(x: Xfer, app: App) {
    x.active ==> app.open && |app.file| == x.done <= x.total
  }

  lemma ServeFileTransfer(x: Xfer, sec: Security, q: Request, app: App, w: World)
    requires ValidRequest(q) && Conserved(x, app)
    ensures var (app1, a) := HandleRequestFileTransfer(app, w);
            var h := RequestFileTransfer(x, sec, q, a);
            Conserved(h.xfer, if h.asked then app1 else app)
  {
  }

  /** A positive answer to TransferData means that exactly the request's data was appended to the file. */
  lemma ServeTransferData(x: Xfer, sec: Security, pending: bool, q: Request, app: App, w: World)
    requires ValidRequest(q) && Conserved(x, app)
    ensures var (app1, a) := HandleTransferData(app, if q.len >= 2 then q.buf[2..q.len] else [], w);
            var h := TransferData(x, sec, pending, q, a);
            && Conserved(h.xfer, if h.asked then app1 else app)
            && (h.code == POSITIVE <==> h.xfer.active)
            && (h.code == POSITIVE ==> q.len >= 2 && app1.file == app.file + q.buf[2..q.len])
  {
  }

  lemma ServeTransferExit(x: Xfer, sec: Security, q: Request, app: App)
    requires Conserved(x, app)
    ensures var (app1, a) := HandleRequestTransferExit(app);
            var h := RequestTransferExit(x, sec, q, a);
            !h.xfer.active && (h.asked ==> app.open && app1.nullClosed == app.nullClosed)
  {
  }

  /** What a service leaves is what the evaluation leaves, but for the response. */
  lemma EvaluateIsService(c: Clock, x: Xfer, sec: Security, pending: bool, q: Request, now: int, a: Answer)
    requires ValidRequest(q)
    ensures var h, service := Evaluate(c, x, sec, pending, q, now, a), Service(c, x, sec, pending, q, now, a);
            if HasHandler(q.buf[0]) then h == service.(response := h.response) else h.xfer == x && !h.asked
  {
  }

  lemma ServiceConserves(c: Clock, x: Xfer, sec: Security, pending: bool, q: Request, now: int, app: App, w: World)
    requires ValidRequest(q) && Conserved(x, app)
    ensures var (app1, a) := Consult(app, q, w);
            var h := Service(c, x, sec, pending, q, now, a);
            && Conserved(h.xfer, if h.asked then app1 else app)
            && (h.asked ==> app1.nullClosed == app.nullClosed)
  {
    var sid := q.buf[0];
    if sid == SID_REQUEST_FILE_TRANSFER {
      ServeFileTransfer(x, sec, q, app, w);
    } else if sid == SID_TRANSFER_DATA {
      ServeTransferData(x, sec, pending, q, app, w);
    } else if sid == SID_REQUEST_TRANSFER_EXIT {
      ServeTransferExit(x, sec, q, app);
    }
  }

  /** One request keeps file and count equal and closes no null handle. */
  lemma ServeConserves(c: Clock, x: Xfer, sec: Security, pending: bool, q: Request, now: int, app: App, w: World)
    requires ValidRequest(q) && Conserved(x, app)
    ensures var (h, app1) := Serve(c, x, sec, pending, q, now, app, w);
            Conserved(h.xfer, app1) && app1.nullClosed == app.nullClosed
  {
    ServiceConserves(c, x, sec, pending, q, now, app, w);
    EvaluateIsService(c, x, sec, pending, q, now, Consult(app, q, w).1);
  }

  // ----- what becomes of the file handles

  /** Every handle that was opened has been closed, is still open, or was lost. */
  ghost predicate Balanced(app: App) {
    app.handles.openings == app.handles.closings + app.handles.lost + if app.open then 1 else 0
  }

  /** The request makes the application overwrite an open handle. */
  predicate Loses(x: Xfer, app: App, q: Request)
    requires ValidRequest(q)
  {
    && q.buf[0] == SID_REQUEST_FILE_TRANSFER && !x.active && q.len >= 4 && ParseFileRequest(q).FileRequest?
    && app.open
  }

  /** The file is open though no transfer is active. */
  predicate Dangling(x: Xfer, app: App) {
    app.open && !x.active
  }

  lemma ConsultBalances(app: App, q: Request, w: World)
    requires ValidRequest(q) && Balanced(app)
    ensures Balanced(Consult(app, q, w).0)
    ensures Consult(app, q, w).0.handles.lost
            == app.handles.lost + if q.buf[0] == SID_REQUEST_FILE_TRANSFER && app.open then 1 else 0
  {
  }

  lemma FileTransferAsked(x: Xfer, sec: Security, q: Request, a: Answer)
    requires ValidRequest(q)
    ensures RequestFileTransfer(x, sec, q, a).asked
            <==> !x.active && q.len >= 4 && ParseFileRequest(q).FileRequest?
    ensures RequestFileTransfer(x, sec, q, a).xfer.active
            <==> x.active || (RequestFileTransfer(x, sec, q, a).asked && a.code == POSITIVE)
  {
  }

  /** One request keeps the handles balanced, and loses one exactly if it reopens the file. */
  lemma ServeBalances(c: Clock, x: Xfer, sec: Security, pending: bool, q: Request, now: int, app: App, w: World)
    requires ValidRequest(q) && Balanced(app)
    ensures var app1 := Serve(c, x, sec, pending, q, now, app, w).1;
            Balanced(app1) && app1.handles.lost == app.handles.lost + if Loses(x, app, q) then 1 else 0
  {
    var a := Consult(app, q, w).1;
    ConsultBalances(app, q, w);
    EvaluateIsService(c, x, sec, pending, q, now, a);
    if q.buf[0] == SID_REQUEST_FILE_TRANSFER {
      FileTransferAsked(x, sec, q, a);
    }
  }

  /** The request is TransferData, and ends an active transfer by failing. */
  ghost predicate FailsTransfer(x: Xfer, q: Request, h: Handled)
    requires ValidRequest(q)
  {
    q.buf[0] == SID_TRANSFER_DATA && x.active && !h.xfer.active
  }

  lemma ServiceDangles(c: Clock, x: Xfer, sec: Security, pending: bool, q: Request, now: int, app: App, w: World)
    requires ValidRequest(q) && Conserved(x, app)
    ensures var (app1, a) := Consult(app, q, w);
            var h := Service(c, x, sec, pending, q, now, a);
            Dangling(h.xfer, if h.asked then app1 else app)
            <==> FailsTransfer(x, q, h) || (Dangling(x, app) && !Loses(x, app, q))
  {
    var sid := q.buf[0];
    if sid == SID_REQUEST_FILE_TRANSFER {
      FileTransferAsked(x, sec, q, Consult(app, q, w).1);
    } else if sid == SID_TRANSFER_DATA {
      ServeTransferData(x, sec, pending, q, app, w);
    } else if sid == SID_REQUEST_TRANSFER_EXIT {
      ServeTransferExit(x, sec, q, app);
    }
  }

  /** After a request the file is open without a transfer exactly if the request was a block that failed, or the file
      was so before and was not reopened: so the handles that get lost are those of failed transfers. */
  lemma ServeDangles(c: Clock, x: Xfer, sec: Security, pending: bool, q: Request, now: int, app: App, w: World)
    requires ValidRequest(q) && Conserved(x, app)
    ensures var (h, app1) := Serve(c, x, sec, pending, q, now, app, w);
            Dangling(h.xfer, app1) <==> FailsTransfer(x, q, h) || (Dangling(x, app) && !Loses(x, app, q))
  {
    ServiceDangles(c, x, sec, pending, q, now, app, w);
    EvaluateIsService(c, x, sec, pending, q, now, Consult(app, q, w).1);
  }

  // ----- runs of the poll loop

  datatype Turn = Turn(now: int, arrival: Option<Request>, world: World)

  ghost predicate ValidTurns(turns: seq<Turn>) {
    forall i :: 0 <= i < |turns| ==> turns[i].arrival.Some? ==> ValidRequest(turns[i].arrival.value)
  }

  /** UDSServerPoll with the application. */
  function PollWith(c: Clock, s: Server, app: App, t: Turn): (r: (Server, App))
    requires ValidServer(s) && ValidTurns([t])
    ensures ValidServer(r.0)
  {
    assert [t][0] == t;
    match Evaluating(s, t.arrival)
    case None => (Poll(c, s, Env(t.now, t.arrival, t.world.other)).0, app)
    case Some(q) =>
      var (h, app1) := Serve(c, s.xfer, s.sec, s.pending, q, t.now, app, t.world);
      (Poll(c, s, Env(t.now, t.arrival, Consult(app, q, t.world).1)).0, app1)
  }

  function RunWith(c: Clock, s: Server, app: App, turns: seq<Turn>): (r: (Server, App))
    requires ValidServer(s) && ValidTurns(turns)
    ensures ValidServer(r.0)
    decreases |turns|
  {
    if turns == [] then (s, app)
    else
      assert [turns[0]][0] == turns[0];
      var (s1, app1) := PollWith(c, s, app, turns[0]);
      RunWith(c, s1, app1, turns[1..])
  }

  /** A poll leaves the transfer state as its evaluation does. */
  lemma PollXfer(c: Clock, s: Server, app: App, t: Turn)
    requires ValidServer(s) && ValidTurns([t])
    ensures PollWith(c, s, app, t).0.xfer ==
            match Evaluating(s, t.arrival)
            case None => s.xfer
            case Some(q) => Evaluate(c, s.xfer, s.sec, s.pending, q, t.now, Consult(app, q, t.world).1).xfer
  {
    assert [t][0] == t;
  }

  /** Over every run of the poll loop, with any requests, file system and clock: while a transfer is active the file is
      open and holds exactly the counted bytes, at most the announced total, and no null handle is ever closed. */
  lemma {:induction false} RunConserves(c: Clock, s: Server, app: App, turns: seq<Turn>)
    requires ValidServer(s) && ValidTurns(turns) && Conserved(s.xfer, app)
    ensures var (s1, app1) := RunWith(c, s, app, turns);
            Conserved(s1.xfer, app1) && app1.nullClosed == app.nullClosed
    decreases |turns|
  {
    if turns != [] {
      var t := turns[0];
      assert [t][0] == t;
      PollXfer(c, s, app, t);
      var q := Evaluating(s, t.arrival);
      if q.Some? {
        ServeConserves(c, s.xfer, s.sec, s.pending, q.value, t.now, app, t.world);
      }
      var (s1, app1) := PollWith(c, s, app, t);
      RunConserves(c, s1, app1, turns[1..]);
    }
  }

  /** The polls of a run that lose a handle. */
  function Losses(c: Clock, s: Server, app: App, turns: seq<Turn>): nat
    requires ValidServer(s) && ValidTurns(turns)
    decreases |turns|
  {
    if turns == [] then 0
    else
      assert [turns[0]][0] == turns[0];
      var q := Evaluating(s, turns[0].arrival);
      var (s1, app1) := PollWith(c, s, app, turns[0]);
      (if q.Some? && Loses(s.xfer, app, q.value) then 1 else 0) + Losses(c, s1, app1, turns[1..])
  }

  lemma PollBalances(c: Clock, s: Server, app: App, t: Turn)
    requires ValidServer(s) && ValidTurns([t]) && Balanced(app)
    ensures var app1, q := PollWith(c, s, app, t).1, Evaluating(s, t.arrival);
            && Balanced(app1)
            && (q.Some? ==> ValidRequest(q.value))
            && app1.handles.lost
               == app.handles.lost + if q.Some? && Loses(s.xfer, app, q.value) then 1 else 0
  {
    assert [t][0] == t;
    var q := Evaluating(s, t.arrival);
    if q.Some? {
      ServeBalances(c, s.xfer, s.sec, s.pending, q.value, t.now, app, t.world);
    }
  }

  /** Over every run: opened handles are closed, open or lost, and exactly those are lost that a request for a
      transfer finds open. */
  lemma {:induction false} RunBalances(c: Clock, s: Server, app: App, turns: seq<Turn>)
    requires ValidServer(s) && ValidTurns(turns) && Balanced(app)
    ensures var app1 := RunWith(c, s, app, turns).1;
            Balanced(app1) && app1.handles.lost == app.handles.lost + Losses(c, s, app, turns)
    decreases |turns|
  {
    if turns != [] {
      assert [turns[0]][0] == turns[0];
      PollBalances(c, s, app, turns[0]);
      var (s1, app1) := PollWith(c, s, app, turns[0]);
      RunBalances(c, s1, app1, turns[1..]);
    }
  }
}
