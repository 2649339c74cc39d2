/** ProgramSoc as the loop it is, over a connection whose fate at each attempt is given: what the retry after a timeout
    achieves, exactly. */
module ProgramSoc {
  import opened Prelude
  import opened Bytes
  import opened Uds
  import opened Upgrade
  import opened FileTransfer
  import FileTransferSafety

  /** What becomes of one attempt: the request is lost, the response is lost, or both arrive. */
  datatype Fate = RequestLost | ResponseLost | Delivered

  datatype Attempt = Attempt(fate: Fate, world: World)

  datatype Peer = Peer(xfer: Xfer, app: App)

  datatype Outcome = Completed | Aborted | StillTrying

  // ----- the loop as a function of the client's state

  function Current(source: seq<byte>, c: Client): Message {
    if c.phase.Opening? then Open
    else if c.phase.Sending? then Block(c.index, BlockOf(source, c.blockSize, c.index))
    else Exit
  }

  /** The server's reaction to a message that reaches it. */
  function Handle(source: seq<byte>, m: Message, s: Peer, w: World): Effect {
    match m
    case Open => OnOpen(|source|, ADD_FILE, 0, s.xfer, s.app, w)
    case Block(index, data) => OnBlock((index + 1) % 256, data, s.xfer, s.app, w)
    case Exit => OnExit(s.xfer, s.app)
  }

  /** Client and server after one attempt to get the client's current request answered. */
  function Try(source: seq<byte>, c: Client, s: Peer, t: Attempt): (Client, Peer) {
    if t.fate.RequestLost? then (TimedOut(c), s)
    else
      var e := Handle(source, Current(source, c), s, t.world);
      (if t.fate.ResponseLost? then TimedOut(c) else React(source, c, e.response), Peer(e.xfer, e.app))
  }

  function Attempts(source: seq<byte>, c: Client, s: Peer, script: seq<Attempt>): (Outcome, Peer)
    decreases |script|
  {
    if c.phase.Done? then (Completed, s)
    else if c.phase.Failed? then (Aborted, s)
    else if script == [] then (StillTrying, s)
    else
      var (c1, s1) := Try(source, c, s, script[0]);
      Attempts(source, c1, s1, script[1..])
  }

  /** One request: the server's new state and the response, or None for a timeout. */
  method SendRequest(source: seq<byte>, m: Message, s: Peer, t: Attempt) returns (s1: Peer, response: Option<seq<byte>>)
    ensures s1 == if t.fate.RequestLost? then s
                  else Peer(Handle(source, m, s, t.world).xfer, Handle(source, m, s, t.world).app)
    ensures response == if t.fate.Delivered? then Some(Handle(source, m, s, t.world).response) else None
  {
    if t.fate.RequestLost? {
      return s, None;
    }
    var e := Handle(source, m, s, t.world);
    return Peer(e.xfer, e.app), if t.fate.Delivered? then Some(e.response) else None;
  }

  /** The loop `while True: try: transfer_data(...)`: it ends with the index of the next block, an exception, or the
      end of the script. */
  method TransferBlock(source: seq<byte>, index: nat, blockSize: nat, s: Peer, script: seq<Attempt>)
    returns (acknowledged: bool, aborted: bool, s1: Peer, rest: seq<Attempt>)
    requires blockSize > 0 && index < BlockCount(|source|, blockSize)
    ensures |rest| <= |script| && !(acknowledged && aborted)
    ensures Attempts(source, Client(Sending, index, blockSize), s, script) ==
            if acknowledged then Attempts(source, Enter(source, index + 1, blockSize), s1, rest)
            else if aborted then (Aborted, s1)
            else (StillTrying, s1)
  {
    var data := BlockOf(source, blockSize, index);
    s1, rest := s, script;
    while rest != []
      invariant |rest| <= |script|
      invariant Attempts(source, Client(Sending, index, blockSize), s, script)
                == Attempts(source, Client(Sending, index, blockSize), s1, rest)
      decreases |rest|
    {
      var response;
      s1, response := SendRequest(source, Block(index, data), s1, rest[0]);
      rest := rest[1..];
      if response.Some? {
        var r := response.value;
        if Positive(r, SID_TRANSFER_DATA) && |r| >= 2 && r[1] == (index + 1) % 256 {
          return true, false, s1, rest;
        }
        return false, true, s1, rest;
      }
    }
    return false, false, s1, rest;
  }

  /** The loop over the blocks and request_transfer_exit. */
  method TransferFile(source: seq<byte>, blockSize: nat, server: Peer, script: seq<Attempt>)
    returns (outcome: Outcome, s: Peer)
    requires blockSize > 0
    ensures (outcome, s) == Attempts(source, Enter(source, 0, blockSize), server, script)
  {
    var blockCount := |source| / blockSize;
    if |source| % blockSize != 0 {
      blockCount := blockCount + 1;
    }
    s := server;
    var rest := script;
    for index := 0 to blockCount
      invariant Attempts(source, Enter(source, 0, blockSize), server, script)
                == Attempts(source, Enter(source, index, blockSize), s, rest)
    {
      var acknowledged, aborted;
      acknowledged, aborted, s, rest := TransferBlock(source, index, blockSize, s, rest);
      if !acknowledged {
        return if aborted then Aborted else StillTrying, s;
      }
    }
    if rest == [] {
      return StillTrying, s;
    }
    var response;
    s, response := SendRequest(source, Exit, s, rest[0]);
    if response.Some? && Positive(response.value, SID_REQUEST_TRANSFER_EXIT) {
      return Completed, s;
    }
    return Aborted, s;
  }

  /** ProgramSoc, from request_file_transfer to request_transfer_exit. */
  method ProgramSoc(source: seq<byte>, server: Peer, script: seq<Attempt>) returns (outcome: Outcome, s: Peer)
    ensures (outcome, s) == Attempts(source, Client(Opening, 0, 0), server, script)
  {
    if script == [] {
      return StillTrying, server;
    }
    var response;
    s, response := SendRequest(source, Open, server, script[0]);
    if response.None? || !Positive(response.value, SID_REQUEST_FILE_TRANSFER) || MaxLength(response.value) <= 2 {
      return Aborted, s;
    }
    outcome, s := TransferFile(source, MaxLength(response.value) - 2, s, script[1..]);
  }

  // ----- when the transfer completes

  /** From block `index` on: requests may be lost, but every block's first request that arrives is written and answered,
      and so is the final one. */
  predicate CleanFrom(source: seq<byte>, index: nat, script: seq<Attempt>)
    decreases |script|
  {
    && script != []
    && if index >= Blocks(source) then script[0].fate.Delivered?
       else match script[0].fate
         case RequestLost => CleanFrom(source, index, script[1..])
         case ResponseLost => false
         case Delivered =>
           script[0].world.writable >= |BlockOf(source, BLOCK, index)| && CleanFrom(source, index + 1, script[1..])
  }

  predicate Clean(source: seq<byte>, script: seq<Attempt>) {
    script != [] && script[0].fate.Delivered? && script[0].world.opens && CleanFrom(source, 0, script[1..])
  }

  /** The server has taken the blocks before `index`. */
  ghost predicate InStep(source: seq<byte>, s: Peer, index: nat) {
    s.xfer.active && ServerOk(source, s.xfer, s.app, index)
  }

  /** The server will never accept block `index`. */
  predicate OutOfStep(s: Peer, index: nat) {
    s.xfer.active ==> s.xfer.counter != (index + 1) % 256
  }

  /** Some attempt gets its response. */
  predicate SomeDelivered(script: seq<Attempt>) {
    exists i :: 0 <= i < |script| && script[i].fate.Delivered?
  }

  lemma DeliveredLater(script: seq<Attempt>)
    requires script != [] && !script[0].fate.Delivered?
    ensures SomeDelivered(script) <==> SomeDelivered(script[1..])
  {
    if i :| 0 <= i < |script| && script[i].fate.Delivered? {
      assert script[1..][i - 1] == script[i];
    }
  }

  /** The first response that the client gets from a server out of step ends the transfer. */
  lemma {:induction false} OutOfStepAborts(source: seq<byte>, index: nat, s: Peer, script: seq<Attempt>)
    requires OutOfStep(s, index)
    ensures Attempts(source, Client(Sending, index, BLOCK), s, script).0
            == if SomeDelivered(script) then Aborted else StillTrying
    decreases |script|
  {
    if script != [] {
      var (c1, s1) := Try(source, Client(Sending, index, BLOCK), s, script[0]);
      if !script[0].fate.Delivered? {
        DeliveredLater(script);
        OutOfStepAborts(source, index, s1, script[1..]);
      }
    }
  }

  /** A block that reaches a server in step. */
  lemma BlockArrives(source: seq<byte>, index: nat, s: Peer, w: World)
    requires InStep(source, s, index) && index < Blocks(source)
    ensures var data := BlockOf(source, BLOCK, index);
            var e := Handle(source, Block(index, data), s, w);
            if w.writable >= |data|
            then InStep(source, Peer(e.xfer, e.app), index + 1)
                 && e.response == [ResponseSid(SID_TRANSFER_DATA), (index + 1) % 256]
            else e.response == Negative(SID_TRANSFER_DATA, GENERAL_PROGRAMMING_FAILURE) && !e.xfer.active
  {
    var data := BlockOf(source, BLOCK, index);
    FileTransferSafety.ServerAccepts(source, s.xfer, s.app, index, data);
    assert data[..|data|] == data;
  }

  /** The last request reaches a server in step with all blocks. */
  lemma ExitArrives(source: seq<byte>, s: Peer)
    requires InStep(source, s, Blocks(source))
    ensures var e := Handle(source, Exit, s, World(true, 0, Answer(POSITIVE, [], 0)));
            && e.response == [ResponseSid(SID_REQUEST_TRANSFER_EXIT)]
            && e.app.file == source && !e.app.open && !e.xfer.active
  {
    FileTransferSafety.PrefixAll(source);
  }

  /** From block `index` on: the end without success. A request that is lost is repeated; once the response to a block
      is lost, the next response that arrives is a refusal; a block that is not written is refused at once; and the
      final request is not repeated. */
  predicate RefusedFrom(source: seq<byte>, index: nat, script: seq<Attempt>)
    decreases |script|
  {
    && script != []
    && if index >= Blocks(source) then !script[0].fate.Delivered?
       else match script[0].fate
         case RequestLost => RefusedFrom(source, index, script[1..])
         case ResponseLost => SomeDelivered(script[1..])
         case Delivered =>
           script[0].world.writable < |BlockOf(source, BLOCK, index)| || RefusedFrom(source, index + 1, script[1..])
  }

  predicate Refused(source: seq<byte>, active: bool, script: seq<Attempt>) {
    && script != []
    && (active || !script[0].fate.Delivered? || !script[0].world.opens || RefusedFrom(source, 0, script[1..]))
  }

  lemma {:induction false} EndsFrom(source: seq<byte>, index: nat, s: Peer, script: seq<Attempt>)
    requires InStep(source, s, index)
    ensures var (outcome, s1) := Attempts(source, Enter(source, index, BLOCK), s, script);
            && (outcome == Completed <==> CleanFrom(source, index, script))
            && (outcome == Aborted <==> RefusedFrom(source, index, script))
            && (outcome == Completed ==> s1.app.file == source && !s1.app.open && !s1.xfer.active)
    decreases |script|
  {
    var c := Enter(source, index, BLOCK);
    if script != [] {
      var (c1, s1) := Try(source, c, s, script[0]);
      if index >= Blocks(source) {
        ExitArrives(source, s);
      } else if script[0].fate.RequestLost? {
        EndsFrom(source, index, s, script[1..]);
      } else {
        BlockArrives(source, index, s, script[0].world);
        if script[0].fate.ResponseLost? {
          OutOfStepAborts(source, index, s1, script[1..]);
        } else if !c1.phase.Failed? {
          EndsFrom(source, index + 1, s1, script[1..]);
        }
      }
    }
  }

  /** The first request. */
  lemma OpeningArrives(source: seq<byte>, server: Peer, t: Attempt)
    ensures var (c1, s1) := Try(source, Client(Opening, 0, 0), server, t);
            if !server.xfer.active && t.fate.Delivered? && t.world.opens
            then c1 == Enter(source, 0, BLOCK) && InStep(source, s1, 0)
            else c1.phase.Failed?
  {
    FileTransferSafety.AnnouncementRead(ADD_FILE, 0);
    FileTransferSafety.PrefixAll(source);
  }

  lemma OpeningEnds(source: seq<byte>, server: Peer, script: seq<Attempt>)
    ensures var (outcome, s) := Attempts(source, Client(Opening, 0, 0), server, script);
            && (outcome == Completed <==> !server.xfer.active && Clean(source, script))
            && (outcome == Aborted <==> Refused(source, server.xfer.active, script))
            && (outcome == Completed ==> s.app.file == source && !s.app.open && !s.xfer.active)
  {
    if script != [] {
      OpeningArrives(source, server, script[0]);
      var (c1, s1) := Try(source, Client(Opening, 0, 0), server, script[0]);
      if !c1.phase.Failed? {
        EndsFrom(source, 0, s1, script[1..]);
      }
    }
  }

  /** For every script of losses and file system answers: ProgramSoc completes if and only if the server was idle,
      the first and the last request were answered, and every block's first request to arrive was written and
      answered; a timeout caused by a lost response is never repaired by the retry. If it completes, the file is the
      source. */
  lemma CompletesIffClean(source: seq<byte>, server: Peer, script: seq<Attempt>)
    ensures var (outcome, s) := Attempts(source, Client(Opening, 0, 0), server, script);
            && (outcome == Completed <==> !server.xfer.active && Clean(source, script))
            && (outcome == Completed ==> s.app.file == source && !s.app.open && !s.xfer.active)
  {
    OpeningEnds(source, server, script);
  }

  /** For every such script: ProgramSoc ends with an exception if and only if the server was not idle, the first request
      was not answered or the file not created, the final request was not answered, a block that arrived was not
      written, or a response arrived after the response to a block had been lost. In all other cases it completes, or
      goes on trying when the script is over. */
  lemma AbortsIffRefused(source: seq<byte>, server: Peer, script: seq<Attempt>)
    ensures Attempts(source, Client(Opening, 0, 0), server, script).0 == Aborted
            <==> Refused(source, server.xfer.active, script)
  {
    OpeningEnds(source, server, script);
  }
}
