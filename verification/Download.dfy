/** The download sequence of the C client: its request state machine and its list of callbacks, polled. */
module Download {
  import opened Prelude
  import opened Bytes
  import opened Uds
  import FileTransfer
  import opened Requests

  datatype State = Idle | Sending | AwaitSendComplete | AwaitResponse | ProcessResponse

  /** The next callback of the sequence. */
  const REQUEST_DOWNLOAD := 0
  const AWAIT_GRANT := 1
  const CHECK_RESPONSE := 2
  const PREPARE := 3
  const TRANSFER_DATA := 4
  const REQUEST_EXIT := 5
  const AWAIT_EXIT := 6
  const END := 7

  /** The request for the download and the file. */
  datatype Job = Job(request: seq<byte>, file: seq<byte>)

  /** How far the sequence is: the next callback, its data, its position in the file, and all messages it has handed to
      the transport. */
  datatype Progress = Progress(
    callback: nat, counter: byte, blockLength: nat, pos: nat, eof: bool, issued: seq<seq<byte>>)

  datatype Client = Client(state: State, failed: bool, message: seq<byte>, received: seq<byte>, at: Progress)

  /** What one poll meets: does the transport take the message, has it finished sending, is there a response, has the P2
      timer expired. */
  datatype Surroundings = Surroundings(takes: bool, sent: bool, response: Option<seq<byte>>, expired: bool)

  const START := Client(Idle, false, [], [], Progress(REQUEST_DOWNLOAD, 1, 0, 0, false, []))

  datatype Verdict = Fine | Pending | Wrong

  /** _ClientValidateResponse and _ClientHandleResponse with the default options: a negative response is no error. */
  function Validate(message: seq<byte>, r: seq<byte>): Verdict
    requires message != []
  {
    if r == [] then Wrong
    else if r[0] == 0x7F then
      if |r| < 2 || r[1] != message[0] then Wrong
      else if |r| > 2 && r[2] == RESPONSE_PENDING then Pending
      else Fine
    else if r[0] == ResponseSid(message[0]) then Fine
    else Wrong
  }

  /** PollLowLevel. */
  function PollLowLevel(d: Client, e: Surroundings): (r: Client)
    requires d.state != Idle ==> d.message != []
    ensures r.at == d.at && r.message == d.message
  {
    match d.state
    case Idle => d
    case Sending => if e.takes then d.(state := AwaitSendComplete) else d
    case AwaitSendComplete => if e.sent then d.(state := AwaitResponse) else d
    case AwaitResponse =>
      if e.response.Some? && e.response.value != [] then d.(received := e.response.value, state := ProcessResponse)
      else if e.expired then d.(failed := true, state := Idle)
      else d
    case ProcessResponse =>
      match Validate(d.message, d.received)
      case Fine => d.(state := Idle)
      case Pending => d.(received := [], state := AwaitResponse)
      case Wrong => d.(failed := true, state := Idle)
  }

  /** _SendRequest polls once to begin sending; then the sequence goes on at `next`. */
  function Send(d: Client, m: seq<byte>, e: Surroundings, next: Progress): (r: Client)
    requires m != []
    ensures r.at == next.(issued := d.at.issued + [m]) && r.message == m
  {
    PollLowLevel(d.(message := m, state := Sending), e).(at := next.(issued := d.at.issued + [m]))
  }

  /** The message with the next block of the file, and the progress once it is read: UDSSendTransferDataStream and
      `blockSequenceCounter++`. */
  function NextBlock(file: seq<byte>, p: Progress): (seq<byte>, Progress)
    requires p.pos <= |file| && p.blockLength >= 3
  {
    var wanted := p.blockLength - 2;
    var size := Min(wanted, |file| - p.pos);
    ([SID_TRANSFER_DATA, p.counter] + file[p.pos..p.pos + size],
     p.(counter := (p.counter + 1) % 256, pos := p.pos + size, eof := size < wanted))
  }

  /** The active callback of an idle client. A block length that no message can have stops the sequence. */
  function Callback(job: Job, d: Client, e: Surroundings): (r: Client)
    requires job.request != []
    ensures d.state == Idle ==> r.state != Idle ==> r.message != []
  {
    var p := d.at;
    var next := p.(callback := p.callback + 1);
    if p.callback == REQUEST_DOWNLOAD then Send(d, job.request, e, next)
    else if p.callback == AWAIT_GRANT || p.callback == AWAIT_EXIT then d.(at := next)
    else if p.callback == CHECK_RESPONSE then
      match UnpackBlockLength(d.received)
      case None => d.(failed := true)
      case Some(length) =>
        if 3 <= length <= MTU then d.(at := next.(blockLength := length)) else d.(failed := true)
    else if p.callback == PREPARE then d.(at := next.(counter := 1))
    else if p.callback == TRANSFER_DATA then
      if p.eof then d.(at := next)
      else if p.pos > |job.file| || p.blockLength < 3 then d.(failed := true)
      else
        var (m, read) := NextBlock(job.file, p);
        Send(d, m, e, read)
    else if p.callback == REQUEST_EXIT then Send(d, [SID_REQUEST_TRANSFER_EXIT], e, next)
    else d
  }

  ghost predicate Sound(job: Job, d: Client) {
    job.request != [] && (d.state != Idle ==> d.message != [])
  }

  /** UDSClientPoll. */
  function Poll(job: Job, d: Client, e: Surroundings): (r: Client)
    requires Sound(job, d)
    ensures Sound(job, r)
  {
    var d1 := PollLowLevel(d, e);
    if d1.failed || d1.state != Idle || d1.at.callback >= END then d1 else Callback(job, d1, e)
  }

  function Run(job: Job, d: Client, envs: seq<Surroundings>): (r: Client)
    requires Sound(job, d)
    ensures Sound(job, r)
    decreases |envs|
  {
    if envs == [] then d else Run(job, Poll(job, d, envs[0]), envs[1..])
  }

  // ----- the messages of a download

  function DataMessage(file: seq<byte>, blockSize: nat, j: nat): seq<byte> {
    [SID_TRANSFER_DATA, (j + 1) % 256] + FileTransfer.BlockOf(file, blockSize, j)
  }

  function DataMessages(file: seq<byte>, blockSize: nat, n: nat): (r: seq<seq<byte>>)
    ensures |r| == n
  {
    if n == 0 then [] else DataMessages(file, blockSize, n - 1) + [DataMessage(file, blockSize, n - 1)]
  }

  /** The number of data messages: one that the file does not fill ends the transfer. */
  function Count(size: nat, blockSize: nat): nat
    requires blockSize > 0
  {
    size / blockSize + 1
  }

  /** Everything the client sends for a block length L. */
  function Script(job: Job, L: nat): seq<seq<byte>>
    requires L >= 3
  {
    [job.request] + DataMessages(job.file, L - 2, Count(|job.file|, L - 2)) + [[SID_REQUEST_TRANSFER_EXIT]]
  }

  // ----- every run follows the script

  /** The file has been read up to block j. */
  ghost predicate ReadUpTo(job: Job, p: Progress, j: nat) {
    && 3 <= p.blockLength <= MTU
    && var B := p.blockLength - 2;
       && j <= Count(|job.file|, B)
       && p.counter == (j + 1) % 256 && p.pos == FileTransfer.Cut(|job.file|, B, j)
       && (p.eof <==> j == Count(|job.file|, B))
       && p.issued == [job.request] + DataMessages(job.file, B, j)
  }

  ghost predicate Follows(job: Job, p: Progress) {
    && job.request != [] && p.callback <= END
    && (p.callback == REQUEST_DOWNLOAD ==> p.issued == [] && p.pos == 0 && !p.eof)
    && (AWAIT_GRANT <= p.callback <= PREPARE ==> p.issued == [job.request] && p.pos == 0 && !p.eof)
    && (p.callback == PREPARE ==> 3 <= p.blockLength <= MTU)
    && (p.callback == TRANSFER_DATA ==> p.issued != [] && ReadUpTo(job, p, |p.issued| - 1))
    && (p.callback == REQUEST_EXIT ==>
          3 <= p.blockLength <= MTU && ReadUpTo(job, p, Count(|job.file|, p.blockLength - 2)))
    && (p.callback > REQUEST_EXIT ==> 3 <= p.blockLength <= MTU && p.issued == Script(job, p.blockLength))
  }

  /** Block j lies within the file, or touches its end, exactly while j is less than the number of messages. */
  lemma CountDecides(size: nat, B: nat, j: nat)
    requires B > 0
    ensures j * B > size <==> j >= Count(size, B)
  {
    var q := size / B;
    if j <= q {
      Multiples(j, q, B);
    } else {
      Multiples(q + 1, j, B);
      assert (q + 1) * B == q * B + B;
    }
  }

  lemma Multiples(a: nat, b: nat, m: nat)
    requires a <= b
    ensures a * m <= b * m
  {
    if a < b {
      Multiples(a, b - 1, m);
      assert b * m == (b - 1) * m + m;
    }
  }

  /** Where block j begins and ends. */
  lemma CutStep(size: nat, B: nat, j: nat)
    requires B > 0 && j < Count(size, B)
    ensures var from := FileTransfer.Cut(size, B, j);
            && from == j * B && from + Min(B, size - from) == FileTransfer.Cut(size, B, j + 1)
            && (Min(B, size - from) < B <==> j + 1 == Count(size, B))
  {
    assert (j + 1) * B == j * B + B;
    CountDecides(size, B, j);
    CountDecides(size, B, j + 1);
  }

  lemma CounterStep(j: nat)
    ensures ((j + 1) % 256 + 1) % 256 == (j + 2) % 256
  {
  }

  /** The next block is the next one of the script. */
  lemma ReadsOn(job: Job, p: Progress, j: nat)
    requires ReadUpTo(job, p, j) && !p.eof
    ensures p.pos <= |job.file|
    ensures var B, (m, read) := p.blockLength - 2, NextBlock(job.file, p);
            && m == DataMessage(job.file, B, j)
            && read.counter == (j + 2) % 256 && read.pos == FileTransfer.Cut(|job.file|, B, j + 1)
            && (read.eof <==> j + 1 == Count(|job.file|, B))
  {
    CutStep(|job.file|, p.blockLength - 2, j);
    CounterStep(j);
  }

  lemma BlockSent(job: Job, p: Progress, p1: Progress, j: nat)
    requires ReadUpTo(job, p, j) && !p.eof && p.pos <= |job.file|
    requires var (m, read) := NextBlock(job.file, p); p1 == read.(issued := p.issued + [m])
    ensures ReadUpTo(job, p1, j + 1)
  {
    ReadsOn(job, p, j);
    var B := p.blockLength - 2;
    assert DataMessages(job.file, B, j + 1) == DataMessages(job.file, B, j) + [DataMessage(job.file, B, j)];
    assert p1.issued == [job.request] + DataMessages(job.file, B, j + 1);
  }

  lemma Prepared(job: Job, p: Progress)
    requires Follows(job, p) && p.callback == PREPARE
    ensures ReadUpTo(job, p.(counter := 1), 0)
  {
  }

  lemma TransferFollows(job: Job, d: Client, e: Surroundings)
    requires Follows(job, d.at) && d.at.callback == TRANSFER_DATA
    ensures Follows(job, Callback(job, d, e).at)
  {
    var p, p1 := d.at, Callback(job, d, e).at;
    if !p.eof {
      ReadsOn(job, p, |p.issued| - 1);
      BlockSent(job, p, p1, |p.issued| - 1);
      assert |p1.issued| == |p.issued| + 1;
    }
  }

  lemma CallbackFollows(job: Job, d: Client, e: Surroundings)
    requires Follows(job, d.at) && d.at.callback < END
    ensures Follows(job, Callback(job, d, e).at)
  {
    if d.at.callback == TRANSFER_DATA {
      TransferFollows(job, d, e);
    } else if d.at.callback == PREPARE {
      Prepared(job, d.at);
    }
  }

  lemma {:induction false} RunFollows(job: Job, d: Client, envs: seq<Surroundings>)
    requires Sound(job, d) && Follows(job, d.at)
    ensures Follows(job, Run(job, d, envs).at)
    decreases |envs|
  {
    if envs != [] {
      var d1 := PollLowLevel(d, envs[0]);
      if d1.at.callback < END {
        CallbackFollows(job, d1, envs[0]);
      }
      RunFollows(job, Poll(job, d, envs[0]), envs[1..]);
    }
  }

  // ----- main results

  lemma PartOfTheScript(job: Job, p: Progress, j: nat)
    requires job.request != [] && ReadUpTo(job, p, j)
    ensures p.issued <= Script(job, p.blockLength)
  {
    MessagesGrow(job.file, p.blockLength - 2, j, Count(|job.file|, p.blockLength - 2));
  }

  lemma FollowersAreOnTheScript(job: Job, p: Progress)
    requires Follows(job, p) && p.callback >= TRANSFER_DATA
    ensures p.blockLength >= 3 && p.issued <= Script(job, p.blockLength)
  {
    if p.callback == TRANSFER_DATA {
      PartOfTheScript(job, p, |p.issued| - 1);
    } else if p.callback == REQUEST_EXIT {
      PartOfTheScript(job, p, Count(|job.file|, p.blockLength - 2));
    }
  }

  /** In every run, whatever is answered and however long everything takes: what the client has sent is a beginning
      of the script for the granted block length, and all of it when the sequence has reached its end. */
  lemma EveryRunFollowsTheScript(job: Job, envs: seq<Surroundings>)
    requires job.request != []
    ensures var p := Run(job, START, envs).at;
            && (p.callback < TRANSFER_DATA ==> p.issued <= [job.request])
            && (p.callback >= TRANSFER_DATA ==> p.blockLength >= 3 && p.issued <= Script(job, p.blockLength))
            && (p.callback == END ==> p.issued == Script(job, p.blockLength))
  {
    RunFollows(job, START, envs);
    var p := Run(job, START, envs).at;
    if p.callback >= TRANSFER_DATA {
      FollowersAreOnTheScript(job, p);
    }
  }

  lemma {:induction false} MessagesGrow(file: seq<byte>, B: nat, j: nat, n: nat)
    requires j <= n
    ensures DataMessages(file, B, j) <= DataMessages(file, B, n)
    decreases n
  {
    if j < n {
      MessagesGrow(file, B, j, n - 1);
    }
  }

  /** The bytes that data messages carry. */
  function Payload(messages: seq<seq<byte>>): seq<byte>
    requires forall i :: 0 <= i < |messages| ==> |messages[i]| >= 2
    decreases |messages|
  {
    if messages == [] then [] else Payload(messages[..|messages| - 1]) + messages[|messages| - 1][2..]
  }

  lemma {:induction false} MessageAt(file: seq<byte>, B: nat, n: nat, j: nat)
    requires j < n
    ensures DataMessages(file, B, n)[j] == DataMessage(file, B, j)
    decreases n
  {
    if j < n - 1 {
      MessageAt(file, B, n - 1, j);
    }
  }

  lemma {:induction false} PayloadIsPrefix(file: seq<byte>, B: nat, n: nat)
    requires B > 0 && n <= Count(|file|, B)
    ensures forall i :: 0 <= i < n ==> |DataMessages(file, B, n)[i]| >= 2
    ensures Payload(DataMessages(file, B, n)) == file[..FileTransfer.Cut(|file|, B, n)]
    decreases n
  {
    forall i | 0 <= i < n ensures |DataMessages(file, B, n)[i]| >= 2 {
      MessageAt(file, B, n, i);
    }
    if n > 0 {
      PayloadIsPrefix(file, B, n - 1);
      var messages := DataMessages(file, B, n);
      assert messages[..n - 1] == DataMessages(file, B, n - 1);
      CutStep(|file|, B, n - 1);
      assert messages[n - 1][2..] == FileTransfer.BlockOf(file, B, n - 1);
      SplitPrefix(file, FileTransfer.Cut(|file|, B, n - 1), FileTransfer.Cut(|file|, B, n));
    }
  }

  /** One message of the script; only the last is not full. */
  lemma MessageShape(file: seq<byte>, B: nat, j: nat)
    requires B > 0 && j < Count(|file|, B)
    ensures var m := DataMessage(file, B, j);
            && m[0] == SID_TRANSFER_DATA && m[1] == (j + 1) % 256
            && |m| == 2 + if j + 1 < Count(|file|, B) then B else |file| % B
  {
    CutStep(|file|, B, j);
    var from := FileTransfer.Cut(|file|, B, j);
    assert |FileTransfer.BlockOf(file, B, j)| == Min(B, |file| - from);
    if j + 1 == Count(|file|, B) {
      assert |file| == |file| / B * B + |file| % B;
    }
  }

  /** The data messages carry the file: there are size / (L - 2) + 1 of them, counted 1, 2, ... modulo 256, their
      payloads concatenate to the file, all but the last are full, and the last is empty exactly if L - 2 divides the
      size. */
  lemma MessagesCarryTheFile(file: seq<byte>, L: nat)
    requires 3 <= L
    ensures var n := |file| / (L - 2) + 1;
            var messages := DataMessages(file, L - 2, Count(|file|, L - 2));
            && |messages| == n
            && (forall j :: 0 <= j < n ==>
                  |messages[j]| == (if j < n - 1 then L else 2 + |file| % (L - 2))
                  && messages[j][0] == SID_TRANSFER_DATA && messages[j][1] == (j + 1) % 256)
            && Payload(messages) == file
  {
    var B := L - 2;
    var n := Count(|file|, B);
    var messages := DataMessages(file, B, n);
    forall j | 0 <= j < n
      ensures |messages[j]| == (if j < n - 1 then L else 2 + |file| % B)
              && messages[j][0] == SID_TRANSFER_DATA && messages[j][1] == (j + 1) % 256
    {
      MessageAt(file, B, n, j);
      MessageShape(file, B, j);
    }
    PayloadIsPrefix(file, B, n);
    WholeFile(|file|, B);
  }

  lemma WholeFile(size: nat, B: nat)
    requires B > 0
    ensures FileTransfer.Cut(size, B, Count(size, B)) == size
  {
    CountDecides(size, B, Count(size, B));
  }

  // ----- when a run fails

  /** A response to `message`: positive, or negative with its identifier. */
  predicate Answers(message: seq<byte>, r: seq<byte>) {
    && message != [] && r != []
    && if r[0] == 0x7F then |r| >= 2 && r[1] == message[0] else r[0] == ResponseSid(message[0])
  }

  /** The granted block length fits the transfer. */
  predicate Usable(r: seq<byte>) {
    var length := UnpackBlockLength(r);
    length.Some? && 3 <= length.value <= MTU
  }

  /** What makes a client fail: the P2 timer expires without a response; a response that is not one to the request; a
      grant that cannot be used. */
  predicate Trouble(d: Client, e: Surroundings) {
    || (d.state == AwaitResponse && e.expired && (e.response.None? || e.response.value == []))
    || (d.state == ProcessResponse && !Answers(d.message, d.received))
    || (d.state == Idle && d.at.callback == CHECK_RESPONSE && !Usable(d.received))
  }

  predicate EverTrouble(job: Job, d: Client, envs: seq<Surroundings>)
    requires Sound(job, d)
    decreases |envs|
  {
    envs != [] && (Trouble(d, envs[0]) || EverTrouble(job, Poll(job, d, envs[0]), envs[1..]))
  }

  /** The sequence is where the state machine expects it. */
  ghost predicate InOrder(job: Job, d: Client) {
    && Sound(job, d) && Follows(job, d.at) && (d.failed ==> d.state == Idle)
    && (d.state != Idle ==> d.at.callback != CHECK_RESPONSE)
    && (d.at.callback == CHECK_RESPONSE || d.at.callback == REQUEST_DOWNLOAD || d.at.callback == PREPARE ==>
          d.state == Idle)
  }

  lemma LowLevelInOrder(job: Job, d: Client, e: Surroundings)
    requires InOrder(job, d) && !d.failed
    ensures var d1 := PollLowLevel(d, e);
            && (d1.failed <==> d.state != Idle && Trouble(d, e)) && (d1.failed ==> d1.state == Idle)
            && (d.state == Idle ==> d1 == d)
            && (d1.state != Idle ==> d.state != Idle)
  {
  }

  lemma CallbackInOrder(job: Job, d: Client, e: Surroundings)
    requires job.request != [] && Follows(job, d.at) && d.at.callback < END && d.state == Idle && !d.failed
    ensures var d1 := Callback(job, d, e);
            && (d1.failed <==> d.at.callback == CHECK_RESPONSE && !Usable(d.received))
            && (d1.failed ==> d1.state == Idle)
            && (d1.state != Idle ==> d1.message != [] && d1.at.callback !in {CHECK_RESPONSE, REQUEST_DOWNLOAD, PREPARE})
  {
    if d.at.callback == TRANSFER_DATA && !d.at.eof {
      ReadsOn(job, d.at, |d.at.issued| - 1);
    }
  }

  lemma PollInOrder(job: Job, d: Client, e: Surroundings)
    requires InOrder(job, d) && !d.failed
    ensures InOrder(job, Poll(job, d, e)) && (Poll(job, d, e).failed <==> Trouble(d, e))
  {
    var d1 := PollLowLevel(d, e);
    LowLevelInOrder(job, d, e);
    if !d1.failed && d1.state == Idle && d1.at.callback < END {
      CallbackInOrder(job, d1, e);
      CallbackFollows(job, d1, e);
    }
  }

  lemma {:induction false} FailedIsFinal(job: Job, d: Client, envs: seq<Surroundings>)
    requires Sound(job, d) && d.failed && d.state == Idle
    ensures Run(job, d, envs) == d
    decreases |envs|
  {
    if envs != [] {
      FailedIsFinal(job, d, envs[1..]);
    }
  }

  lemma {:induction false} RunFails(job: Job, d: Client, envs: seq<Surroundings>)
    requires InOrder(job, d) && !d.failed
    ensures Run(job, d, envs).failed <==> EverTrouble(job, d, envs)
    decreases |envs|
  {
    if envs != [] {
      var d1 := Poll(job, d, envs[0]);
      PollInOrder(job, d, envs[0]);
      if d1.failed {
        FailedIsFinal(job, d1, envs[1..]);
      } else {
        RunFails(job, d1, envs[1..]);
      }
    }
  }

  /** In every run the download fails if and only if it meets a timeout, a response that is not one to its request or an
      unusable grant; and then no message is issued any more, whatever is polled. */
  lemma FailsIffTrouble(job: Job, envs: seq<Surroundings>, more: seq<Surroundings>)
    requires job.request != []
    ensures Run(job, START, envs).failed <==> EverTrouble(job, START, envs)
    ensures Run(job, START, envs).failed ==> Run(job, Run(job, START, envs), more) == Run(job, START, envs)
  {
    RunFails(job, START, envs);
    RunInOrder(job, START, envs);
    if Run(job, START, envs).failed {
      FailedIsFinal(job, Run(job, START, envs), more);
    }
  }

  lemma {:induction false} RunInOrder(job: Job, d: Client, envs: seq<Surroundings>)
    requires InOrder(job, d)
    ensures InOrder(job, Run(job, d, envs))
    decreases |envs|
  {
    if d.failed {
      FailedIsFinal(job, d, envs);
    } else if envs != [] {
      PollInOrder(job, d, envs[0]);
      RunInOrder(job, Poll(job, d, envs[0]), envs[1..]);
    }
  }

  // ----- one message at a time

  /** The client processes a response to its message that is not "pending". */
  predicate TakesFinal(d: Client) {
    && d.state == ProcessResponse && Answers(d.message, d.received)
    && !(|d.received| > 2 && d.received[0] == 0x7F && d.received[2] == 0x78)
  }

  function Finals(job: Job, d: Client, envs: seq<Surroundings>): nat
    requires Sound(job, d)
    decreases |envs|
  {
    if envs == [] then 0 else (if TakesFinal(d) then 1 else 0) + Finals(job, Poll(job, d, envs[0]), envs[1..])
  }

  /** Messages under way: one unless the client is idle. */
  function UnderWay(d: Client): nat {
    if d.state == Idle then 0 else 1
  }

  lemma LowLevelCounts(job: Job, d: Client, e: Surroundings)
    requires InOrder(job, d) && !d.failed
    ensures var d1 := PollLowLevel(d, e);
            !d1.failed ==> UnderWay(d1) + (if TakesFinal(d) then 1 else 0) == UnderWay(d) && d1.at == d.at
    ensures TakesFinal(d) ==> !PollLowLevel(d, e).failed
  {
  }

  lemma CallbackCounts(job: Job, d: Client, e: Surroundings)
    requires job.request != [] && Follows(job, d.at) && d.at.callback < END && d.state == Idle && !d.failed
    ensures var d1 := Callback(job, d, e); |d1.at.issued| == |d.at.issued| + UnderWay(d1)
  {
    if d.at.callback == TRANSFER_DATA && !d.at.eof {
      ReadsOn(job, d.at, |d.at.issued| - 1);
    }
  }

  lemma PollCounts(job: Job, d: Client, e: Surroundings)
    requires InOrder(job, d) && !d.failed
    ensures var d1 := Poll(job, d, e);
            !d1.failed ==> |d1.at.issued| + UnderWay(d) == |d.at.issued| + UnderWay(d1) + if TakesFinal(d) then 1 else 0
    ensures Poll(job, d, e).failed ==> Poll(job, d, e).at.issued == d.at.issued && !TakesFinal(d)
  {
    var d1 := PollLowLevel(d, e);
    LowLevelInOrder(job, d, e);
    LowLevelCounts(job, d, e);
    if !d1.failed && d1.state == Idle && d1.at.callback < END {
      CallbackInOrder(job, d1, e);
      CallbackCounts(job, d1, e);
    }
  }

  lemma {:induction false} RunCounts(job: Job, d: Client, envs: seq<Surroundings>)
    requires InOrder(job, d) && !d.failed
    ensures var d1, n := Run(job, d, envs), Finals(job, d, envs);
            && (!d1.failed ==> |d1.at.issued| + UnderWay(d) == |d.at.issued| + n + UnderWay(d1))
            && |d1.at.issued| + UnderWay(d) <= |d.at.issued| + n + 1
    decreases |envs|
  {
    if envs != [] {
      var d1 := Poll(job, d, envs[0]);
      PollInOrder(job, d, envs[0]);
      PollCounts(job, d, envs[0]);
      if d1.failed {
        FailedIsFinal(job, d1, envs[1..]);
        FailedTakesNothing(job, d1, envs[1..]);
      } else {
        RunCounts(job, d1, envs[1..]);
      }
    }
  }

  lemma {:induction false} FailedTakesNothing(job: Job, d: Client, envs: seq<Surroundings>)
    requires Sound(job, d) && d.failed && d.state == Idle
    ensures Finals(job, d, envs) == 0
    decreases |envs|
  {
    if envs != [] {
      FailedTakesNothing(job, d, envs[1..]);
    }
  }

  /** In every run: the client has issued as many messages as it has taken final responses, and one more while it waits;
      a response-pending message is no answer. */
  lemma OneMessageAtATime(job: Job, envs: seq<Surroundings>)
    requires job.request != []
    ensures var d, n := Run(job, START, envs), Finals(job, START, envs);
            && |d.at.issued| <= n + 1
            && (!d.failed ==> |d.at.issued| == n + if d.state == Idle then 0 else 1)
  {
    RunCounts(job, START, envs);
  }
}
