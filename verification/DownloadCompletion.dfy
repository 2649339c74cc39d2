/** The download sequence reaches its end if transport and server work, however slowly. */
module DownloadCompletion {
  import opened Prelude
  import opened Bytes
  import opened Uds
  import opened Requests
  import opened Download

  // ----- the sequence reaches its end

  /** What a poll meets when transport and server work, with any delay: no timer expires, and a response that arrives
      is one that the client accepts, possibly a pending one; the server grants block length L. */
  ghost predicate Helpful(L: nat, d: Client, e: Surroundings) {
    && !e.expired
    && (d.state == AwaitResponse && e.response.Some? && e.response.value != [] ==>
          d.message != [] && Acceptable(L, d, e.response.value))
  }

  ghost predicate Acceptable(L: nat, d: Client, r: seq<byte>)
    requires d.message != []
  {
    && Validate(d.message, r) != Wrong
    && (Validate(d.message, r) == Fine && d.at.callback == AWAIT_GRANT ==> UnpackBlockLength(r) == Some(L))
  }

  /** Nothing is delayed. */
  predicate Prompt(d: Client, e: Surroundings) {
    e.takes && e.sent && (d.state == AwaitResponse ==> e.response.Some? && e.response.value != [])
  }

  /** Nothing has gone wrong so far. */
  ghost predicate Smooth(job: Job, L: nat, d: Client) {
    && Sound(job, d) && Follows(job, d.at) && !d.failed
    && (d.state == ProcessResponse ==> Acceptable(L, d, d.received))
    && ((d.at.callback == AWAIT_GRANT && d.state == Idle) || d.at.callback == CHECK_RESPONSE ==>
          UnpackBlockLength(d.received) == Some(L))
    && (d.at.callback >= PREPARE ==> d.at.blockLength == L)
    && (d.at.callback in {REQUEST_DOWNLOAD, CHECK_RESPONSE, PREPARE, REQUEST_EXIT, END} ==> d.state == Idle)
  }

  /** The messages still to be sent. */
  function Remaining(job: Job, L: nat, p: Progress): int
    requires L >= 3
  {
    var n := Count(|job.file|, L - 2);
    if p.callback == REQUEST_DOWNLOAD then n + 2
    else if p.callback <= PREPARE then n + 1
    else if p.callback == TRANSFER_DATA then n + 2 - |p.issued|
    else if p.callback == REQUEST_EXIT then 1
    else 0
  }

  function Stage(s: State): nat {
    match s
    case Idle => 0
    case ProcessResponse => 1
    case AwaitResponse => 2
    case AwaitSendComplete => 3
    case Sending => 4
  }

  function Measure(job: Job, L: nat, d: Client): int
    requires L >= 3
  {
    10 * Remaining(job, L, d.at) + Stage(d.state) + (END - d.at.callback)
  }

  lemma RemainingIsNatural(job: Job, L: nat, d: Client)
    requires 3 <= L <= MTU && Smooth(job, L, d)
    ensures Remaining(job, L, d.at) >= 0
    ensures Measure(job, L, d) <= 0 ==> d.at.callback == END && d.state == Idle
  {
  }

  /** The poll finds a pending response. */
  predicate FindsPending(d: Client) {
    d.state == ProcessResponse && d.message != [] && Validate(d.message, d.received) == Pending
  }

  lemma LowLevelSmooth(job: Job, L: nat, d: Client, e: Surroundings)
    requires 3 <= L <= MTU && Smooth(job, L, d) && Helpful(L, d, e)
    ensures var d1 := PollLowLevel(d, e);
            && Smooth(job, L, d1)
            && (d1 == d || Stage(d1.state) < Stage(d.state) + if FindsPending(d) then 2 else 0)
            && (d.state == Idle ==> d1 == d)
  {
  }

  lemma PromptMoves(job: Job, L: nat, d: Client, e: Surroundings)
    requires Smooth(job, L, d) && Prompt(d, e) && d.state != Idle
    ensures PollLowLevel(d, e).state != d.state
  {
  }

  lemma CallbackSends(job: Job, L: nat, d: Client, e: Surroundings)
    requires 3 <= L <= MTU && Smooth(job, L, d) && d.state == Idle
    requires d.at.callback == REQUEST_DOWNLOAD || d.at.callback == REQUEST_EXIT
             || (d.at.callback == TRANSFER_DATA && !d.at.eof)
    ensures var r := Callback(job, d, e);
            && (r.state == AwaitSendComplete || r.state == Sending) && !r.failed && |r.at.issued| == |d.at.issued| + 1
            && r.at.blockLength == d.at.blockLength
            && r.at.callback == if d.at.callback == TRANSFER_DATA then TRANSFER_DATA else d.at.callback + 1
  {
    if d.at.callback == TRANSFER_DATA {
      ReadsOn(job, d.at, |d.at.issued| - 1);
    }
  }

  lemma CallbackSmooth(job: Job, L: nat, d: Client, e: Surroundings)
    requires 3 <= L <= MTU && Smooth(job, L, d) && d.state == Idle && d.at.callback < END
    ensures var r := Callback(job, d, e); Smooth(job, L, r) && Measure(job, L, r) < Measure(job, L, d)
  {
    CallbackFollows(job, d, e);
    if d.at.callback == REQUEST_DOWNLOAD || d.at.callback == REQUEST_EXIT
       || (d.at.callback == TRANSFER_DATA && !d.at.eof) {
      CallbackSends(job, L, d, e);
    }
  }

  /** A poll changes nothing, or brings the end nearer, but for the delay of a pending response. */
  lemma PollSmooth(job: Job, L: nat, d: Client, e: Surroundings)
    requires 3 <= L <= MTU && Smooth(job, L, d) && Helpful(L, d, e)
    ensures Smooth(job, L, Download.Poll(job, d, e))
    ensures Download.Poll(job, d, e) == d
            || Measure(job, L, Download.Poll(job, d, e)) + 1 <= Measure(job, L, d) + if FindsPending(d) then 2 else 0
    ensures Prompt(d, e) && Download.Poll(job, d, e) == d ==> d.at.callback == END && d.state == Idle
  {
    LowLevelSmooth(job, L, d, e);
    var d1 := PollLowLevel(d, e);
    if Prompt(d, e) && d.state != Idle {
      PromptMoves(job, L, d, e);
    }
    if d1.state == Idle && d1.at.callback < END {
      CallbackSmooth(job, L, d1, e);
    }
  }

  ghost predicate AllHelpful(job: Job, L: nat, d: Client, envs: seq<Surroundings>)
    requires Sound(job, d)
    decreases |envs|
  {
    envs != [] ==> Helpful(L, d, envs[0]) && AllHelpful(job, L, Download.Poll(job, d, envs[0]), envs[1..])
  }

  predicate AllPrompt(job: Job, d: Client, envs: seq<Surroundings>)
    requires Sound(job, d)
    decreases |envs|
  {
    envs != [] ==> Prompt(d, envs[0]) && AllPrompt(job, Download.Poll(job, d, envs[0]), envs[1..])
  }

  /** The polls of a run that change anything, and those that find a pending response. */
  function Changes(job: Job, d: Client, envs: seq<Surroundings>): nat
    requires Sound(job, d)
    decreases |envs|
  {
    if envs == [] then 0
    else
      var d1 := Download.Poll(job, d, envs[0]);
      (if d1 == d then 0 else 1) + Changes(job, d1, envs[1..])
  }

  function Pendings(job: Job, d: Client, envs: seq<Surroundings>): nat
    requires Sound(job, d)
    decreases |envs|
  {
    if envs == [] then 0
    else (if FindsPending(d) then 1 else 0) + Pendings(job, Download.Poll(job, d, envs[0]), envs[1..])
  }

  lemma {:induction false} ChangesBound(job: Job, L: nat, d: Client, envs: seq<Surroundings>)
    requires 3 <= L <= MTU && Smooth(job, L, d) && AllHelpful(job, L, d, envs)
    ensures var r := Download.Run(job, d, envs);
            && Smooth(job, L, r)
            && Measure(job, L, r) + Changes(job, d, envs) <= Measure(job, L, d) + 2 * Pendings(job, d, envs)
    decreases |envs|
  {
    if envs != [] {
      PollSmooth(job, L, d, envs[0]);
      ChangesBound(job, L, Download.Poll(job, d, envs[0]), envs[1..]);
    }
  }

  /** While the end has not been reached, every prompt poll changes something. */
  lemma {:induction false} PromptChanges(job: Job, L: nat, d: Client, envs: seq<Surroundings>)
    requires 3 <= L <= MTU && Smooth(job, L, d) && AllHelpful(job, L, d, envs) && AllPrompt(job, d, envs)
    ensures var r := Download.Run(job, d, envs);
            (r.at.callback == END && r.state == Idle) || Changes(job, d, envs) == |envs|
    decreases |envs|
  {
    if envs != [] {
      PollSmooth(job, L, d, envs[0]);
      var d1 := Download.Poll(job, d, envs[0]);
      PromptChanges(job, L, d1, envs[1..]);
      if d1 == d {
        EndStays(job, d, envs[1..]);
      }
    }
  }

  lemma {:induction false} EndStays(job: Job, d: Client, envs: seq<Surroundings>)
    requires Sound(job, d) && d.at.callback == END && d.state == Idle
    ensures Download.Run(job, d, envs) == d
    decreases |envs|
  {
    if envs != [] {
      EndStays(job, d, envs[1..]);
    }
  }

  /** With a server that grants L and answers, however late and with any number p of pending responses: the polls that
      change anything are at most ten a message, seven, and two a pending response; and when that many prompt polls have
      been made, the sequence has ended and the script has been sent. */
  lemma DownloadEnds(job: Job, L: nat, envs: seq<Surroundings>)
    requires 3 <= L <= MTU && job.request != [] && AllHelpful(job, L, START, envs)
    ensures var r, p := Download.Run(job, START, envs), Pendings(job, START, envs);
            var bound := 10 * (Count(|job.file|, L - 2) + 2) + END + 2 * p;
            && Changes(job, START, envs) <= bound && !r.failed
            && (AllPrompt(job, START, envs) && |envs| >= bound ==>
                  r.at.callback == END && r.state == Idle && r.at.issued == Script(job, L))
  {
    ChangesBound(job, L, START, envs);
    var r := Download.Run(job, START, envs);
    RemainingIsNatural(job, L, r);
    if AllPrompt(job, START, envs) {
      PromptChanges(job, L, START, envs);
    }
  }
}
