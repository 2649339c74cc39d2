/** The UDSClient_t object with the download sequence: polls update its fields in place. */
module DownloadClients {
  import opened Bytes
  import opened Uds
  import opened Requests
  import opened Download

  class DownloadClient {
    const job: Job
    var state: State
    var failed: bool
    var sendBuf: seq<byte>
    var recvBuf: seq<byte>
    var cbIdx: nat
    var blockSequenceCounter: byte
    var blockLength: nat
    var filePos: nat
    var endOfFile: bool
    /** All messages handed to the transport. */
    ghost var issued: seq<seq<byte>>

    ghost function View(): Client
      reads this
    {
      Client(state, failed, sendBuf, recvBuf, At())
    }

    ghost function At(): Progress
      reads this
    {
      Progress(cbIdx, blockSequenceCounter, blockLength, filePos, endOfFile, issued)
    }

    ghost predicate Valid()
      reads this
    {
      Sound(job, View())
    }

    /** UDSClientInit and UDSConfigDownload. */
    constructor (job: Job)
      requires job.request != []
      ensures Valid() && View() == START && this.job == job
    {
      this.job := job;
      state, failed, sendBuf, recvBuf := Idle, false, [], [];
      cbIdx, blockSequenceCounter, blockLength, filePos, endOfFile := REQUEST_DOWNLOAD, 1, 0, 0, false;
      issued := [];
    }

    /** PollLowLevel. */
    method PollLowLevel(e: Surroundings)
      requires Valid()
      modifies this`state, this`failed, this`recvBuf
      ensures Valid() && View() == Download.PollLowLevel(old(View()), e)
    {
      match state {
        case Idle =>
        case Sending =>
          if e.takes {
            state := AwaitSendComplete;
          }
        case AwaitSendComplete =>
          if e.sent {
            state := AwaitResponse;
          }
        case AwaitResponse =>
          if e.response.Some? && e.response.value != [] {
            recvBuf := e.response.value;
            state := ProcessResponse;
          } else if e.expired {
            failed := true;
            state := Idle;
          }
        case ProcessResponse =>
          HandleResponse();
      }
    }

    method HandleResponse()
      requires Valid() && state == ProcessResponse
      modifies this`state, this`failed, this`recvBuf
      ensures Valid()
      ensures View() == match Validate(old(sendBuf), old(recvBuf))
                        case Fine => old(View()).(state := Idle)
                        case Pending => old(View()).(received := [], state := AwaitResponse)
                        case Wrong => old(View()).(failed := true, state := Idle)
    {
      var r := recvBuf;
      if r == [] {
        failed := true;
      } else if r[0] == 0x7F {
        if |r| < 2 || r[1] != sendBuf[0] {
          failed := true;
        } else if |r| > 2 && r[2] == RESPONSE_PENDING {
          recvBuf := [];
          state := AwaitResponse;
          return;
        }
      } else if r[0] != ResponseSid(sendBuf[0]) {
        failed := true;
      }
      state := Idle;
    }

    /** _SendRequest. */
    method SendRequest(m: seq<byte>, e: Surroundings)
      requires Valid() && m != []
      modifies this`state, this`failed, this`sendBuf, this`recvBuf, this`issued
      ensures Valid() && View() == Send(old(View()), m, e, old(At()))
    {
      sendBuf := m;
      state := Sending;
      issued := issued + [m];
      PollLowLevel(e);
    }

    /** UDSSendTransferDataStream: the next block of the file. */
    method SendNextBlock(e: Surroundings)
      requires Valid() && filePos <= |job.file| && blockLength >= 3
      modifies this`state, this`failed, this`sendBuf, this`recvBuf, this`issued, this`blockSequenceCounter,
               this`filePos, this`endOfFile
      ensures Valid()
      ensures View() == var (m, read) := NextBlock(job.file, old(At())); Send(old(View()), m, e, read)
    {
      var wanted := blockLength - 2;
      var size := Min(wanted, |job.file| - filePos);
      var m := [SID_TRANSFER_DATA, blockSequenceCounter] + job.file[filePos..filePos + size];
      blockSequenceCounter := (blockSequenceCounter + 1) % 256;
      filePos := filePos + size;
      endOfFile := size < wanted;
      SendRequest(m, e);
    }

    /** checkRequestDownloadResponse. */
    method CheckResponse()
      requires Valid() && cbIdx == CHECK_RESPONSE
      modifies this`failed, this`blockLength, this`cbIdx
      ensures Valid() && forall e :: View() == Callback(job, old(View()), e)
    {
      var length := UnpackBlockLength(recvBuf);
      if length.Some? && 3 <= length.value <= MTU {
        blockLength := length.value;
        cbIdx := cbIdx + 1;
      } else {
        failed := true;
      }
    }

    /** The active callback. */
    method ActiveCallback(e: Surroundings)
      requires Valid()
      modifies this
      ensures Valid() && View() == Callback(job, old(View()), e)
    {
      if cbIdx == REQUEST_DOWNLOAD {
        SendRequest(job.request, e);
        cbIdx := cbIdx + 1;
      } else if cbIdx == AWAIT_GRANT || cbIdx == AWAIT_EXIT {
        cbIdx := cbIdx + 1;
      } else if cbIdx == CHECK_RESPONSE {
        CheckResponse();
      } else if cbIdx == PREPARE {
        blockSequenceCounter := 1;
        cbIdx := cbIdx + 1;
      } else if cbIdx == TRANSFER_DATA {
        if endOfFile {
          cbIdx := cbIdx + 1;
        } else if filePos > |job.file| || blockLength < 3 {
          failed := true;
        } else {
          SendNextBlock(e);
        }
      } else if cbIdx == REQUEST_EXIT {
        SendRequest([SID_REQUEST_TRANSFER_EXIT], e);
        cbIdx := cbIdx + 1;
      }
    }

    /** UDSClientPoll. */
    method Poll(e: Surroundings)
      requires Valid()
      modifies this
      ensures Valid() && View() == Download.Poll(job, old(View()), e)
    {
      PollLowLevel(e);
      if !failed && state == Idle && cbIdx < END {
        ActiveCallback(e);
      }
    }
  }
}
