/** ReadDataByIdentifier (0x22) from end to end: the client's request for several records, the server's walk over it,
    and the client's walk over the response. */
module ReadData {
  import opened Prelude
  import opened Bytes
  import Clock
  import opened Uds
  import opened UdsAnswering
  import opened UdsServices
  import UdsPromptness
  import opened FileTransfer
  import opened Requests

  const SID_READ_DATA: byte := 0x22

  type u16 = x: int | 0 <= x < 0x1_0000

  // ----- the request

  function Ids(dids: seq<u16>): (r: seq<byte>)
    ensures |r| == 2 * |dids|
  {
    if dids == [] then [] else Ids(dids[..|dids| - 1]) + Bytes16(dids[|dids| - 1])
  }

  function RequestMessage(dids: seq<u16>): seq<byte> {
    [SID_READ_DATA] + Ids(dids)
  }

  lemma {:induction false} IdAt(dids: seq<u16>, i: nat)
    requires i < |dids|
    ensures Ids(dids)[2 * i] == dids[i] / 256 && Ids(dids)[2 * i + 1] == dids[i] % 256
    decreases |dids|
  {
    if i < |dids| - 1 {
      IdAt(dids[..|dids| - 1], i);
    }
  }

  /** UDSSendRDBI, for a send buffer of MTU bytes. */
  method SendRDBI(dids: seq<u16>) returns (m: Option<seq<byte>>)
    ensures m == if 1 + 2 * |dids| <= MTU then Some(RequestMessage(dids)) else None
  {
    var buf := [SID_READ_DATA];
    for i := 0 to |dids|
      invariant buf == RequestMessage(dids[..i]) && 1 + 2 * i <= MTU
    {
      var offset := 1 + 2 * i;
      if offset + 2 > MTU {
        return None;
      }
      buf := buf + [dids[i] / 256, dids[i] % 256];
      assert dids[..i + 1][..i] == dids[..i];
    }
    assert dids[..|dids|] == dids;
    return Some(buf);
  }

  /** The server finds the identifiers of the client. */
  ghost predicate Holds(q: Request, dids: seq<u16>) {
    forall k :: 0 <= k < |dids| ==> IdOf(q, k) == dids[k]
  }

  /** The request asks for these identifiers, and for no others. */
  ghost predicate Asks(q: Request, dids: seq<u16>) {
    ReadRequest(q) && q.len == 1 + 2 * |dids| && Holds(q, dids)
  }

  ghost predicate ReadRequest(q: Request) {
    ValidRequest(q) && q.buf[0] == SID_READ_DATA
  }

  /** The server reads the client's message so. */
  lemma RequestAsks(q: Request, dids: seq<u16>)
    requires Carries(q, RequestMessage(dids))
    ensures Asks(q, dids)
  {
    ByteShows(q, RequestMessage(dids), 0);
    forall k | 0 <= k < |dids| ensures IdOf(q, k) == dids[k] {
      IdAt(dids, k);
      ByteShows(q, RequestMessage(dids), 1 + 2 * k);
      ByteShows(q, RequestMessage(dids), 2 + 2 * k);
    }
  }

  // ----- the full answer

  /** The identifiers from the i-th on, each followed by its record. */
  function Records(dids: seq<u16>, readings: seq<Reading>, i: nat): seq<byte>
    requires i <= |dids| <= |readings|
    decreases |dids| - i
  {
    if i == |dids| then [] else Bytes16(dids[i]) + readings[i].data + Records(dids, readings, i + 1)
  }

  function Full(dids: seq<u16>, readings: seq<Reading>): seq<byte>
    requires |dids| <= |readings|
  {
    [ResponseSid(SID_READ_DATA)] + Records(dids, readings, 0)
  }

  /** From a response of n bytes on, every identifier passes the check for three more bytes and every record fits. */
  predicate Fits(n: nat, count: nat, readings: seq<Reading>, i: nat)
    requires i <= count <= |readings|
    decreases count - i
  {
    i == count
    || (n + 3 <= MTU && n + 2 + |readings[i].data| <= MTU && Fits(n + 2 + |readings[i].data|, count, readings, i + 1))
  }

  /** The space that the last record needs for its identifier to pass the check for three bytes. */
  function Reserve(count: nat, readings: seq<Reading>): nat
    requires count <= |readings|
  {
    if count > 0 && readings[count - 1].data == [] then 1 else 0
  }

  /** Everything fits if and only if the whole answer does, with one byte to spare if it ends with an empty record. */
  lemma {:induction false} FitsIff(n: nat, dids: seq<u16>, readings: seq<Reading>, i: nat)
    requires i <= |dids| <= |readings| && n <= MTU
    ensures Fits(n, |dids|, readings, i) <==>
            i == |dids| || n + |Records(dids, readings, i)| + Reserve(|dids|, readings) <= MTU
    decreases |dids| - i
  {
    if i < |dids| {
      var next := n + 2 + |readings[i].data|;
      FirstRecord(dids, readings, i);
      if next <= MTU {
        FitsIff(next, dids, readings, i + 1);
      }
    }
  }

  lemma FirstRecord(dids: seq<u16>, readings: seq<Reading>, i: nat)
    requires i < |dids| <= |readings|
    ensures |Records(dids, readings, i)| == 2 + |readings[i].data| + |Records(dids, readings, i + 1)|
  {
  }

  // ----- the server's walk

  lemma WalkBound(q: Request, i: nat, n: nat, readings: seq<Reading>, response: seq<byte>)
    requires ValidRequest(q) && q.buf[0] == SID_READ_DATA && i <= n
    requires 1 <= |response| <= MTU && response[0] == ResponseSid(SID_READ_DATA)
    ensures |ReadWalk(q, i, n, readings, response).response| <= MTU
  {
    ReadShape(q, i, n, readings, response);
  }

  /** The user function reports success only with what the copy function says: it is careful. */
  ghost predicate Careful(count: nat, readings: seq<Reading>) {
    && count <= |readings|
    && forall i :: 0 <= i < count ==> readings[i].Unchecked? ==> readings[i].code != POSITIVE
  }

  ghost predicate NoneRefused(count: nat, readings: seq<Reading>, from: nat)
    requires count <= |readings|
  {
    forall i :: from <= i < count ==> readings[i].Checked?
  }

  /** A record that fits goes behind its identifier. */
  lemma WalkOn(q: Request, dids: seq<u16>, readings: seq<Reading>, i: nat, response: seq<byte>)
    requires ReadRequest(q) && Holds(q, dids) && i < |dids| <= |readings| && |response| + 3 <= MTU
    requires |response| + 2 + |readings[i].data| <= MTU
    requires readings[i].Unchecked? ==> readings[i].code == POSITIVE
    ensures var next := response + Bytes16(dids[i]) + readings[i].data;
            && ReadWalk(q, i, |dids|, readings, response) == ReadWalk(q, i + 1, |dids|, readings, next)
            && response + Records(dids, readings, i) == next + Records(dids, readings, i + 1)
  {
  }

  /** An identifier that is refused or whose record does not fit ends the walk of a careful user function. */
  lemma WalkEnds(q: Request, dids: seq<u16>, readings: seq<Reading>, i: nat, response: seq<byte>)
    requires ReadRequest(q) && Careful(|dids|, readings) && i < |dids|
    requires |response| + 3 > MTU || readings[i].Unchecked? || |response| + 2 + |readings[i].data| > MTU
    ensures var r := ReadWalk(q, i, |dids|, readings, response);
            && r.code != POSITIVE && r.response == Negative(SID_READ_DATA, r.code)
            && (readings[i].Checked? ==> r.code == RESPONSE_TOO_LONG)
  {
  }

  /** The conditions for a full answer, one identifier further. */
  lemma FullFurther(n: nat, count: nat, readings: seq<Reading>, i: nat)
    requires i < count <= |readings| && readings[i].Checked?
    requires n + 3 <= MTU && n + 2 + |readings[i].data| <= MTU
    ensures NoneRefused(count, readings, i) <==> NoneRefused(count, readings, i + 1)
    ensures Fits(n, count, readings, i) <==> Fits(n + 2 + |readings[i].data|, count, readings, i + 1)
  {
  }

  /** What a careful user function leads to, the answer being full if all goes well. */
  ghost predicate FullOrDenied(r: Reply, full: seq<byte>, served: bool, fits: bool) {
    if served && fits then r == Reply(POSITIVE, full, true)
    else && r.code != POSITIVE && r.response == Negative(SID_READ_DATA, r.code)
         && (served ==> r.code == RESPONSE_TOO_LONG)
  }

  lemma WalkDenied(q: Request, dids: seq<u16>, readings: seq<Reading>, i: nat, response: seq<byte>)
    requires ReadRequest(q) && Careful(|dids|, readings) && i < |dids| && |response| <= MTU
    requires |response| + 3 > MTU || readings[i].Unchecked? || |response| + 2 + |readings[i].data| > MTU
    ensures FullOrDenied(ReadWalk(q, i, |dids|, readings, response), response + Records(dids, readings, i),
                         NoneRefused(|dids|, readings, i), Fits(|response|, |dids|, readings, i))
  {
    WalkEnds(q, dids, readings, i, response);
  }

  /** A careful user function: the full answer if no identifier is refused and everything fits, otherwise a denial. */
  lemma {:induction false} CarefulWalk(q: Request, dids: seq<u16>, readings: seq<Reading>, i: nat, response: seq<byte>)
    requires ReadRequest(q) && Holds(q, dids) && Careful(|dids|, readings) && i <= |dids| && |response| <= MTU
    ensures FullOrDenied(ReadWalk(q, i, |dids|, readings, response), response + Records(dids, readings, i),
                         NoneRefused(|dids|, readings, i), Fits(|response|, |dids|, readings, i))
    decreases |dids| - i
  {
    if i == |dids| {
      assert response + Records(dids, readings, i) == response;
    } else if |response| + 3 > MTU || readings[i].Unchecked? || |response| + 2 + |readings[i].data| > MTU {
      WalkDenied(q, dids, readings, i, response);
    } else {
      WalkOn(q, dids, readings, i, response);
      CarefulWalk(q, dids, readings, i + 1, response + Bytes16(dids[i]) + readings[i].data);
      FullFurther(|response|, |dids|, readings, i);
    }
  }

  /** The user function reports success whatever the copy function says. */
  ghost predicate Careless(count: nat, readings: seq<Reading>) {
    count <= |readings| && forall i :: 0 <= i < count ==> readings[i].Unchecked? && readings[i].code == POSITIVE
  }

  /** The length of an answer that takes every record that fits and skips the others, or None if an identifier does not
      pass the check for three more bytes. */
  function Packed(n: nat, count: nat, readings: seq<Reading>, i: nat): Option<nat>
    requires i <= count <= |readings|
    decreases count - i
  {
    if i == count then Some(n)
    else if n + 3 > MTU then None
    else
      var size := |readings[i].data|;
      Packed(if n + 2 + size <= MTU then n + 2 + size else n + 2, count, readings, i + 1)
  }

  /** A careless user function: the answer is positive exactly if the packing is, and then as long. */
  lemma {:induction false} CarelessWalk(q: Request, dids: seq<u16>, readings: seq<Reading>, i: nat, response: seq<byte>)
    requires ReadRequest(q) && Holds(q, dids) && Careless(|dids|, readings) && i <= |dids| && |response| <= MTU
    ensures var r := ReadWalk(q, i, |dids|, readings, response);
            match Packed(|response|, |dids|, readings, i)
            case Some(n) => r.code == POSITIVE && |r.response| == n
            case None => r == Refuse(q, RESPONSE_TOO_LONG, true)
    decreases |dids| - i
  {
    if i < |dids| && |response| + 3 <= MTU {
      CarelessWalk(q, dids, readings, i + 1, SafeCopy(response + Bytes16(dids[i]), readings[i].data));
    }
  }

  /** An answer is not the full one if the next record does not fit any more. */
  lemma NeverFull(q: Request, dids: seq<u16>, readings: seq<Reading>, i: nat, response: seq<byte>)
    requires ReadRequest(q) && i < |dids| <= |readings|
    requires 1 <= |response| <= MTU && response[0] == ResponseSid(SID_READ_DATA)
    requires |response| + 2 + |readings[i].data| > MTU
    ensures ReadWalk(q, i, |dids|, readings, response).response != response + Records(dids, readings, i)
  {
    WalkBound(q, i, |dids|, readings, response);
    assert |Records(dids, readings, i)| >= 2 + |readings[i].data|;
  }

  /** A careless user function: the answer is full exactly if everything fits. */
  lemma {:induction false} CarelessFull(q: Request, dids: seq<u16>, readings: seq<Reading>, i: nat, response: seq<byte>)
    requires ReadRequest(q) && Holds(q, dids) && Careless(|dids|, readings) && i <= |dids|
    requires 1 <= |response| <= MTU && response[0] == ResponseSid(SID_READ_DATA)
    ensures ReadWalk(q, i, |dids|, readings, response) == Reply(POSITIVE, response + Records(dids, readings, i), true)
            <==> Fits(|response|, |dids|, readings, i)
    decreases |dids| - i
  {
    if i == |dids| {
      assert response + Records(dids, readings, i) == response;
    } else if |response| + 3 <= MTU {
      if |response| + 2 + |readings[i].data| <= MTU {
        WalkOn(q, dids, readings, i, response);
        CarelessFull(q, dids, readings, i + 1, response + Bytes16(dids[i]) + readings[i].data);
      } else {
        NeverFull(q, dids, readings, i, response);
      }
    }
  }

  // ----- main results about the server

  /** The server takes these identifiers of the request: as many as an eight-bit count says. */
  ghost predicate Takes(q: Request, taken: seq<u16>) {
    ReadRequest(q) && q.len % 2 == 1 && |taken| == q.len / 2 % 256 && Holds(q, taken)
  }

  lemma TakesModulo(q: Request, dids: seq<u16>)
    requires Asks(q, dids)
    ensures Takes(q, dids[..|dids| % 256])
  {
    assert q.len / 2 == |dids|;
  }

  lemma TakenWalk(q: Request, taken: seq<u16>, a: Answer)
    requires Takes(q, taken)
    ensures ReadDataByIdentifier(q, a) ==
            if taken == [] then Refuse(q, INCORRECT_LENGTH, false)
            else ReadWalk(q, 0, |taken|, a.readings, [ResponseSid(SID_READ_DATA)])
  {
  }

  /** For every request for identifiers and a careful user function: of c identifiers the server takes c mod 256, and
      answers them in full exactly if none is refused and they fit; the answer is never partial. */
  lemma AnswerIsFullOrDenied(k: Case, dids: seq<u16>)
    requires Asks(k.q, dids) && Careful(|dids| % 256, k.a.readings)
    ensures var n, readings, h := |dids| % 256, k.a.readings, Outcome(k);
            && Unchanged(k)
            && if n > 0 && NoneRefused(n, readings, 0) && |Full(dids[..n], readings)| + Reserve(n, readings) <= MTU
               then Gives(k, true, POSITIVE, Full(dids[..n], readings))
               else && h.code != POSITIVE && Gives(k, h.asked, h.code, [])
                    && (n == 0 ==> h.code == INCORRECT_LENGTH)
                    && (n > 0 && NoneRefused(n, readings, 0) ==> h.code == RESPONSE_TOO_LONG)
  {
    TakesModulo(k.q, dids);
    ReadAnswer(k);
    CarefulTaken(k.q, dids[..|dids| % 256], k.a);
  }

  lemma CarefulTaken(q: Request, taken: seq<u16>, a: Answer)
    requires Takes(q, taken) && Careful(|taken|, a.readings)
    ensures var r := ReadDataByIdentifier(q, a);
            if taken == [] then r == Refuse(q, INCORRECT_LENGTH, false)
            else FullOrDenied(r, Full(taken, a.readings), NoneRefused(|taken|, a.readings, 0),
                              |Full(taken, a.readings)| + Reserve(|taken|, a.readings) <= MTU)
  {
    TakenWalk(q, taken, a);
    if taken != [] {
      CarefulWalk(q, taken, a.readings, 0, [ResponseSid(SID_READ_DATA)]);
      FitsIff(1, taken, a.readings, 0);
    }
  }

  lemma CarelessTaken(q: Request, taken: seq<u16>, a: Answer)
    requires Takes(q, taken) && taken != [] && Careless(|taken|, a.readings)
    ensures ReadDataByIdentifier(q, a) == Reply(POSITIVE, Full(taken, a.readings), true)
            <==> |Full(taken, a.readings)| + Reserve(|taken|, a.readings) <= MTU
  {
    TakenWalk(q, taken, a);
    CarelessFull(q, taken, a.readings, 0, [ResponseSid(SID_READ_DATA)]);
    FitsIff(1, taken, a.readings, 0);
  }

  /** For every request for identifiers and a careless user function: of c identifiers the server takes c mod 256.
      Unless that is none, the answer is the full one to these if and only if that fits (with a byte to spare behind
      an empty last record). */
  lemma CarelessFullIffFits(k: Case, dids: seq<u16>)
    requires Asks(k.q, dids) && Careless(|dids| % 256, k.a.readings)
    ensures var n, readings := |dids| % 256, k.a.readings;
            if n == 0 then Gives(k, false, INCORRECT_LENGTH, [])
            else Gives(k, true, POSITIVE, Full(dids[..n], readings))
                 <==> |Full(dids[..n], readings)| + Reserve(n, readings) <= MTU
  {
    var taken := dids[..|dids| % 256];
    TakesModulo(k.q, dids);
    ReadAnswer(k);
    if taken == [] {
      TakenWalk(k.q, taken, k.a);
    } else {
      CarelessTaken(k.q, taken, k.a);
      FullIsGiven(k, Full(taken, k.a.readings));
    }
  }

  /** The server gives a record exactly if the handler does: its positive response is never suppressed. */
  lemma FullIsGiven(k: Case, full: seq<byte>)
    requires ReadRequest(k.q)
    ensures Gives(k, true, POSITIVE, full) <==> ReadDataByIdentifier(k.q, k.a) == Reply(POSITIVE, full, true)
  {
    ReadAnswer(k);
  }

  /** Otherwise the records are packed greedily: the answer is a denial if some identifier does not pass the check
      for three more bytes, and a positive answer that lacks records if they all pass. */
  lemma CarelessIsPacked(k: Case, dids: seq<u16>)
    requires Asks(k.q, dids) && |dids| % 256 > 0 && Careless(|dids| % 256, k.a.readings)
    ensures match Packed(1, |dids| % 256, k.a.readings, 0)
            case Some(n) => Outcome(k).code == POSITIVE && |Outcome(k).response| == n
            case None => Gives(k, true, RESPONSE_TOO_LONG, [])
  {
    TakesModulo(k.q, dids);
    PackedTaken(k.q, dids[..|dids| % 256], k.a);
    ReadAnswer(k);
  }

  lemma PackedTaken(q: Request, taken: seq<u16>, a: Answer)
    requires Takes(q, taken) && taken != [] && Careless(|taken|, a.readings)
    ensures var r := ReadDataByIdentifier(q, a);
            match Packed(1, |taken|, a.readings, 0)
            case Some(n) => r.code == POSITIVE && |r.response| == n
            case None => r == Refuse(q, RESPONSE_TOO_LONG, true)
  {
    TakenWalk(q, taken, a);
    CarelessWalk(q, taken, a.readings, 0, [ResponseSid(SID_READ_DATA)]);
  }

  // ----- the application of this repository

  const VERSION_ID: u16 := 0xF195
  const FINGERPRINT_ID: u16 := 0xF15A

  /** HandleReadDataByIdent: 21 bytes for one identifier and 12 for another, whatever the copy function says; all others
      are refused. */
  predicate OfThisApplication(did: u16, reading: Reading) {
    if did == VERSION_ID then reading.Unchecked? && reading.code == POSITIVE && |reading.data| == 21
    else if did == FINGERPRINT_ID then reading.Unchecked? && reading.code == POSITIVE && |reading.data| == 12
    else reading == Unchecked([], REQUEST_OUT_OF_RANGE)
  }

  ghost predicate Application(dids: seq<u16>, readings: seq<Reading>) {
    |dids| <= |readings| && forall i :: 0 <= i < |dids| ==> OfThisApplication(dids[i], readings[i])
  }

  /** All identifiers from the i-th on are among the two. */
  ghost predicate Served(dids: seq<u16>, i: nat) {
    forall k :: i <= k < |dids| ==> dids[k] == VERSION_ID || dids[k] == FINGERPRINT_ID
  }

  /** The longest answer: 255 records of 21 bytes. */
  const LONGEST := 1 + 255 * 23

  lemma ApplicationRefuses(q: Request, dids: seq<u16>, readings: seq<Reading>, i: nat, response: seq<byte>)
    requires ReadRequest(q) && Holds(q, dids) && Application(dids, readings) && i < |dids| && |response| + 3 <= MTU
    requires dids[i] != VERSION_ID && dids[i] != FINGERPRINT_ID
    ensures ReadWalk(q, i, |dids|, readings, response) == Refuse(q, REQUEST_OUT_OF_RANGE, true)
  {
    assert OfThisApplication(dids[i], readings[i]);
  }

  lemma {:induction false} ApplicationWalk(q: Request, dids: seq<u16>, readings: seq<Reading>, i: nat,
                                           response: seq<byte>)
    requires ReadRequest(q) && Holds(q, dids) && Application(dids, readings) && i <= |dids|
    requires |response| + 23 * (|dids| - i) <= MTU
    ensures ReadWalk(q, i, |dids|, readings, response) ==
            if Served(dids, i) then Reply(POSITIVE, response + Records(dids, readings, i), true)
            else Refuse(q, REQUEST_OUT_OF_RANGE, true)
    decreases |dids| - i
  {
    if i == |dids| {
      assert response + Records(dids, readings, i) == response;
    } else {
      assert OfThisApplication(dids[i], readings[i]);
      if dids[i] != VERSION_ID && dids[i] != FINGERPRINT_ID {
        ApplicationRefuses(q, dids, readings, i, response);
        assert !Served(dids, i);
      } else {
        WalkOn(q, dids, readings, i, response);
        ApplicationWalk(q, dids, readings, i + 1, response + Bytes16(dids[i]) + readings[i].data);
        assert Served(dids, i) <==> Served(dids, i + 1);
      }
    }
  }

  lemma ApplicationTaken(q: Request, taken: seq<u16>, a: Answer)
    requires MTU >= LONGEST && Takes(q, taken) && taken != [] && Application(taken, a.readings)
    ensures ReadDataByIdentifier(q, a) ==
            if Served(taken, 0) then Reply(POSITIVE, Full(taken, a.readings), true)
            else Refuse(q, REQUEST_OUT_OF_RANGE, true)
  {
    TakenWalk(q, taken, a);
    ApplicationWalk(q, taken, a.readings, 0, [ResponseSid(SID_READ_DATA)]);
  }

  /** With a transport buffer of 5866 bytes, and so in the configuration that the Makefile builds, the careless
      application does no harm: every request for identifiers that the server takes is answered in full if they are
      among the two, and refused otherwise. */
  lemma ApplicationAnswers(k: Case, dids: seq<u16>)
    requires MTU >= LONGEST && Asks(k.q, dids) && Application(dids[..|dids| % 256], k.a.readings)
    ensures var n := |dids| % 256;
            if n == 0 then Gives(k, false, INCORRECT_LENGTH, [])
            else if Served(dids[..n], 0) then Gives(k, true, POSITIVE, Full(dids[..n], k.a.readings))
            else Gives(k, true, REQUEST_OUT_OF_RANGE, [])
  {
    var taken := dids[..|dids| % 256];
    TakesModulo(k.q, dids);
    ReadAnswer(k);
    if taken == [] {
      TakenWalk(k.q, taken, k.a);
    } else {
      ApplicationTaken(k.q, taken, k.a);
    }
  }

  lemma LongestLength(dids: seq<u16>, readings: seq<Reading>)
    requires |dids| == 255 && (forall i :: 0 <= i < 255 ==> dids[i] == VERSION_ID) && Application(dids, readings)
    ensures Careless(255, readings) && |Full(dids, readings)| + Reserve(255, readings) == LONGEST
  {
    forall i | 0 <= i < 255
      ensures readings[i].Unchecked? && readings[i].code == POSITIVE && |readings[i].data| == 21
    {
      assert OfThisApplication(dids[i], readings[i]);
    }
    VersionsLength(dids, readings, 0, 255);
  }

  /** No smaller buffer will do: the longest request for versions is answered in full if and only if it has 5866
      bytes. */
  lemma LongestNeedsBuffer(k: Case, dids: seq<u16>)
    requires Asks(k.q, dids) && |dids| == 255 && (forall i :: 0 <= i < 255 ==> dids[i] == VERSION_ID)
    requires Application(dids, k.a.readings)
    ensures Gives(k, true, POSITIVE, Full(dids, k.a.readings)) <==> MTU >= LONGEST
  {
    LongestLength(dids, k.a.readings);
    WholeRequest(dids);
    CarelessFullIffFits(k, dids);
  }

  lemma WholeRequest(dids: seq<u16>)
    requires |dids| < 256
    ensures dids[..|dids| % 256] == dids
  {
  }

  /** Records of 21 bytes take 23 each. */
  lemma {:induction false} VersionsPacked(n: nat, count: nat, readings: seq<Reading>, i: nat, j: nat)
    requires i <= j <= count <= |readings|
    requires (forall k :: i <= k < j ==> |readings[k].data| == 21) && n + 23 * (j - i) <= MTU
    ensures Packed(n, count, readings, i) == Packed(n + 23 * (j - i), count, readings, j)
    decreases j - i
  {
    if i < j {
      VersionsPacked(n + 23, count, readings, i + 1, j);
    }
  }

  lemma {:induction false} VersionsLength(dids: seq<u16>, readings: seq<Reading>, i: nat, j: nat)
    requires i <= j <= |dids| <= |readings| && forall k :: i <= k < j ==> |readings[k].data| == 21
    ensures |Records(dids, readings, i)| == 23 * (j - i) + |Records(dids, readings, j)|
    decreases j - i
  {
    if i < j {
      VersionsLength(dids, readings, i + 1, j);
    }
  }

  /** The request for 177 versions and two fingerprints. */
  ghost predicate ManyIds(dids: seq<u16>) {
    && |dids| == 179 && (forall i :: 0 <= i < 177 ==> dids[i] == VERSION_ID)
    && dids[177] == dids[178] == FINGERPRINT_ID
  }

  lemma ManySizes(dids: seq<u16>, readings: seq<Reading>)
    requires ManyIds(dids) && Application(dids, readings)
    ensures Careless(179, readings) && |readings[177].data| == |readings[178].data| == 12
    ensures forall i :: 0 <= i < 177 ==> |readings[i].data| == 21
  {
    forall i | 0 <= i < 179
      ensures readings[i].Unchecked? && readings[i].code == POSITIVE
              && |readings[i].data| == if i < 177 then 21 else 12
    {
      assert OfThisApplication(dids[i], readings[i]);
    }
  }

  lemma ManyPacked(readings: seq<Reading>)
    requires MTU == 4095 && |readings| >= 179 && |readings[177].data| == |readings[178].data| == 12
    requires forall k :: 0 <= k < 177 ==> |readings[k].data| == 21
    ensures Packed(1, 179, readings, 0) == Some(4088)
  {
    VersionsPacked(1, 179, readings, 0, 177);
    assert Packed(4072, 179, readings, 177) == Packed(4086, 179, readings, 178);
    assert Packed(4086, 179, readings, 178) == Packed(4088, 179, readings, 179);
  }

  lemma TwoFingerprints(dids: seq<u16>, readings: seq<Reading>)
    requires |dids| == 179 <= |readings| && |readings[177].data| == |readings[178].data| == 12
    ensures |Records(dids, readings, 177)| == 28
  {
    assert |Records(dids, readings, 178)| == 14 + |Records(dids, readings, 179)|;
  }

  /** Built with the header's default of 4095 bytes instead, the same application does answer partially: this request of
      359 bytes is answered positively without its last record. */
  lemma PartialAnswerOccurs(k: Case, dids: seq<u16>)
    requires MTU == 4095 && Asks(k.q, dids) && ManyIds(dids) && Application(dids, k.a.readings)
    ensures Outcome(k).code == POSITIVE && |Outcome(k).response| == 4088
    ensures k.q.len == 359 && |Full(dids, k.a.readings)| == 4100
  {
    ManySizes(dids, k.a.readings);
    ManyPacked(k.a.readings);
    VersionsLength(dids, k.a.readings, 0, 177);
    TwoFingerprints(dids, k.a.readings);
    CarelessIsPacked(k, dids);
  }

  // ----- the client reads the response

  datatype Unpacked = Unpacked(data: seq<byte>, offset: nat) | TooShort | Mismatch

  /** UDSUnpackRDBIResponse. */
  function Unpack(buf: seq<byte>, did: u16, dataSize: nat, offset: nat): Unpacked {
    var at := if offset == 0 then 1 else offset;
    if at + 2 > |buf| then TooShort
    else if buf[at] != did / 256 || buf[at + 1] != did % 256 then Mismatch
    else if at + 2 + dataSize > |buf| then TooShort
    else Unpacked(buf[at + 2..at + 2 + dataSize], at + 2 + dataSize)
  }

  /** Unpacking one identifier after the other, from the i-th on. */
  function UnpackFrom(buf: seq<byte>, dids: seq<u16>, sizes: seq<nat>, i: nat, offset: nat): Option<seq<seq<byte>>>
    requires i <= |dids| <= |sizes|
    decreases |dids| - i
  {
    if i == |dids| then Some([])
    else
      match Unpack(buf, dids[i], sizes[i], offset)
      case Unpacked(data, next) => Joined([data], UnpackFrom(buf, dids, sizes, i + 1, next))
      case _ => None
  }

  /** Records already unpacked, and the rest. */
  function Joined(done: seq<seq<byte>>, rest: Option<seq<seq<byte>>>): Option<seq<seq<byte>>> {
    match rest
    case Some(r) => Some(done + r)
    case None => None
  }

  lemma JoinedMore(done: seq<seq<byte>>, data: seq<byte>, rest: Option<seq<seq<byte>>>)
    ensures Joined([], rest) == rest
    ensures Joined(done, Joined([data], rest)) == Joined(done + [data], rest)
  {
    if rest.Some? {
      assert [] + rest.value == rest.value;
      assert done + ([data] + rest.value) == done + [data] + rest.value;
    }
  }

  /** The client's loop over the identifiers, with the running offset. */
  method UnpackResponse(buf: seq<byte>, dids: seq<u16>, sizes: seq<nat>) returns (records: Option<seq<seq<byte>>>)
    requires |dids| <= |sizes|
    ensures records == UnpackFrom(buf, dids, sizes, 0, 0)
  {
    var offset, done := 0, [];
    JoinedMore([], [], UnpackFrom(buf, dids, sizes, 0, 0));
    for i := 0 to |dids|
      invariant UnpackFrom(buf, dids, sizes, 0, 0) == Joined(done, UnpackFrom(buf, dids, sizes, i, offset))
    {
      match Unpack(buf, dids[i], sizes[i], offset)
      case Unpacked(data, next) =>
        JoinedMore(done, data, UnpackFrom(buf, dids, sizes, i + 1, next));
        offset := next;
        done := done + [data];
      case _ =>
        return None;
    }
    assert done + [] == done;
    return Some(done);
  }

  /** The records from the i-th on. */
  function Datas(count: nat, readings: seq<Reading>, i: nat): seq<seq<byte>>
    requires i <= count <= |readings|
    decreases count - i
  {
    if i == count then [] else [readings[i].data] + Datas(count, readings, i + 1)
  }

  lemma UnpackOne(buf: seq<byte>, at: nat, did: u16, size: nat, data: seq<byte>, rest: seq<byte>)
    requires 1 <= at <= |buf| && buf[at..] == Bytes16(did) + data + rest && size == |data|
    ensures Unpack(buf, did, size, at) == Unpacked(data, at + 2 + |data|)
    ensures at + 2 + |data| <= |buf| && buf[at + 2 + |data|..] == rest
  {
    var tail := buf[at..];
    assert tail == Bytes16(did) + (data + rest);
    assert tail[0] == did / 256 && tail[1] == did % 256;
    assert tail[2..2 + |data|] == data && tail[2 + |data|..] == rest;
    assert buf[at] == tail[0] && buf[at + 1] == tail[1];
    assert buf[at + 2..at + 2 + |data|] == tail[2..2 + |data|];
    assert buf[at + 2 + |data|..] == tail[2 + |data|..];
  }

  /** The client knows how long each record is. */
  ghost predicate Sizes(count: nat, readings: seq<Reading>, sizes: seq<nat>) {
    count <= |readings| && count <= |sizes| && forall i :: 0 <= i < count ==> sizes[i] == |readings[i].data|
  }

  lemma UnpackStep(buf: seq<byte>, dids: seq<u16>, sizes: seq<nat>, i: nat, at: nat, data: seq<byte>, next: nat,
                   rest: seq<seq<byte>>)
    requires i < |dids| <= |sizes| && Unpack(buf, dids[i], sizes[i], at) == Unpacked(data, next)
    requires UnpackFrom(buf, dids, sizes, i + 1, next) == Some(rest)
    ensures UnpackFrom(buf, dids, sizes, i, at) == Some([data] + rest)
  {
  }

  /** The records from the i-th on lie at offset `at`. */
  ghost predicate RecordsAt(buf: seq<byte>, dids: seq<u16>, readings: seq<Reading>, i: nat, at: nat)
    requires i <= |dids| <= |readings|
  {
    1 <= at <= |buf| && buf[at..] == Records(dids, readings, i)
  }

  lemma UnpackNext(buf: seq<byte>, dids: seq<u16>, readings: seq<Reading>, sizes: seq<nat>, i: nat, at: nat)
    requires Sizes(|dids|, readings, sizes) && i < |dids| && RecordsAt(buf, dids, readings, i, at)
    ensures var data := readings[i].data;
            && Unpack(buf, dids[i], sizes[i], at) == Unpacked(data, at + 2 + |data|)
            && RecordsAt(buf, dids, readings, i + 1, at + 2 + |data|)
  {
    UnpackOne(buf, at, dids[i], sizes[i], readings[i].data, Records(dids, readings, i + 1));
  }

  /** What is left at offset `at` is unpacked record by record. */
  lemma {:induction false} UnpackRecords(
    buf: seq<byte>, dids: seq<u16>, readings: seq<Reading>, sizes: seq<nat>, i: nat, at: nat)
    requires Sizes(|dids|, readings, sizes) && i <= |dids| && RecordsAt(buf, dids, readings, i, at)
    ensures UnpackFrom(buf, dids, sizes, i, at) == Some(Datas(|dids|, readings, i))
    decreases |dids| - i
  {
    if i < |dids| {
      var data, next := readings[i].data, at + 2 + |readings[i].data|;
      UnpackNext(buf, dids, readings, sizes, i, at);
      UnpackRecords(buf, dids, readings, sizes, i + 1, next);
      UnpackStep(buf, dids, sizes, i, at, data, next, Datas(|dids|, readings, i + 1));
    }
  }

  lemma UnpackFull(dids: seq<u16>, readings: seq<Reading>, sizes: seq<nat>)
    requires dids != [] && Sizes(|dids|, readings, sizes)
    ensures UnpackFrom(Full(dids, readings), dids, sizes, 0, 0) == Some(Datas(|dids|, readings, 0))
  {
    var full := Full(dids, readings);
    assert full[1..] == Records(dids, readings, 0);
    UnpackRecords(full, dids, readings, sizes, 0, 1);
    assert UnpackFrom(full, dids, sizes, 0, 0) == UnpackFrom(full, dids, sizes, 0, 1);
  }

  /** Up to 255 identifiers that are not refused: the full answer, or a denial if it does not fit. */
  lemma FullIsAnswered(k: Case, dids: seq<u16>)
    requires 1 <= |dids| <= 255 && Asks(k.q, dids)
    requires |dids| <= |k.a.readings| && NoneRefused(|dids|, k.a.readings, 0)
    ensures if |Full(dids, k.a.readings)| + Reserve(|dids|, k.a.readings) <= MTU
            then Gives(k, true, POSITIVE, Full(dids, k.a.readings))
            else Outcome(k).code == RESPONSE_TOO_LONG && Gives(k, Outcome(k).asked, RESPONSE_TOO_LONG, [])
  {
    WholeRequest(dids);
    AnswerIsFullOrDenied(k, dids);
  }

  /** From end to end: up to 255 identifiers that are not refused and fit a message come back, each record whole and in
      order; if they do not fit, the response is a denial. */
  lemma ReadRoundTrip(k: Case, dids: seq<u16>, sizes: seq<nat>)
    requires 1 <= |dids| <= 255 && Carries(k.q, RequestMessage(dids))
    requires Sizes(|dids|, k.a.readings, sizes) && NoneRefused(|dids|, k.a.readings, 0)
    ensures var h := Outcome(k);
            if |Full(dids, k.a.readings)| + Reserve(|dids|, k.a.readings) <= MTU
            then h.code == POSITIVE && UnpackFrom(h.response, dids, sizes, 0, 0) == Some(Datas(|dids|, k.a.readings, 0))
            else h.code == RESPONSE_TOO_LONG && h.response == [0x7F, 0x22, RESPONSE_TOO_LONG]
  {
    RequestAsks(k.q, dids);
    FullIsAnswered(k, dids);
    UnpackFull(dids, k.a.readings, sizes);
  }

  // ----- in a run of the server

  lemma ReadOutcome(k: Case, dids: seq<u16>)
    requires MTU >= LONGEST && 1 <= |dids| <= 255 && Served(dids, 0)
    requires Carries(k.q, RequestMessage(dids)) && Application(dids, k.a.readings)
    ensures Outcome(k).code == POSITIVE && Outcome(k).response == Full(dids, k.a.readings)
  {
    RequestAsks(k.q, dids);
    WholeRequest(dids);
    ApplicationAnswers(k, dids);
  }

  /** In a run of the server with this application and a transport buffer as built: a client's request for up to 255
      known identifiers is accepted, and the first poll that is late enough sends the full answer, which the client
      unpacks record by record. */
  lemma ReadIsSent(s: Server, e: Env, rest: seq<Env>, from: int, dids: seq<u16>, sizes: seq<nat>)
    requires Consistent(s) && !s.inProgress && !s.notReady && UdsPromptness.Due(s, from) && from <= e.now
    requires ValidEnv(e) && e.arrival.Some? && Carries(e.arrival.value, RequestMessage(dids)) && ValidEnvs(rest)
    requires 1 <= |dids| <= 255 && Served(dids, 0) && Application(dids, e.answer.readings) && MTU >= LONGEST
    requires Sizes(|dids|, e.answer.readings, sizes)
    requires rest != [] && rest[|rest| - 1].now > e.now + UdsPromptness.Max(s.p2, s.p2Star * 3 / 10)
    ensures var full, (s1, events) := Full(dids, e.answer.readings), Poll(Clock.Unbounded, s, e);
            && events != [] && events[0] == Accepted(e.arrival.value)
            && UdsPromptness.AnswersBy(Run(Clock.Unbounded, s1, rest).1, full, rest,
                                       e.now + UdsPromptness.Max(s.p2, s.p2Star * 3 / 10))
            && UnpackFrom(full, dids, sizes, 0, 0) == Some(Datas(|dids|, e.answer.readings, 0))
  {
    ReadOutcome(Case(Clock.Unbounded, s.xfer, s.sec, false, e.arrival.value, e.now, e.answer), dids);
    UnpackFull(dids, e.answer.readings, sizes);
    UdsPromptness.AnsweredWith(s, e, rest, from, POSITIVE, Full(dids, e.answer.readings));
  }
}
