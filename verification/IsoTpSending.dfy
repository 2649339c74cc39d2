/** The sender against a reference: whatever frames arrive and whenever it is polled, it sends the frames of its message
    under the flow controls it has heard, and gives up where section 6.5 of ISO 15765-2:2004 has it give up. */
module IsoTpSending {
  import opened Prelude
  import opened Bytes
  import opened Clock
  import opened IsoTp
  import IsoTpNetwork
  import opened IsoTpReassembly

  // ----- the separation time of a flow control frame

  /** Values of STmin that ISO 15765-2 reserves. */
  predicate Reserved(st: byte) {
    0x80 <= st <= 0xF0 || st >= 0xFA
  }

  /** STmin in whole milliseconds: up to 127 ms, 100 to 900 microseconds, and the longest time for a reserved value. */
  function SeparationTime(st: byte): nat {
    if st <= 0x7F then st else if Reserved(st) then 127 else 1
  }

  /** The separation time is understood exactly if its value is not reserved; a reserved one is taken for 0. */
  lemma UnderstoodIffNotReserved(st: byte)
    ensures StMinToMs(st) == SeparationTime(st) <==> !Reserved(st)
    ensures Reserved(st) ==> StMinToMs(st) == 0
  {
  }

  function Gap(st: byte): nat {
    if Reserved(st) then 0 else SeparationTime(st)
  }

  // ----- the reference

  /** A message of which k consecutive frames have been sent, and how many more (None: any number), how far apart, when
      at the earliest and until when at the latest; or a transmission given up. */
  datatype Talk =
    | Silent
    | Talking(message: seq<byte>, k: nat, credit: Option<nat>, gap: nat, notBefore: int, deadline: int, waits: nat)
    | Broken(why: ProtocolResult)

  ghost predicate ValidTalk(t: Talk) {
    t.Talking? ==> 8 <= |t.message| && t.k < IsoTpNetwork.CfCount(|t.message|)
  }

  /** A poll at time `now`: the next frame if it is granted and due; `ok` says whether the driver takes it. */
  function Speaks(t: Talk, now: int, ok: bool): (r: (Talk, seq<Frame>))
    requires ValidTalk(t)
    ensures ValidTalk(r.0)
  {
    if !t.Talking? then (t, [])
    else if t.credit == Some(0) || (t.gap > 0 && now <= t.notBefore) then
      (if now > t.deadline then Broken(TimeoutBs) else t, [])
    else if !ok then (Broken(if now > t.deadline then TimeoutBs else ResultOk), [])
    else
      (if t.k + 1 == IsoTpNetwork.CfCount(|t.message|) then Silent
       else t.(k := t.k + 1, credit := OneLess(t.credit), notBefore := now + t.gap, deadline := now + 100),
       [IsoTpNetwork.FrameAt(t.message, t.k + 1)])
  }

  function OneLess(credit: Option<nat>): Option<nat> {
    if credit.Some? && credit.value > 0 then Some(credit.value - 1) else credit
  }

  predicate IsFlowControl(frame: Frame) {
    3 <= |frame| <= 8 && frame[0] / 16 == 3
  }

  /** A frame that arrives: continue, wait (once) or overflow. */
  function Hears(t: Talk, frame: Frame, now: int): (r: Talk)
    requires ValidTalk(t)
    ensures ValidTalk(r)
  {
    if !t.Talking? || !IsFlowControl(frame) then t
    else if frame[0] == 0x30 then
      t.(credit := if frame[1] == 0 then None else Some(frame[1]), gap := Gap(frame[2]), waits := 0,
         deadline := now + 100)
    else if frame[0] == 0x31 then
      if t.waits > 0 then Broken(WftOverrun) else t.(waits := 1, deadline := now + 100)
    else if frame[0] == 0x32 then Broken(BufferOverflow)
    else t.(deadline := now + 100)
  }

  /** A message to send, with `room` bytes for it. */
  function Begins(t: Talk, payload: seq<byte>, now: int, ok: bool, room: nat): (r: (Talk, Ret, seq<Frame>))
    requires ValidTalk(t)
    ensures ValidTalk(r.0)
  {
    if |payload| > room then (t, RetOverflow, [])
    else if t.Talking? then (t, RetInProgress, [])
    else if !ok then (t, RetCanError, [])
    else if |payload| < 8 then (t, RetOk, [SingleFrame(payload)])
    else (Talking(payload, 0, Some(0), 0, now, now + 100, 0), RetOk, [IsoTpNetwork.FrameAt(payload, 0)])
  }

  function TalkNext(t: Talk, i: Input, room: nat): (r: (Talk, seq<Frame>))
    requires ValidTalk(t)
    ensures ValidTalk(r.0)
  {
    match i
    case Arrives(frame, now) => (Hears(t, frame, now), [])
    case Polled(now, ok) => Speaks(t, now, ok)
    case Sends(payload, now, ok) => var (t1, _, out) := Begins(t, payload, now, ok, room); (t1, out)
    case Fetched(_) => (t, [])
  }

  /** A run of the reference: where it ends and all frames it sends. */
  function TalkRun(t: Talk, inputs: seq<Input>, room: nat): (r: (Talk, seq<Frame>))
    requires ValidTalk(t)
    ensures ValidTalk(r.0)
    decreases |inputs|
  {
    if inputs == [] then (t, [])
    else
      var (t1, out) := TalkNext(t, inputs[0], room);
      var (t2, more) := TalkRun(t1, inputs[1..], room);
      (t2, out + more)
  }

  // ----- the link

  /** The frames of its own message that the link sends; flow control frames are the receiver's. */
  function Emits(l: Link, i: Input): seq<Frame>
    requires ValidLink(l)
  {
    match i
    case Polled(now, ok) => Poll(Unbounded, l, now, ok).1
    case Sends(payload, now, ok) => SendWithId(Unbounded, l, payload, now, ok).2
    case _ => []
  }

  function AllEmitted(l: Link, inputs: seq<Input>): seq<Frame>
    requires ValidLink(l)
    decreases |inputs|
  {
    if inputs == [] then [] else Emits(l, inputs[0]) + AllEmitted(Step(Unbounded, l, inputs[0]), inputs[1..])
  }

  /** A sender in progress has no error to report. */
  ghost predicate Clean(s: Sender) {
    ValidSender(s) && (s.status.SendInProgress? ==> s.result == ResultOk)
  }

  /** What the sender's fields stand for. */
  function TalkOf(s: Sender): Talk
    requires ValidSender(s)
  {
    match s.status
    case SendIdle => Silent
    case SendError => Broken(s.result)
    case SendInProgress =>
      Talking(s.buf[..s.size], (s.offset - 6) / 7, if s.bsRemain == INVALID_BS then None else Some(s.bsRemain), s.stMin,
              s.timerSt, s.timerBs, s.wtfCount)
  }

  lemma TalkIsValid(s: Sender)
    requires ValidSender(s)
    ensures ValidTalk(TalkOf(s))
  {
    if s.status.SendInProgress? {
      assert 7 * ((s.offset - 6) / 7) + 6 == s.offset;
    }
  }

  // ----- the link refines the reference

  /** The frame that the fields of a sender yield is the next one of the message. */
  lemma NextFrame(s: Sender)
    requires ValidSender(s) && s.status.SendInProgress?
    ensures var k, len := (s.offset - 6) / 7, Min(s.size - s.offset, 7);
            && k + 1 <= IsoTpNetwork.CfCount(s.size)
            && ConsecutiveFrame(s.sn, s.buf[s.offset..s.offset + len]) == IsoTpNetwork.FrameAt(s.buf[..s.size], k + 1)
            && (s.offset + len >= s.size <==> k + 1 == IsoTpNetwork.CfCount(s.size))
            && (s.offset + len < s.size ==> (s.offset + len - 6) / 7 == k + 1)
  {
    var k, len := (s.offset - 6) / 7, Min(s.size - s.offset, 7);
    assert 7 * k + 6 == s.offset;
    assert s.buf[s.offset..s.offset + len] == s.buf[..s.size][7 * (k + 1) - 1..Min(s.size, 7 * (k + 1) + 6)];
  }

  lemma ConsecutiveSpeaks(s: Sender, now: int)
    requires Clean(s) && s.status.SendInProgress? && MaySend(Unbounded, s, now)
    ensures var (s1, out) := SendConsecutive(Unbounded, s, now, true);
            ValidTalk(TalkOf(s)) && Clean(s1) && (TalkOf(s1), out) == Speaks(TalkOf(s), now, true)
  {
    TalkIsValid(s);
    NextFrame(s);
    NextSnOf((s.offset - 6) / 7);
  }

  lemma PollSpeaks(s: Sender, now: int, ok: bool)
    requires Clean(s)
    ensures var (s1, out) := PollSender(Unbounded, s, now, ok);
            ValidTalk(TalkOf(s)) && Clean(s1) && (TalkOf(s1), out) == Speaks(TalkOf(s), now, ok)
  {
    TalkIsValid(s);
    if s.status.SendInProgress? && MaySend(Unbounded, s, now) && ok {
      ConsecutiveSpeaks(s, now);
    }
  }

  lemma FlowControlHeard(s: Sender, msg: Frame, len: nat, now: int)
    requires Clean(s) && |msg| == 8 && 2 <= len <= 8 && msg[0] / 16 == 3
    ensures var s1 := OnFlowControl(Unbounded, s, msg, len, now);
            ValidTalk(TalkOf(s)) && Clean(s1) && TalkOf(s1) == Hears(TalkOf(s), msg[..len], now)
  {
    TalkIsValid(s);
    if len >= 3 {
      UnderstoodIffNotReserved(msg[2]);
    }
  }

  lemma BeginsAsAsked(l: Link, payload: seq<byte>, now: int, ok: bool)
    requires ValidLink(l) && Clean(l.snd)
    ensures var (l1, ret, out) := SendWithId(Unbounded, l, payload, now, ok);
            && ValidTalk(TalkOf(l.snd)) && Clean(l1.snd)
            && (TalkOf(l1.snd), ret, out) == Begins(TalkOf(l.snd), payload, now, ok, |l.snd.buf|)
  {
    TalkIsValid(l.snd);
    SendKeepsValid(Unbounded, l, payload, now, ok);
    if |payload| <= |l.snd.buf| {
      assert Write(l.snd.buf, 0, payload)[..|payload|] == Write(l.snd.buf, 0, payload)[0..0 + |payload|];
    }
  }

  lemma ArrivalHeard(l: Link, frame: Frame, now: int)
    requires ValidLink(l) && Clean(l.snd)
    ensures var l1 := OnCanMessage(Unbounded, l, frame, now).0;
            ValidLink(l1) && ValidTalk(TalkOf(l.snd)) && Clean(l1.snd)
            && TalkOf(l1.snd) == Hears(TalkOf(l.snd), frame, now)
  {
    TalkIsValid(l.snd);
    OnCanMessageKeepsValid(Unbounded, l, frame, now);
    var len := |frame|;
    if 2 <= len <= 8 {
      var msg := frame + Zeros(8 - len);
      assert msg[..len] == frame && msg[0] == frame[0];
      if msg[0] / 16 == 3 {
        FlowControlHeard(l.snd, msg, len, now);
      }
    }
  }

  lemma StepTalks(l: Link, i: Input)
    requires ValidLink(l) && Clean(l.snd)
    ensures var l1 := Step(Unbounded, l, i);
            && ValidTalk(TalkOf(l.snd)) && Clean(l1.snd) && |l1.snd.buf| == |l.snd.buf|
            && (TalkOf(l1.snd), Emits(l, i)) == TalkNext(TalkOf(l.snd), i, |l.snd.buf|)
  {
    TalkIsValid(l.snd);
    match i
    case Arrives(frame, now) => ArrivalHeard(l, frame, now);
    case Polled(now, ok) => PollSpeaks(l.snd, now, ok);
    case Sends(payload, now, ok) => BeginsAsAsked(l, payload, now, ok);
    case Fetched(_) =>
  }

  /** In every run of a link, whatever frames arrive, whenever it is polled and whatever it is asked to send: it sends
      exactly the frames that the reference sends, is in progress exactly while that one is, and reports its error. */
  lemma {:induction false} SenderTalks(l: Link, inputs: seq<Input>)
    requires ValidLink(l) && Clean(l.snd)
    ensures ValidTalk(TalkOf(l.snd)) && Clean(Steps(Unbounded, l, inputs).snd)
    ensures (TalkOf(Steps(Unbounded, l, inputs).snd), AllEmitted(l, inputs))
            == TalkRun(TalkOf(l.snd), inputs, |l.snd.buf|)
    decreases |inputs|
  {
    TalkIsValid(l.snd);
    if inputs != [] {
      StepTalks(l, inputs[0]);
      SenderTalks(Step(Unbounded, l, inputs[0]), inputs[1..]);
    }
  }

  // ----- the timeout

  /** The time of the sender's last frame or of the last flow control frame, `from` being the one so far. */
  function Word(l: Link, i: Input, from: int): int
    requires ValidLink(l)
  {
    match i
    case Arrives(frame, now) => if IsFlowControl(frame) then now else from
    case Polled(now, _) => if Emits(l, i) != [] then now else from
    case Sends(_, now, _) => if Emits(l, i) != [] then now else from
    case Fetched(_) => from
  }

  function LastWord(l: Link, inputs: seq<Input>, from: int): int
    requires ValidLink(l)
    decreases |inputs|
  {
    if inputs == [] then from else LastWord(Step(Unbounded, l, inputs[0]), inputs[1..], Word(l, inputs[0], from))
  }

  /** The deadline of a sender in progress is 100 ms after that word. */
  ghost predicate DueBy(s: Sender, word: int) {
    s.status.SendInProgress? ==> s.timerBs == word + 100
  }

  lemma StepDue(l: Link, i: Input, word: int)
    requires ValidLink(l) && Clean(l.snd) && DueBy(l.snd, word)
    ensures DueBy(Step(Unbounded, l, i).snd, Word(l, i, word))
  {
    StepTalks(l, i);
  }

  lemma {:induction false} RunDue(l: Link, inputs: seq<Input>, word: int)
    requires ValidLink(l) && Clean(l.snd) && DueBy(l.snd, word)
    ensures Clean(Steps(Unbounded, l, inputs).snd)
    ensures DueBy(Steps(Unbounded, l, inputs).snd, LastWord(l, inputs, word))
    decreases |inputs|
  {
    if inputs != [] {
      StepTalks(l, inputs[0]);
      StepDue(l, inputs[0], word);
      RunDue(Step(Unbounded, l, inputs[0]), inputs[1..], Word(l, inputs[0], word));
    }
  }

  /** In every run: no poll leaves a sender in progress more than 100 ms after its last frame and the last flow control
      frame. A poll so late that sends nothing ends the transmission with the timeout. */
  lemma NoneOverstays(l: Link, inputs: seq<Input>, now: int, ok: bool, from: int)
    requires ValidLink(l) && Clean(l.snd) && !l.snd.status.SendInProgress?
    ensures var l1, i := Steps(Unbounded, l, inputs), Polled(now, ok);
            var s2, word := Step(Unbounded, l1, i).snd, LastWord(l, inputs, from);
            && (s2.status.SendInProgress? ==> now <= Word(l1, i, word) + 100)
            && (l1.snd.status.SendInProgress? && now > word + 100 && Emits(l1, i) == [] ==>
                  s2.status.SendError? && s2.result == TimeoutBs)
  {
    RunDue(l, inputs, from);
    var l1 := Steps(Unbounded, l, inputs);
    StepTalks(l1, Polled(now, ok));
    StepDue(l1, Polled(now, ok), LastWord(l, inputs, from));
  }

  // ----- what flow control permits

  /** What is heard on the bus of a transmission: its beginning, permissions to go on, its consecutive frames. */
  datatype Sound = Start | Permission(blockSize: byte, stMin: byte) | Own(at: int)

  function SoundOf(l: Link, i: Input): seq<Sound>
    requires ValidLink(l)
  {
    match i
    case Arrives(frame, _) =>
      if IsFlowControl(frame) && frame[0] == 0x30 then [Permission(frame[1], frame[2])] else []
    case Polled(now, _) => if Emits(l, i) != [] then [Own(now)] else []
    case Sends(payload, _, _) => if Emits(l, i) != [] && |payload| >= 8 then [Start] else []
    case Fetched(_) => []
  }

  function Sounds(l: Link, inputs: seq<Input>): seq<Sound>
    requires ValidLink(l)
    decreases |inputs|
  {
    if inputs == [] then [] else SoundOf(l, inputs[0]) + Sounds(Step(Unbounded, l, inputs[0]), inputs[1..])
  }

  /** What the last permission leaves: frames (None: any number), their distance, and the last of them. */
  datatype Permit = Permit(left: Option<nat>, gap: nat, last: Option<int>)

  const NOTHING := Permit(Some(0), 0, None)

  /** The permit after a sound, or None if the sound was not permitted: at most as many frames as the block size says,
      and more than STmin milliseconds apart. */
  function Permits(p: Permit, sound: Sound): Option<Permit> {
    match sound
    case Start => Some(NOTHING)
    case Permission(blockSize, stMin) =>
      Some(Permit(if blockSize == 0 then None else Some(blockSize), Gap(stMin), None))
    case Own(at) =>
      if p.left == Some(0) || (p.last.Some? && p.gap > 0 && at <= p.last.value + p.gap) then None
      else Some(Permit(OneLess(p.left), p.gap, Some(at)))
  }

  predicate Obedient(p: Permit, sounds: seq<Sound>)
    decreases |sounds|
  {
    sounds == [] || (Permits(p, sounds[0]).Some? && Obedient(Permits(p, sounds[0]).value, sounds[1..]))
  }

  /** The permit knows what the sender knows. */
  ghost predicate Knows(s: Sender, p: Permit) {
    s.status.SendInProgress? ==>
      && p.left == (if s.bsRemain == INVALID_BS then None else Some(s.bsRemain)) && p.gap == s.stMin
      && (p.last.Some? ==> s.timerSt == p.last.value + p.gap)
  }

  lemma StepObeys(l: Link, i: Input, p: Permit)
    requires ValidLink(l) && Clean(l.snd) && Knows(l.snd, p)
    ensures var sound, s1 := SoundOf(l, i), Step(Unbounded, l, i).snd;
            if sound == [] then Knows(s1, p)
            else |sound| == 1 && Permits(p, sound[0]).Some? && Knows(s1, Permits(p, sound[0]).value)
  {
    StepTalks(l, i);
    TalkIsValid(Step(Unbounded, l, i).snd);
  }

  /** In every run: no consecutive frame without a permission, at most as many under one permission as its block size
      allows, and two under the same permission more than its separation time apart (reserved values aside). */
  lemma {:induction false} SenderObeys(l: Link, inputs: seq<Input>, p: Permit)
    requires ValidLink(l) && Clean(l.snd) && Knows(l.snd, p)
    ensures Obedient(p, Sounds(l, inputs))
    decreases |inputs|
  {
    if inputs != [] {
      var sound, l1 := SoundOf(l, inputs[0]), Step(Unbounded, l, inputs[0]);
      StepTalks(l, inputs[0]);
      StepObeys(l, inputs[0], p);
      if sound == [] {
        SenderObeys(l1, inputs[1..], p);
        assert Sounds(l, inputs) == Sounds(l1, inputs[1..]);
      } else {
        SenderObeys(l1, inputs[1..], Permits(p, sound[0]).value);
        assert Sounds(l, inputs)[1..] == Sounds(l1, inputs[1..]);
      }
    }
  }

  // ----- the end of a transmission

  /** A refusal of the receiver ends the transmission, and a second request to wait does. */
  lemma RefusalEnds(l: Link, frame: Frame, now: int)
    requires ValidLink(l) && Clean(l.snd) && l.snd.status.SendInProgress? && IsFlowControl(frame)
    ensures var s1 := Step(Unbounded, l, Arrives(frame, now)).snd;
            && (frame[0] == 0x32 ==> s1.status.SendError? && s1.result == BufferOverflow)
            && (frame[0] == 0x31 && l.snd.wtfCount > 0 ==> s1.status.SendError? && s1.result == WftOverrun)
  {
    StepTalks(l, Arrives(frame, now));
  }

  /** Whatever happens, a link that is not sending sends nothing until it is asked to. */
  lemma {:induction false} SilentUntilAsked(l: Link, inputs: seq<Input>)
    requires ValidLink(l) && Clean(l.snd) && !l.snd.status.SendInProgress?
    requires forall i :: 0 <= i < |inputs| ==> !inputs[i].Sends?
    ensures AllEmitted(l, inputs) == [] && Steps(Unbounded, l, inputs).snd == l.snd
    decreases |inputs|
  {
    if inputs != [] {
      SilentUntilAsked(Step(Unbounded, l, inputs[0]), inputs[1..]);
    }
  }

  /** A sender that is permitted to go on without a pause. */
  ghost predicate Unpaused(l: Link) {
    && ValidLink(l) && Clean(l.snd) && l.snd.status.SendInProgress? && l.snd.stMin == 0 && l.snd.bsRemain > 0
  }

  lemma UnpausedSpeaks(l: Link, now: int)
    requires Unpaused(l)
    ensures SoundOf(l, Polled(now, true)) == [Own(now)]
    ensures l.snd.size - l.snd.offset > 7 && l.snd.bsRemain > 1 ==> Unpaused(Step(Unbounded, l, Polled(now, true)))
  {
    StepTalks(l, Polled(now, true));
  }

  lemma ReservedUnpauses(l: Link, bs: byte, st: byte, now: int)
    requires ValidLink(l) && Clean(l.snd) && l.snd.status.SendInProgress? && Reserved(st) && bs != 1
    ensures var i := Arrives([0x30, bs, st], now);
            var s1 := Step(Unbounded, l, i).snd;
            && SoundOf(l, i) == [Permission(bs, st)] && Unpaused(Step(Unbounded, l, i))
            && s1.size == l.snd.size && s1.offset == l.snd.offset && s1.bsRemain > 1
  {
    StepTalks(l, Arrives([0x30, bs, st], now));
  }

  lemma SoundsFirst(l: Link, i: Input, inputs: seq<Input>)
    requires ValidLink(l)
    ensures Sounds(l, [i] + inputs) == SoundOf(l, i) + Sounds(Step(Unbounded, l, i), inputs)
  {
    assert ([i] + inputs)[1..] == inputs;
  }

  /** With a reserved separation time the frames follow each other at once, where ISO 15765-2 asks for 127 ms. */
  lemma ReservedTimeIsIgnored(l: Link, bs: byte, st: byte, now: int)
    requires ValidLink(l) && Clean(l.snd) && l.snd.status.SendInProgress? && l.snd.size - l.snd.offset > 7
    requires Reserved(st) && bs != 1
    ensures var inputs := [Arrives([0x30, bs, st], now), Polled(now, true), Polled(now, true)];
            Sounds(l, inputs) == [Permission(bs, st), Own(now), Own(now)]
  {
    var i0, i1 := Arrives([0x30, bs, st], now), Polled(now, true);
    var l1 := Step(Unbounded, l, i0);
    var l2 := Step(Unbounded, l1, i1);
    ReservedUnpauses(l, bs, st, now);
    UnpausedSpeaks(l1, now);
    UnpausedSpeaks(l2, now);
    SoundsFirst(l, i0, [i1] + ([i1] + []));
    SoundsFirst(l1, i1, [i1] + []);
    SoundsFirst(l2, i1, []);
    assert [i0, i1, i1] == [i0] + ([i1] + ([i1] + []));
  }
}
