/** Security access over whole runs of server and application: which key unlocks a level, and where its seed comes
    from. */
module SecurityRuns {
  import opened Prelude
  import opened Bytes
  import opened Clock
  import opened BigEndian
  import opened Uds
  import opened SecurityHandshake
  import SeedKey

  /** What one poll meets; `random` is what /dev/urandom yields, if it can be opened. */
  datatype Turn = Turn(now: int, arrival: Option<Request>, random: Option<seq<byte>>, other: Answer)

  ghost predicate ValidTurn(t: Turn) {
    && (t.arrival.Some? ==> ValidRequest(t.arrival.value))
    && (t.random.Some? ==> |t.random.value| == 4)
  }

  ghost predicate ValidTurns(turns: seq<Turn>) {
    forall i :: 0 <= i < |turns| ==> ValidTurn(turns[i])
  }

  /** The data behind the sub-function. */
  function Parameters(q: Request): seq<byte>
    requires ValidRequest(q)
  {
    if q.len >= 2 then q.buf[2..q.len] else []
  }

  /** What the application would do about q: the seed it keeps and its answer. */
  function Consult(seed: u32, q: Request, t: Turn): (u32, Answer)
    requires ValidRequest(q) && ValidTurn(t)
  {
    if q.buf[0] != SID_SECURITY_ACCESS then (seed, t.other)
    else if q.buf[1] % 2 == 0 then (seed, HandleValidateKey(seed, Parameters(q)))
    else HandleRequestSeed(seed, t.random)
  }

  /** UDSServerPoll with the application. */
  function PollWith(c: Clock, s: Server, seed: u32, t: Turn): (r: (Server, u32))
    requires ValidServer(s) && ValidTurn(t)
    ensures ValidServer(r.0)
  {
    match Evaluating(s, t.arrival)
    case None => (Poll(c, s, Env(t.now, t.arrival, t.other)).0, seed)
    case Some(q) =>
      var (seed1, a) := Consult(seed, q, t);
      var h := Evaluate(c, s.xfer, s.sec, s.pending, q, t.now, a);
      (Poll(c, s, Env(t.now, t.arrival, a)).0, if h.asked then seed1 else seed)
  }

  function RunWith(c: Clock, s: Server, seed: u32, turns: seq<Turn>): (r: (Server, u32))
    requires ValidServer(s) && ValidTurns(turns)
    ensures ValidServer(r.0)
    decreases |turns|
  {
    if turns == [] then (s, seed)
    else
      var (s1, seed1) := RunWith(c, s, seed, turns[..|turns| - 1]);
      PollWith(c, s1, seed1, turns[|turns| - 1])
  }

  // ----- one poll

  /** The poll evaluates a key: the sub-function is even and not reserved, the delays are over, and the key is the
      one of the seed that the application keeps. */
  ghost predicate Unlocks(c: Clock, s: Server, seed: u32, t: Turn)
    requires ValidServer(s) && ValidTurn(t)
  {
    && Evaluating(s, t.arrival).Some?
    && var q := Evaluating(s, t.arrival).value;
       && q.buf[0] == SID_SECURITY_ACCESS && q.buf[1] % 2 == 0 && !LevelIsReserved(q.buf[1])
       && DelaysOver(c, s.sec, t.now)
       && Parameters(q) == Encode(KeyOf(seed), 4)
  }

  /** The poll hands out the random word as a new seed. */
  ghost predicate HandsOut(c: Clock, s: Server, t: Turn)
    requires ValidServer(s) && ValidTurn(t)
  {
    && Evaluating(s, t.arrival).Some? && t.random.Some?
    && var q := Evaluating(s, t.arrival).value;
       && q.buf[0] == SID_SECURITY_ACCESS && q.buf[1] % 2 == 1 && q.buf[1] != s.sec.level
       && DelaysOver(c, s.sec, t.now)
  }

  lemma KeyChecked(c: Clock, x: Xfer, sec: Security, seed: u32, q: Request, t: Turn)
    requires ValidRequest(q) && ValidTurn(t) && q.buf[0] == SID_SECURITY_ACCESS && q.buf[1] % 2 == 0
    ensures var h := SecurityAccess(c, x, sec, q, t.now, HandleValidateKey(seed, Parameters(q)));
            h.sec.level == if !LevelIsReserved(q.buf[1]) && DelaysOver(c, sec, t.now)
                              && Parameters(q) == Encode(KeyOf(seed), 4)
                           then q.buf[1] - 1 else sec.level
  {
    SameWord(Parameters(q), KeyOf(seed));
  }

  lemma SeedAsked(c: Clock, x: Xfer, sec: Security, q: Request, now: int, a: Answer)
    requires ValidRequest(q) && q.buf[0] == SID_SECURITY_ACCESS && q.buf[1] % 2 == 1
    ensures var h := SecurityAccess(c, x, sec, q, now, a);
            && h.sec.level == sec.level
            && (h.asked <==> DelaysOver(c, sec, now) && q.buf[1] != sec.level)
  {
  }

  /** Security state and callback of an evaluation are those of the service. */
  lemma EvaluateSecurity(c: Clock, x: Xfer, sec: Security, pending: bool, q: Request, now: int, a: Answer)
    requires ValidRequest(q)
    ensures var h := Evaluate(c, x, sec, pending, q, now, a);
            if q.buf[0] == SID_SECURITY_ACCESS
            then var service := SecurityAccess(c, x, sec, q, now, a);
                 h.sec == service.sec && h.asked == service.asked
            else h.sec == sec
  {
  }

  lemma PollSecurity(c: Clock, s: Server, seed: u32, t: Turn)
    requires ValidServer(s) && ValidTurn(t)
    ensures PollWith(c, s, seed, t).0.sec ==
            match Evaluating(s, t.arrival)
            case None => s.sec
            case Some(q) => Evaluate(c, s.xfer, s.sec, s.pending, q, t.now, Consult(seed, q, t).1).sec
  {
  }

  /** The level changes with the key of the kept seed, and not otherwise. */
  lemma LevelAfterPoll(c: Clock, s: Server, seed: u32, t: Turn)
    requires ValidServer(s) && ValidTurn(t)
    ensures PollWith(c, s, seed, t).0.sec.level ==
            if Unlocks(c, s, seed, t) then Evaluating(s, t.arrival).value.buf[1] - 1 else s.sec.level
  {
    PollSecurity(c, s, seed, t);
    if Evaluating(s, t.arrival).Some? {
      var q := Evaluating(s, t.arrival).value;
      var a := Consult(seed, q, t).1;
      EvaluateSecurity(c, s.xfer, s.sec, s.pending, q, t.now, a);
      if q.buf[0] == SID_SECURITY_ACCESS {
        if q.buf[1] % 2 == 0 {
          KeyChecked(c, s.xfer, s.sec, seed, q, t);
        } else {
          SeedAsked(c, s.xfer, s.sec, q, t.now, a);
        }
      }
    }
  }

  /** The kept seed changes with the seed that is handed out, and not otherwise. */
  lemma SeedAfterPoll(c: Clock, s: Server, seed: u32, t: Turn)
    requires ValidServer(s) && ValidTurn(t)
    ensures PollWith(c, s, seed, t).1 == if HandsOut(c, s, t) then Decode(t.random.value) else seed
  {
    if Evaluating(s, t.arrival).Some? {
      var q := Evaluating(s, t.arrival).value;
      var a := Consult(seed, q, t).1;
      EvaluateSecurity(c, s.xfer, s.sec, s.pending, q, t.now, a);
      if q.buf[0] == SID_SECURITY_ACCESS && q.buf[1] % 2 == 1 {
        SeedAsked(c, s.xfer, s.sec, q, t.now, a);
      }
    }
  }

  // ----- whole runs

  /** Poll i of the run unlocks the level. */
  ghost predicate UnlockedAt(c: Clock, s: Server, seed: u32, turns: seq<Turn>, i: nat, level: byte)
    requires ValidServer(s) && ValidTurns(turns)
  {
    && i < |turns|
    && var (s1, seed1) := RunWith(c, s, seed, turns[..i]);
       Unlocks(c, s1, seed1, turns[i]) && level == Evaluating(s1, turns[i].arrival).value.buf[1] - 1
  }

  /** Poll i of the run hands out the seed. */
  ghost predicate HandedOutAt(c: Clock, s: Server, seed: u32, turns: seq<Turn>, i: nat, word: u32)
    requires ValidServer(s) && ValidTurns(turns)
  {
    && i < |turns|
    && HandsOut(c, RunWith(c, s, seed, turns[..i]).0, turns[i]) && word == Decode(turns[i].random.value)
  }

  lemma SamePrefix(turns: seq<Turn>, i: nat)
    requires i < |turns|
    ensures i < |turns| - 1 ==> turns[..|turns| - 1][..i] == turns[..i] && turns[..|turns| - 1][i] == turns[i]
  {
  }

  /** In every run the level is the one at the start, or one that a poll of the run unlocked with the key of the seed
      kept at that time. */
  lemma {:induction false} LevelIsUnlocked(c: Clock, s: Server, seed: u32, turns: seq<Turn>)
    requires ValidServer(s) && ValidTurns(turns)
    ensures var level := RunWith(c, s, seed, turns).0.sec.level;
            level == s.sec.level || exists i: nat :: UnlockedAt(c, s, seed, turns, i, level)
    decreases |turns|
  {
    if turns != [] {
      var init, last := turns[..|turns| - 1], |turns| - 1;
      LevelIsUnlocked(c, s, seed, init);
      var (s1, seed1) := RunWith(c, s, seed, init);
      LevelAfterPoll(c, s1, seed1, turns[last]);
      var level := RunWith(c, s, seed, turns).0.sec.level;
      if Unlocks(c, s1, seed1, turns[last]) {
        assert UnlockedAt(c, s, seed, turns, last, level);
      } else if level != s.sec.level {
        var i: nat :| UnlockedAt(c, s, seed, init, i, level);
        SamePrefix(turns, i);
        assert UnlockedAt(c, s, seed, turns, i, level);
      }
    }
  }

  lemma LastHandsOut(c: Clock, s: Server, seed: u32, turns: seq<Turn>)
    requires ValidServer(s) && ValidTurns(turns) && turns != []
    ensures var last := |turns| - 1;
            var (s1, seed1) := RunWith(c, s, seed, turns[..last]);
            var kept := RunWith(c, s, seed, turns).1;
            if HandsOut(c, s1, turns[last]) then HandedOutAt(c, s, seed, turns, last, kept) else kept == seed1
  {
    var last := |turns| - 1;
    var (s1, seed1) := RunWith(c, s, seed, turns[..last]);
    SeedAfterPoll(c, s1, seed1, turns[last]);
  }

  lemma EarlierHandsOut(c: Clock, s: Server, seed: u32, turns: seq<Turn>, i: nat, word: u32)
    requires ValidServer(s) && ValidTurns(turns) && turns != []
    requires HandedOutAt(c, s, seed, turns[..|turns| - 1], i, word)
    ensures HandedOutAt(c, s, seed, turns, i, word)
  {
    SamePrefix(turns, i);
  }

  /** In every run the kept seed is the one at the start, or one that a poll of the run handed out. */
  lemma {:induction false} SeedIsHandedOut(c: Clock, s: Server, seed: u32, turns: seq<Turn>)
    requires ValidServer(s) && ValidTurns(turns)
    ensures var kept := RunWith(c, s, seed, turns).1;
            kept == seed || exists i: nat :: HandedOutAt(c, s, seed, turns, i, kept)
    decreases |turns|
  {
    if turns != [] {
      var init, last := turns[..|turns| - 1], |turns| - 1;
      SeedIsHandedOut(c, s, seed, init);
      LastHandsOut(c, s, seed, turns);
      var kept := RunWith(c, s, seed, turns).1;
      if !HandedOutAt(c, s, seed, turns, last, kept) && kept != seed {
        var i: nat :| HandedOutAt(c, s, seed, init, i, kept);
        EarlierHandsOut(c, s, seed, turns, i, kept);
      }
    }
  }

  /** Until a seed is handed out the application keeps its initial seed 0, whose key is 0. */
  lemma InitialKey()
    ensures KeyOf(0) == 0
  {
    SeedKey.ZeroStays(SeedKey.MASK, 32);
  }
}
