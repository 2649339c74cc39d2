/** Seed and key from end to end: the library's service, the application behind it, and the client's algorithm. */
module SecurityHandshake {
  import opened Prelude
  import opened Bytes
  import opened Clock
  import opened BigEndian
  import opened Uds
  import SeedKey

  /** seedToKey on a 32-bit number with the mask of server and client. */
  function KeyOf(seed: u32): u32 {
    SeedKey.Key(seed as bv32, SeedKey.MASK) as int
  }

  lemma WordBound(s: seq<byte>)
    requires |s| == 4
    ensures 0 <= Decode(s) < U32
  {
    DecodeBound(s);
    WordSize();
  }

  lemma WordSize()
    ensures Pow256(4) == U32
  {
    assert Pow256(2) == 65536 by {
      assert Pow256(1) == 256;
    }
    assert Pow256(3) == 16777216;
  }

  // ----- the application

  /** HandleRequestSeed: the seed it keeps and its answer; `random` is what /dev/urandom yields, if it can be opened. */
  function HandleRequestSeed(seed: u32, random: Option<seq<byte>>): (r: (u32, Answer))
    requires random.Some? ==> |random.value| == 4
  {
    if random.None? then (seed, Answer(GENERAL_REJECT, [], 0))
    else
      WordBound(random.value);
      (Decode(random.value), Answer(POSITIVE, random.value, 0))
  }

  /** HandleValidateKey. */
  function HandleValidateKey(seed: u32, key: seq<byte>): Answer {
    Answer(if |key| != 4 || Decode(key) != KeyOf(seed) then GENERAL_REJECT else POSITIVE, [], 0)
  }

  // ----- the client

  /** etas_algo. */
  function ClientKey(seed: seq<byte>): seq<byte>
    requires |seed| == 4
  {
    WordBound(seed);
    Encode(KeyOf(Decode(seed)), 4)
  }

  // ----- from end to end

  /** Four bytes are the encoding of a 32-bit number exactly if they decode to it. */
  lemma SameWord(key: seq<byte>, k: u32)
    ensures key == Encode(k, 4) <==> |key| == 4 && Decode(key) == k
  {
    WordSize();
    DecodeEncode(k, 4);
    if |key| == 4 {
      EncodeDecode(key);
    }
  }

  /** The two delays of the security access service have expired. */
  predicate DelaysOver(c: Clock, sec: Security, now: int) {
    After(c, now, sec.bootDelayTimer) && After(c, now, sec.authFailTimer)
  }

  /** The server hands out its seed. */
  lemma SeedIsHandedOut(c: Clock, x: Xfer, sec: Security, q: Request, now: int, seed: u32, random: seq<byte>)
    requires ValidRequest(q) && q.buf[1] % 2 == 1 && DelaysOver(c, sec, now) && |random| == 4
    requires q.buf[1] != sec.level
    ensures var (_, a) := HandleRequestSeed(seed, Some(random));
            SecurityAccess(c, x, sec, q, now, a)
            == Handled(x, sec, POSITIVE, [ResponseSid(SID_SECURITY_ACCESS), q.buf[1]] + random, true)
  {
  }

  /** The server that handed out a seed unlocks the level for exactly one key: the one that the client computes from the
      response. Any other key leaves the level and starts the delay. A key for a reserved level is not looked at. */
  lemma UnlocksForTheKeyOnly(c: Clock, x: Xfer, sec: Security, random: seq<byte>, before: u32, q: Request, now: int)
    requires ValidRequest(q) && q.len >= 2 && q.buf[1] % 2 == 0 && DelaysOver(c, sec, now) && |random| == 4
    ensures var (seed, _) := HandleRequestSeed(before, Some(random));
            var key := q.buf[2..q.len];
            var h := SecurityAccess(c, x, sec, q, now, HandleValidateKey(seed, key));
            && (h.code == POSITIVE <==> key == ClientKey(random) && !LevelIsReserved(q.buf[1]))
            && (h.code == POSITIVE ==> h.sec == sec.(level := q.buf[1] - 1))
            && (h.code != POSITIVE && !LevelIsReserved(q.buf[1]) ==>
                  h.code == GENERAL_REJECT && h.sec == sec.(authFailTimer := Plus(c, now, AUTH_FAIL_DELAY)))
            && (LevelIsReserved(q.buf[1]) ==> !h.asked && h.sec == sec)
  {
    WordBound(random);
    SameWord(q.buf[2..q.len], KeyOf(Decode(random)));
  }
}
