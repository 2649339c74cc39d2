/** The UpgradeServer object: its handlers update the seed and the firmware file in place. */
module UpgradeServers {
  import opened Prelude
  import opened Bytes
  import opened Clock
  import BigEndian
  import SeedKey
  import opened Uds
  import opened Upgrade
  import SecurityHandshake

  const SLASH: byte := 0x2F

  /** The part of the path from its last slash on, or all of it if it has none. */
  ghost predicate IsLastPart(path: seq<byte>, part: seq<byte>) {
    && |part| <= |path| && path[|path| - |part|..] == part
    && (forall i :: 1 <= i < |part| ==> part[i] != SLASH)
    && (|part| < |path| ==> part != [] && part[0] == SLASH)
  }

  class UpgradeServer {
    const dataPath: seq<byte>
    var seed: u32
    var fileName: seq<byte>
    var fileOpen: bool
    var fileContents: seq<byte>
    /** What became of the handles so far. */
    ghost var handles: Handles

    ghost function View(): App
      reads this
    {
      App(fileOpen, fileContents, false, handles)
    }

    constructor (dataPath: seq<byte>)
      ensures View() == App(false, [], false) && seed == 0 && this.dataPath == dataPath
    {
      this.dataPath := dataPath;
      seed, fileName, fileOpen, fileContents := 0, [], false, [];
      handles := Handles(0, 0, 0);
    }

    /** The file goes to the data directory under the last part of the requested path; fopen with mode "wb+" truncates
        it. */
    method HandleRequestFileTransfer(path: seq<byte>, w: World) returns (a: Answer)
      modifies this`fileName, this`fileOpen, this`fileContents, this`handles
      ensures (View(), a) == Upgrade.HandleRequestFileTransfer(old(View()), w)
      ensures |fileName| > |dataPath| && fileName[..|dataPath| + 1] == dataPath + [SLASH]
      ensures IsLastPart(path, fileName[|dataPath| + 1..])
    {
      var pos := |path|;
      while pos > 0 && path[pos - 1] != SLASH
        invariant 0 <= pos <= |path|
        invariant forall i :: pos <= i < |path| ==> path[i] != SLASH
      {
        pos := pos - 1;
      }
      var part := if pos > 0 then path[pos - 1..] else path;
      fileName := dataPath + [SLASH] + part;
      assert fileName[|dataPath| + 1..] == part;
      handles := Reopened(View(), w.opens);
      fileOpen := w.opens;
      if !fileOpen {
        return Answer(UPLOAD_DOWNLOAD_NOT_ACCEPTED, [], 0);
      }
      fileContents := [];
      return Answer(POSITIVE, [], MTU);
    }

    method HandleTransferData(data: seq<byte>, w: World) returns (a: Answer)
      modifies this`fileContents
      ensures (View(), a) == Upgrade.HandleTransferData(old(View()), data, w)
    {
      if !fileOpen {
        return Answer(GENERAL_PROGRAMMING_FAILURE, [], 0);
      }
      var size := Min(w.writable, |data|);
      fileContents := fileContents + data[..size];
      if size != |data| {
        return Answer(GENERAL_PROGRAMMING_FAILURE, [], 0);
      }
      return Answer(POSITIVE, [], 0);
    }

    /** fclose needs an open file; Upgrade.RunConserves shows that the library never calls this handler without one. */
    method HandleRequestTransferExit() returns (a: Answer)
      requires fileOpen
      modifies this`fileOpen, this`handles
      ensures (View(), a) == Upgrade.HandleRequestTransferExit(old(View()))
    {
      fileOpen := false;
      handles := handles.(closings := handles.closings + 1);
      return Answer(POSITIVE, [], 0);
    }

    method HandleRequestSeed(random: Option<seq<byte>>) returns (a: Answer)
      requires random.Some? ==> |random.value| == 4
      modifies this`seed
      ensures (seed, a) == SecurityHandshake.HandleRequestSeed(old(seed), random)
    {
      if random.None? {
        return Answer(GENERAL_REJECT, [], 0);
      }
      var buf := random.value;
      SecurityHandshake.WordBound(buf);
      seed := Word(buf);
      return Answer(POSITIVE, buf, 0);
    }

    method KeyOfSeed(seed: u32) returns (key: u32)
      ensures key == SecurityHandshake.KeyOf(seed)
    {
      var word := SeedKey.SeedToKey(seed as bv32, SeedKey.MASK);
      key := word as int;
    }

    method HandleValidateKey(reqKey: seq<byte>) returns (a: Answer)
      ensures a == SecurityHandshake.HandleValidateKey(seed, reqKey)
    {
      var key := KeyOfSeed(seed);
      if |reqKey| != 4 {
        return Answer(GENERAL_REJECT, [], 0);
      }
      if Word(reqKey) != key {
        return Answer(GENERAL_REJECT, [], 0);
      }
      return Answer(POSITIVE, [], 0);
    }
  }

  /** Four bytes shifted together are their big-endian number. */
  function Word(s: seq<byte>): (r: int)
    requires |s| == 4
    ensures r == BigEndian.Decode(s)
  {
    var b0: int, b1: int, b2: int, b3: int := s[0], s[1], s[2], s[3];
    assert s[..3][..2] == s[..2] && s[..2][..1] == s[..1] && s[..1][..0] == [];
    assert BigEndian.Decode(s[..1]) == b0;
    assert BigEndian.Decode(s[..2]) == b0 * 0x100 + b1;
    assert BigEndian.Decode(s[..3]) == b0 * 0x1_0000 + b1 * 0x100 + b2;
    b0 * 0x100_0000 + b1 * 0x1_0000 + b2 * 0x100 + b3
  }
}
