/** The C client's encoders for transfer requests, and what the server's decoders make of the messages. */
module Requests {
  import opened Prelude
  import opened Bytes
  import opened BigEndian
  import opened Uds
  import opened FileTransfer

  // ----- numbers

  /** `value >> (8 * i)`. */
  function Shifted(value: nat, i: nat): nat {
    if i == 0 then value else Shifted(value / 256, i - 1)
  }

  lemma {:induction false} ShiftedOnce(value: nat, i: nat)
    ensures Shifted(value, i + 1) == Shifted(value, i) / 256
  {
    if i > 0 {
      ShiftedOnce(value / 256, i - 1);
    }
  }

  /** The encoders' loop: the bytes of `value`, from byte width-1 down to byte 0. */
  method EncodeNumber(value: nat, width: nat) returns (bytes: seq<byte>)
    requires width <= 4
    ensures bytes == BigEndian.Encode(value, width)
  {
    bytes := [];
    var i := width;
    while i > 0
      invariant 0 <= i <= width
      invariant bytes == BigEndian.Encode(Shifted(value, i), width - i)
    {
      i := i - 1;
      ShiftedOnce(value, i);
      bytes := bytes + [Shifted(value, i) % 256];
    }
  }

  // ----- RequestDownload and RequestUpload

  /** A request for a download or an upload: widths of size and address in one byte, address, size. */
  function LoadRequest(sid: byte, format: byte, address: nat, addressLen: nat, size: nat, sizeLen: nat): (m: seq<byte>)
    requires 1 <= addressLen <= 8 && 1 <= sizeLen <= 8
    ensures |m| == 3 + addressLen + sizeLen
  {
    [sid, format, sizeLen * 16 + addressLen] + BigEndian.Encode(address, addressLen) + BigEndian.Encode(size, sizeLen)
  }

  /** UDSSendRequestDownload and UDSSendRequestUpload; they shift an int, which has four bytes. */
  method SendLoadRequest(sid: byte, format: byte, address: nat, addressLen: nat, size: nat, sizeLen: nat)
    returns (m: seq<byte>)
    requires 1 <= addressLen <= 4 && 1 <= sizeLen <= 4
    ensures m == LoadRequest(sid, format, address, addressLen, size, sizeLen)
  {
    m := [sid, format, sizeLen * 16 + addressLen];
    var a := EncodeNumber(address, addressLen);
    var s := EncodeNumber(size, sizeLen);
    m := m + a + s;
  }

  /** A window inside the message shows the message. */
  lemma WindowShows(q: Request, message: seq<byte>, at: nat, width: nat)
    requires Carries(q, message) && at + width <= |message|
    ensures Window(q, at, width) == message[at..at + width]
  {
    forall i | 0 <= i < width ensures Window(q, at, width)[i] == message[at + i] {
      assert q.buf[..q.len][at + i] == message[at + i];
    }
  }

  lemma ByteShows(q: Request, message: seq<byte>, i: nat)
    requires Carries(q, message) && i < |message|
    ensures q.buf[i] == message[i]
  {
    assert q.buf[..q.len][i] == message[i];
  }

  lemma LoadFields(sid: byte, format: byte, address: nat, addressLen: nat, size: nat, sizeLen: nat)
    requires 1 <= addressLen <= 8 && 1 <= sizeLen <= 8
    ensures HasNumbers(LoadRequest(sid, format, address, addressLen, size, sizeLen),
                       BigEndian.Encode(address, addressLen), BigEndian.Encode(size, sizeLen))
  {
  }

  /** What the server decodes from a complete message. */
  lemma LoadDecoded(q: Request, addressLen: nat, sizeLen: nat)
    requires ValidRequest(q) && 1 <= addressLen <= 8 && 1 <= sizeLen <= 8
    requires q.buf[2] == sizeLen * 16 + addressLen && q.len == 3 + addressLen + sizeLen
    ensures var d := DecodeAddressAndLength(q, 2);
            && d.Good? && d.address == BigEndian.Decode(Window(q, 3, addressLen))
            && d.size == BigEndian.Decode(Window(q, 3 + addressLen, sizeLen))
  {
    Nibbles(q.buf[2], sizeLen, addressLen);
  }

  lemma Nibbles(b: byte, high: nat, low: nat)
    requires b == high * 16 + low && low < 16
    ensures b / 16 == high && b % 16 == low
  {
  }

  /** A message with an address and a size of these bytes. */
  ghost predicate HasNumbers(m: seq<byte>, address: seq<byte>, size: seq<byte>) {
    && 1 <= |address| <= 8 && 1 <= |size| <= 8 && |m| == 3 + |address| + |size|
    && m[2] == |size| * 16 + |address|
    && m[3..3 + |address|] == address && m[3 + |address|..3 + |address| + |size|] == size
  }

  lemma NumbersRead(q: Request, m: seq<byte>, address: seq<byte>, size: seq<byte>)
    requires Carries(q, m) && HasNumbers(m, address, size)
    ensures DecodeAddressAndLength(q, 2) == Good(BigEndian.Decode(address), BigEndian.Decode(size))
  {
    ByteShows(q, m, 2);
    WindowShows(q, m, 3, |address|);
    WindowShows(q, m, 3 + |address|, |size|);
    LoadDecoded(q, |address|, |size|);
  }

  /** The server reads the client's address and size back, modulo what their widths hold. */
  lemma LoadRoundTrip(q: Request, sid: byte, format: byte, address: nat, addressLen: nat, size: nat, sizeLen: nat)
    requires 1 <= addressLen <= 8 && 1 <= sizeLen <= 8
    requires Carries(q, LoadRequest(sid, format, address, addressLen, size, sizeLen))
    ensures DecodeAddressAndLength(q, 2) == Good(address % Pow256(addressLen), size % Pow256(sizeLen))
  {
    var m := LoadRequest(sid, format, address, addressLen, size, sizeLen);
    LoadFields(sid, format, address, addressLen, size, sizeLen);
    NumbersRead(q, m, BigEndian.Encode(address, addressLen), BigEndian.Encode(size, sizeLen));
    DecodeEncode(address, addressLen);
    DecodeEncode(size, sizeLen);
  }

  // ----- a message that is one byte short

  /** Another request with the same message. */
  ghost predicate SameMessage(q: Request, q1: Request) {
    ValidRequest(q) && ValidRequest(q1) && q.len == q1.len && q.buf[..q.len] == q1.buf[..q1.len]
  }

  lemma SameWindow(q: Request, q1: Request, at: nat, width: nat)
    requires SameMessage(q, q1) && at + width <= q.len
    ensures Window(q, at, width) == Window(q1, at, width)
  {
    forall i | 0 <= i < width ensures Window(q, at, width)[i] == Window(q1, at, width)[i] {
      assert q.buf[..q.len][at + i] == q1.buf[..q1.len][at + i];
    }
  }

  /** The message alone determines what is decoded. */
  ghost predicate Decided(q: Request)
    requires ValidRequest(q)
  {
    forall q1 {:trigger SameMessage(q, q1)} ::
      SameMessage(q, q1) ==> DecodeAddressAndLength(q1, 2) == DecodeAddressAndLength(q, 2)
  }

  lemma CompleteIsDecided(q: Request, q1: Request)
    requires SameMessage(q, q1) && WidthsFine(q) && q.len >= 3 + q.buf[2] / 16 + q.buf[2] % 16
    ensures DecodeAddressAndLength(q1, 2) == DecodeAddressAndLength(q, 2)
  {
    var a, s := q.buf[2] % 16, q.buf[2] / 16;
    assert q.buf[..q.len][2] == q1.buf[..q1.len][2];
    SameWindow(q, q1, 3, a);
    SameWindow(q, q1, 3 + a, s);
  }

  lemma ShortIsUndecided(q: Request) returns (q1: Request)
    requires ValidRequest(q) && WidthsFine(q) && q.len == 2 + q.buf[2] / 16 + q.buf[2] % 16
    ensures SameMessage(q, q1) && DecodeAddressAndLength(q1, 2) != DecodeAddressAndLength(q, 2)
  {
    var a, s := q.buf[2] % 16, q.buf[2] / 16;
    q1 := q.(buf := q.buf[q.len := if q.buf[q.len] == 0 then 1 else 0]);
    assert q.buf[..q.len] == q1.buf[..q.len];
    LastByteCounts(q, q1, 3 + a, s);
  }

  /** The length check is one short: it accepts 2 + address + size bytes, where a complete message has one more. An
      accepted message decides what is decoded exactly if it is complete. One byte short, the last byte of the size is
      whatever the receive buffer held before. */
  lemma DecidedIffComplete(q: Request)
    requires ValidRequest(q) && q.len >= 3 && WidthsFine(q) && DecodeAddressAndLength(q, 2).Good?
    ensures Decided(q) <==> q.len >= 3 + q.buf[2] / 16 + q.buf[2] % 16
  {
    if q.len >= 3 + q.buf[2] / 16 + q.buf[2] % 16 {
      forall q1 | SameMessage(q, q1) ensures DecodeAddressAndLength(q1, 2) == DecodeAddressAndLength(q, 2) {
        CompleteIsDecided(q, q1);
      }
    } else {
      var q1 := ShortIsUndecided(q);
    }
  }

  lemma LastByteCounts(q: Request, q1: Request, at: nat, width: nat)
    requires ValidRequest(q) && ValidRequest(q1) && width > 0 && at + width <= MTU
    requires q.buf[at + width - 1] != q1.buf[at + width - 1] && q.buf[..at + width - 1] == q1.buf[..at + width - 1]
    ensures BigEndian.Decode(Window(q, at, width)) != BigEndian.Decode(Window(q1, at, width))
  {
    var w, w1 := Window(q, at, width), Window(q1, at, width);
    forall i | 0 <= i < width - 1 ensures w[i] == w1[i] {
      assert q.buf[..at + width - 1][at + i] == q1.buf[..at + width - 1][at + i];
    }
    assert w[..width - 1] == w1[..width - 1];
  }

  // ----- the announced block length

  /** UDSUnpackRequestDownloadResponse. It compares the announced width with the size of its result, not with the
      length of the response. */
  function UnpackBlockLength(r: seq<byte>): Option<nat> {
    if |r| < 2 || r[0] != ResponseSid(SID_REQUEST_DOWNLOAD) || r[1] / 16 > 8 then None
    else
      var width: nat := r[1] / 16;
      Some(BigEndian.Decode(seq<byte>(width, i requires 0 <= i => if 2 + i < |r| then r[2 + i] else 0)))
  }

  lemma TwoBytes()
    ensures Pow256(2) == 65536
  {
    assert Pow256(1) == 256;
  }

  /** The announcement of a length in two bytes is read back. */
  lemma AnnouncementRecovered(r: seq<byte>, length: nat)
    requires length < 65536 && r == [ResponseSid(SID_REQUEST_DOWNLOAD), 0x20] + BigEndian.Encode(length, 2)
    ensures UnpackBlockLength(r) == Some(length)
  {
    assert seq<byte>(2, i requires 0 <= i => if 2 + i < |r| then r[2 + i] else 0) == BigEndian.Encode(length, 2);
    TwoBytes();
    DecodeEncode(length, 2);
  }

  /** The client recovers the block length that the server grants; the server never grants more than a message holds. */
  lemma BlockLengthRecovered(x: Xfer, sec: Security, q: Request, a: Answer)
    requires ValidRequest(q) && RequestLoad(SID_REQUEST_DOWNLOAD, x, sec, q, a).code == POSITIVE
    ensures UnpackBlockLength(RequestLoad(SID_REQUEST_DOWNLOAD, x, sec, q, a).response) == Some(Min(a.blockLength, MTU))
    ensures a.blockLength >= 3
  {
    AnnouncementRecovered(RequestLoad(SID_REQUEST_DOWNLOAD, x, sec, q, a).response, Min(a.blockLength, MTU));
  }

  lemma RequestLoadGrants(sid: byte, x: Xfer, sec: Security, q: Request, a: Answer, address: nat, size: nat)
    requires ValidRequest(q) && q.len >= 3 && DecodeAddressAndLength(q, 2) == Good(address, size)
    ensures var h := RequestLoad(sid, x, sec, q, a);
            && (h.code == POSITIVE <==> !x.active && a.code == POSITIVE && a.blockLength >= 3)
            && h.xfer == (if h.code == POSITIVE then Xfer(true, 1, size, 0, a.blockLength) else x)
            && (h.asked <==> !x.active)
  {
  }

  /** A complete request for a download is granted exactly if no transfer is active and the application agrees to a
      block length of at least 3; then the server expects the size that the client sent, and block 1. */
  lemma GrantedIff(q: Request, x: Xfer, sec: Security, a: Answer, format: byte, address: nat, addressLen: nat,
                   size: nat, sizeLen: nat)
    requires 1 <= addressLen <= 8 && 1 <= sizeLen <= 8 && size < Pow256(sizeLen)
    requires Carries(q, LoadRequest(SID_REQUEST_DOWNLOAD, format, address, addressLen, size, sizeLen))
    ensures var h := RequestLoad(SID_REQUEST_DOWNLOAD, x, sec, q, a);
            && (h.code == POSITIVE <==> !x.active && a.code == POSITIVE && a.blockLength >= 3)
            && h.xfer == if h.code == POSITIVE then Xfer(true, 1, size, 0, a.blockLength) else x
  {
    LoadRoundTrip(q, SID_REQUEST_DOWNLOAD, format, address, addressLen, size, sizeLen);
    Unique(size, Pow256(sizeLen), 0, size);
    RequestLoadGrants(SID_REQUEST_DOWNLOAD, x, sec, q, a, address % Pow256(addressLen), size);
  }

  // ----- RequestFileTransfer

  predicate HasSizes(mode: byte) {
    mode == ADD_FILE || mode == REPLACE_FILE
  }

  predicate HasFormat(mode: byte) {
    HasSizes(mode) || mode == READ_FILE
  }

  function FileHeader(mode: byte, path: seq<byte>): (m: seq<byte>)
    requires |path| < 65536
    ensures |m| == 4 + |path|
  {
    [SID_REQUEST_FILE_TRANSFER, mode, |path| / 256, |path| % 256] + path
  }

  /** A RequestFileTransfer message that announces sizes. */
  function FileRequestMessage(mode: byte, path: seq<byte>, format: byte, width: nat, uncompressed: nat, compressed: nat)
    : (m: seq<byte>)
    requires 1 <= |path| < 65536 && width <= 8
    ensures |m| == 6 + |path| + 2 * width
  {
    FileHeader(mode, path) + [format, width]
    + BigEndian.Encode(uncompressed, width) + BigEndian.Encode(compressed, width)
  }

  /** The message that the C client makes of a mode without sizes: one byte longer than its fields, that byte being
      what the send buffer held. */
  function PlainFileRequest(mode: byte, path: seq<byte>, format: byte, stale: byte): (m: seq<byte>)
    requires 1 <= |path| < 65536
    ensures |m| == 5 + |path| + if HasFormat(mode) then 1 else 0
  {
    FileHeader(mode, path) + (if HasFormat(mode) then [format] else []) + [stale]
  }

  /** UDSSendRequestFileTransfer, for a send buffer of MTU bytes. The length of the path is kept in sixteen bits, and
      only as many of its bytes are sent; the C client encodes at most four bytes of a size. */
  method SendFileRequest(mode: byte, path: seq<byte>, format: byte, width: nat, uncompressed: nat, compressed: nat,
                         stale: byte)
    returns (m: Option<seq<byte>>)
    requires width <= 4
    ensures var sent := path[..|path| % 65536];
            && (m.Some? <==>
                  |sent| >= 1
                  && 5 + |sent| + (if HasSizes(mode) then 2 * width else 0) + (if HasFormat(mode) then 1 else 0) <= MTU)
            && (m.Some? ==>
                  m.value == if HasSizes(mode)
                             then FileRequestMessage(mode, sent, format, width, uncompressed, compressed)
                             else PlainFileRequest(mode, sent, format, stale))
  {
    var filePathLen := |path| % 65536;
    if filePathLen < 1 {
      return None;
    }
    var fileSizeBytes := if HasSizes(mode) then width else 0;
    var bufSize := 5 + filePathLen + fileSizeBytes + fileSizeBytes;
    if HasFormat(mode) {
      bufSize := bufSize + 1;
    }
    if MTU < bufSize {
      return None;
    }
    var buf := [SID_REQUEST_FILE_TRANSFER, mode, filePathLen / 256, filePathLen % 256] + path[..filePathLen];
    if HasFormat(mode) {
      buf := buf + [format];
    }
    if HasSizes(mode) {
      var u := EncodeNumber(uncompressed, width);
      var c := EncodeNumber(compressed, width);
      assert buf + [width] == FileHeader(mode, path[..filePathLen]) + [format, width];
      buf := buf + [width] + u + c;
    } else {
      buf := buf + [stale];
    }
    return Some(buf);
  }

  /** What the server parses. */
  lemma FileRequestParsed(q: Request, pathLen: nat, width: nat)
    requires ValidRequest(q) && HasSizes(q.buf[1]) && width <= 8
    requires PathLength(q) == pathLen && At(q, 5 + pathLen) == width
    ensures var f := ParseFileRequest(q);
            && f.FileRequest? && f.mode == q.buf[1] && f.path == Window(q, 4, pathLen) && f.format == At(q, 4 + pathLen)
            && f.uncompressed == BigEndian.Decode(Window(q, 6 + pathLen, width))
            && f.compressed == BigEndian.Decode(Window(q, 6 + pathLen + width, width))
  {
  }

  /** A message with the given fields. */
  ghost predicate HasFields(m: seq<byte>, mode: byte, path: seq<byte>, format: byte, u: seq<byte>, c: seq<byte>) {
    var p, width := |path|, |u|;
    && |c| == width && p < 65536 && |m| == 6 + p + 2 * width
    && m[1] == mode && m[2] == p / 256 && m[3] == p % 256 && m[4..4 + p] == path
    && m[4 + p] == format && m[5 + p] == width
    && m[6 + p..6 + p + width] == u && m[6 + p + width..6 + p + width + width] == c
  }

  lemma FileRequestFields(mode: byte, path: seq<byte>, format: byte, width: nat, uncompressed: nat, compressed: nat)
    requires 1 <= |path| < 65536 && width <= 8
    ensures HasFields(FileRequestMessage(mode, path, format, width, uncompressed, compressed), mode, path, format,
                      BigEndian.Encode(uncompressed, width), BigEndian.Encode(compressed, width))
  {
  }

  lemma HeaderShows(q: Request, m: seq<byte>, mode: byte, path: seq<byte>, format: byte, u: seq<byte>, c: seq<byte>)
    requires Carries(q, m) && HasFields(m, mode, path, format, u, c)
    ensures var p := |path|;
            && q.buf[1] == mode && PathLength(q) == p
            && At(q, 4 + p) == format && At(q, 5 + p) == |u|
  {
    ByteShows(q, m, 1);
    ByteShows(q, m, 2);
    ByteShows(q, m, 3);
    ByteShows(q, m, 4 + |path|);
    ByteShows(q, m, 5 + |path|);
  }

  lemma WindowsShow(q: Request, m: seq<byte>, mode: byte, path: seq<byte>, format: byte, u: seq<byte>, c: seq<byte>)
    requires Carries(q, m) && HasFields(m, mode, path, format, u, c)
    ensures Window(q, 4, |path|) == path && Window(q, 6 + |path|, |u|) == u && Window(q, 6 + |path| + |u|, |u|) == c
  {
    WindowShows(q, m, 4, |path|);
    WindowShows(q, m, 6 + |path|, |u|);
    WindowShows(q, m, 6 + |path| + |u|, |u|);
  }

  /** The receive buffer shows these fields. */
  ghost predicate Shows(q: Request, mode: byte, path: seq<byte>, format: byte, u: seq<byte>, c: seq<byte>) {
    var p, width := |path|, |u|;
    && ValidRequest(q) && |c| == width && q.buf[1] == mode && PathLength(q) == p
    && At(q, 4 + p) == format && At(q, 5 + p) == width
    && Window(q, 4, p) == path && Window(q, 6 + p, width) == u && Window(q, 6 + p + width, width) == c
  }

  lemma FieldsShow(q: Request, m: seq<byte>, mode: byte, path: seq<byte>, format: byte, u: seq<byte>, c: seq<byte>)
    requires Carries(q, m) && HasFields(m, mode, path, format, u, c)
    ensures Shows(q, mode, path, format, u, c)
  {
    HeaderShows(q, m, mode, path, format, u, c);
    WindowsShow(q, m, mode, path, format, u, c);
  }

  lemma FieldsRead(q: Request, m: seq<byte>, mode: byte, path: seq<byte>, format: byte, u: seq<byte>, c: seq<byte>)
    requires Carries(q, m) && HasFields(m, mode, path, format, u, c) && HasSizes(mode) && |u| <= 8
    ensures ParseFileRequest(q) == FileRequest(mode, path, format, BigEndian.Decode(u), BigEndian.Decode(c))
  {
    FieldsShow(q, m, mode, path, format, u, c);
    ParsedAsShown(q, mode, path, format, u, c);
  }

  lemma ParsedAsShown(q: Request, mode: byte, path: seq<byte>, format: byte, u: seq<byte>, c: seq<byte>)
    requires Shows(q, mode, path, format, u, c) && HasSizes(mode) && |u| <= 8
    ensures ParseFileRequest(q) == FileRequest(mode, path, format, BigEndian.Decode(u), BigEndian.Decode(c))
  {
    FileRequestParsed(q, |path|, |u|);
    ShownRead(ParseFileRequest(q), q, mode, path, format, u, c);
  }

  /** A request parsed from what the buffer shows. */
  lemma ShownRead(f: FileRequest, q: Request, mode: byte, path: seq<byte>, format: byte, u: seq<byte>, c: seq<byte>)
    requires Shows(q, mode, path, format, u, c)
    requires f.FileRequest? && f.mode == q.buf[1] && f.path == Window(q, 4, |path|) && f.format == At(q, 4 + |path|)
    requires f.uncompressed == BigEndian.Decode(Window(q, 6 + |path|, |u|))
    requires f.compressed == BigEndian.Decode(Window(q, 6 + |path| + |u|, |u|))
    ensures f == FileRequest(mode, path, format, BigEndian.Decode(u), BigEndian.Decode(c))
  {
  }

  /** The server reads back mode, path, format and both sizes, the sizes modulo what their width holds. */
  lemma FileRequestRoundTrip(q: Request, mode: byte, path: seq<byte>, format: byte, width: nat, uncompressed: nat,
                             compressed: nat)
    requires 1 <= |path| < 65536 && width <= 8 && HasSizes(mode)
    requires Carries(q, FileRequestMessage(mode, path, format, width, uncompressed, compressed))
    ensures ParseFileRequest(q)
            == FileRequest(mode, path, format, uncompressed % Pow256(width), compressed % Pow256(width))
  {
    var m := FileRequestMessage(mode, path, format, width, uncompressed, compressed);
    var u, c := BigEndian.Encode(uncompressed, width), BigEndian.Encode(compressed, width);
    FileRequestFields(mode, path, format, width, uncompressed, compressed);
    FieldsRead(q, m, mode, path, format, u, c);
    DecodeEncode(uncompressed, width);
    DecodeEncode(compressed, width);
  }

  lemma PlainParsed(q: Request, pathLen: nat)
    requires ValidRequest(q) && !HasSizes(q.buf[1]) && PathLength(q) == pathLen
    ensures ParseFileRequest(q)
            == FileRequest(q.buf[1], Window(q, 4, pathLen), if HasFormat(q.buf[1]) then At(q, 4 + pathLen) else 0, 0, 0)
  {
  }

  /** For the other modes it reads back mode and path, and the format of a file to be read. */
  lemma PlainRoundTrip(q: Request, mode: byte, path: seq<byte>, format: byte, stale: byte)
    requires 1 <= |path| < 65536 && !HasSizes(mode) && Carries(q, PlainFileRequest(mode, path, format, stale))
    ensures ParseFileRequest(q) == FileRequest(mode, path, if HasFormat(mode) then format else 0, 0, 0)
  {
    var m, p := PlainFileRequest(mode, path, format, stale), |path|;
    assert m[4..4 + p] == path;
    ByteShows(q, m, 1);
    ByteShows(q, m, 2);
    ByteShows(q, m, 3);
    WindowShows(q, m, 4, p);
    PlainParsed(q, p);
    if HasFormat(mode) {
      ByteShows(q, m, 4 + p);
    }
  }

  /** Such a message opens a file transfer of `source`, as the theorems about whole transfers ask for. */
  lemma FileRequestOpens(source: seq<byte>, path: seq<byte>, width: nat)
    requires 1 <= |path| && 6 + |path| + 2 * width <= MTU && width <= 8 && |source| < Pow256(width)
    ensures Opens(source, FileRequestMessage(ADD_FILE, path, 0, width, |source|, |source|))
  {
    var open := FileRequestMessage(ADD_FILE, path, 0, width, |source|, |source|);
    forall q | Carries(q, open)
      ensures ParseFileRequest(q).FileRequest? && ParseFileRequest(q).compressed == |source|
    {
      FileRequestRoundTrip(q, ADD_FILE, path, 0, width, |source|, |source|);
      Unique(|source|, Pow256(width), 0, |source|);
    }
  }
}
