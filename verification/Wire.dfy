/**
  Fixed-width integers and the big-endian conversions of `encoding/binary`, as the
  frame head of the tRPC protocol uses them.
 */
module Bytes {
  type byte = x: int | 0 <= x < 0x100
  type uint16 = x: int | 0 <= x < 0x1_0000
  type uint32 = x: int | 0 <= x < 0x1_0000_0000
  type int32 = x: int | -0x8000_0000 <= x < 0x8000_0000

  const MaxUint16 := 0xFFFF
  const MaxUint32 := 0xFFFF_FFFF

  /** The conversion `uint32(x)` of a wider integer: reduction modulo 2^32. */
  function U32(x: int): uint32 {
    x % 0x1_0000_0000
  }

  function BigEndian16(v: uint16): (s: seq<byte>)
    ensures |s| == 2
  {
    [v / 0x100, v % 0x100]
  }

  function BigEndian32(v: uint32): (s: seq<byte>)
    ensures |s| == 4
  {
    [v / 0x100_0000, v / 0x1_0000 % 0x100, v / 0x100 % 0x100, v % 0x100]
  }

  function Uint16(s: seq<byte>): (v: uint16)
    requires |s| == 2
    ensures BigEndian16(v) == s
  {
    s[0] as int * 0x100 + s[1]
  }

  function Uint32(s: seq<byte>): (v: uint32)
    requires |s| == 4
    ensures BigEndian32(v) == s
  {
    var v := s[0] as int * 0x100_0000 + s[1] as int * 0x1_0000 + s[2] as int * 0x100 + s[3];
    assert v / 0x100 == s[0] as int * 0x1_0000 + s[1] as int * 0x100 + s[2];
    assert v / 0x1_0000 == s[0] as int * 0x100 + s[1];
    assert v / 0x100_0000 == s[0];
    v
  }

  lemma Uint16OfBigEndian(v: uint16)
    ensures Uint16(BigEndian16(v)) == v
  {
  }

  lemma Uint32OfBigEndian(v: uint32)
    ensures Uint32(BigEndian32(v)) == v
  {
    var a, b, c := v / 0x100, v / 0x1_0000, v / 0x100_0000;
    assert a / 0x100 == b && b / 0x100 == c;
    assert v == a * 0x100 + v % 0x100 && a == b * 0x100 + a % 0x100 && b == c * 0x100 + b % 0x100;
  }
}

/** Results, optional values and the little text formatting the error messages need. */
module Outcomes {
  datatype Option<+T> = None | Some(value: T)

  datatype Result<+T, +E> = Ok(value: T) | Err(error: E)

  /** Decimal rendering, as `strconv.Itoa` gives it. */
  function Itoa(n: int): (s: string)
    ensures |s| >= 1
    decreases if n < 0 then 1 - n else n
  {
    if n < 0 then "-" + Itoa(-n)
    else if n < 10 then ["0123456789"[n]]
    else Itoa(n / 10) + ["0123456789"[n % 10]]
  }

  predicate IsDigit(c: char) {
    '0' <= c <= '9'
  }

  /** The number a string of decimal digits stands for. */
  function ValueOf(s: string): int
    requires forall i | 0 <= i < |s| :: IsDigit(s[i])
  {
    if s == "" then 0 else 10 * ValueOf(s[..|s| - 1]) + (s[|s| - 1] as int - '0' as int)
  }

  /** Itoa writes the digits of a number, without leading zeros. */
  lemma {:induction false} ItoaRoundTrip(n: nat)
    ensures forall i | 0 <= i < |Itoa(n)| :: IsDigit(Itoa(n)[i])
    ensures ValueOf(Itoa(n)) == n
    ensures n > 0 ==> Itoa(n)[0] != '0'
    decreases n
  {
    var s := Itoa(n);
    var d := n % 10;
    assert "0123456789"[d] as int - '0' as int == d && IsDigit("0123456789"[d]);
    if n < 10 {
      assert s[..0] == "" && s[0] == "0123456789"[n];
      assert ValueOf(s) == 10 * ValueOf("") + (s[0] as int - '0' as int);
    } else {
      ItoaRoundTrip(n / 10);
      assert s[..|s| - 1] == Itoa(n / 10) && s[|s| - 1] == "0123456789"[d];
    }
  }
}

/**
  The 16-byte frame head, `construct` and `extract`, and the framer that cuts a byte
  stream into frames (codec.go).
 */
module Wire {
  import opened Bytes
  import opened Outcomes

  const FrameHeadLen := 16
  const Magic: uint16 := 0x930
  const UnaryFrame: byte := 0
  const StreamFrame: byte := 1
  const CurProtocolVersion: byte := 1

  /** The value of a FrameHead struct. */
  datatype Head = Head(
    frameType: byte,
    streamFrameType: byte,
    totalLen: uint32,
    headerLen: uint16,
    streamID: uint32,
    protocolVersion: byte,
    reserved: byte)

  const DefaultUnaryHead := Head(UnaryFrame, 0, 0, 0, 0, CurProtocolVersion, 0)

  datatype WireError =
    | HeadOverflowsUint16
    | AttachmentOverflowsUint32
    | FrameTooLarge(maxFrameSize: int)
    | TotalOverflowsUint32
    | EndOfStream
    | BadMagic
    | BadLength

  function ErrorText(e: WireError): string {
    match e
    case HeadOverflowsUint16 => "head len overflows uint16"
    case AttachmentOverflowsUint32 => "attachment len overflows uint32"
    case FrameTooLarge(max) => "frame len is larger than MaxFrameSize(" + Itoa(max) + ")"
    case TotalOverflowsUint32 => "total len overflows uint32"
    case EndOfStream => "EOF"
    case BadMagic => "trpc framer: read framer head magic, not match"
    case BadLength => "trpc framer: read frame header total len, invalid"
  }

  // ------------------------------------------------------------------ specification

  /** The sixteen head bytes of a frame. */
  function HeadBytes(h: Head): (s: seq<byte>)
    ensures |s| == FrameHeadLen
  {
    BigEndian16(Magic) + [h.frameType, h.streamFrameType] + BigEndian32(h.totalLen) +
    BigEndian16(h.headerLen) + BigEndian32(h.streamID) + [h.protocolVersion, h.reserved]
  }

  /** The fields `extract` reads; the magic number is not among them. */
  function ParseHead(buf: seq<byte>): Head
    requires |buf| >= FrameHeadLen
  {
    Head(buf[2], buf[3], Uint32(buf[4..8]), Uint16(buf[8..10]), Uint32(buf[10..14]), buf[14], buf[15])
  }

  function TotalLen(header: seq<byte>, body: seq<byte>, attachment: seq<byte>): nat {
    FrameHeadLen + |header| + |body| + |attachment|
  }

  /** What `construct` promises: the size checks in their order, then head and payload. */
  function Constructed(h: Head, header: seq<byte>, body: seq<byte>, attachment: seq<byte>, maxFrameSize: int)
    : Result<seq<byte>, WireError>
  {
    var total := TotalLen(header, body, attachment);
    if |header| > MaxUint16 then Err(HeadOverflowsUint16)
    else if |attachment| > MaxUint32 then Err(AttachmentOverflowsUint32)
    else if total > maxFrameSize then Err(FrameTooLarge(maxFrameSize))
    else if total > MaxUint32 then Err(TotalOverflowsUint32)
    else Ok(HeadBytes(h.(totalLen := total, headerLen := |header|)) + header + body + attachment)
  }

  /** What one `ReadFrame` promises on the bytes still to come: the frame and the rest. */
  function Framed(input: seq<byte>, maxFrameSize: int): Result<(seq<byte>, seq<byte>), WireError> {
    if |input| < FrameHeadLen then Err(EndOfStream)
    else if Uint16(input[..2]) != Magic then Err(BadMagic)
    else
      var total := Uint32(input[4..8]);
      if total < FrameHeadLen || total > U32(maxFrameSize) then Err(BadLength)
      else if |input| < total then Err(EndOfStream)
      else Ok((input[..total], input[total..]))
  }

  // ------------------------------------------------------------------ code

  class FrameHead {
    var frameType: byte
    var streamFrameType: byte
    var totalLen: uint32
    var headerLen: uint16
    var streamID: uint32
    var protocolVersion: byte
    var reserved: byte

    ghost function View(): Head
      reads this
    {
      Head(frameType, streamFrameType, totalLen, headerLen, streamID, protocolVersion, reserved)
    }

    constructor DefaultUnary()
      ensures View() == DefaultUnaryHead
    {
      frameType, streamFrameType := UnaryFrame, 0;
      totalLen, headerLen, streamID := 0, 0, 0;
      protocolVersion, reserved := CurProtocolVersion, 0;
    }

    method Extract(buf: seq<byte>)
      requires |buf| >= FrameHeadLen
      modifies this
      ensures View() == ParseHead(buf)
    {
      frameType := buf[2];
      streamFrameType := buf[3];
      totalLen := Uint32(buf[4..8]);
      headerLen := Uint16(buf[8..10]);
      streamID := Uint32(buf[10..14]);
      protocolVersion := buf[14];
      reserved := buf[15];
    }

    method UpgradeProtocol(version: byte, requestID: uint32)
      modifies this`protocolVersion, this`streamID
      ensures View() == old(View()).(protocolVersion := version, streamID := requestID)
    {
      protocolVersion := version;
      streamID := requestID;
    }

    /** Writes the sixteen head bytes into a buffer, field by field. */
    method FillHead(buf: array<byte>, total: uint32, headerLength: uint16)
      requires buf.Length >= FrameHeadLen
      modifies buf
      ensures buf[..FrameHeadLen] == HeadBytes(View().(totalLen := total, headerLen := headerLength))
    {
      CopyInto(buf, 0, BigEndian16(Magic));
      CopyInto(buf, 2, [frameType, streamFrameType]);
      CopyInto(buf, 4, BigEndian32(total));
      CopyInto(buf, 8, BigEndian16(headerLength));
      CopyInto(buf, 10, BigEndian32(streamID));
      CopyInto(buf, 14, [protocolVersion, reserved]);
    }

    /** Fills one freshly made buffer in place: head fields, then the three payload parts. */
    method Construct(header: seq<byte>, body: seq<byte>, attachment: seq<byte>, maxFrameSize: int)
      returns (r: Result<seq<byte>, WireError>)
      ensures r == Constructed(View(), header, body, attachment, maxFrameSize)
    {
      var headerLength := |header|;
      if headerLength > MaxUint16 {
        return Err(HeadOverflowsUint16);
      }
      var attachmentLength := |attachment|;
      if attachmentLength > MaxUint32 {
        return Err(AttachmentOverflowsUint32);
      }
      var total := FrameHeadLen + headerLength + |body| + attachmentLength;
      if total > maxFrameSize {
        return Err(FrameTooLarge(maxFrameSize));
      }
      if total > MaxUint32 {
        return Err(TotalOverflowsUint32);
      }
      var buf := new byte[total];
      FillHead(buf, total, headerLength);
      CopyInto(buf, FrameHeadLen, header);
      CopyInto(buf, FrameHeadLen + headerLength, body);
      CopyInto(buf, FrameHeadLen + headerLength + |body|, attachment);
      assert buf[..] == buf[..total];
      return Ok(buf[..]);
    }
  }

  /** Go's `copy(buf[at:], src)` where the source fits. */
  method CopyInto(buf: array<byte>, at: nat, src: seq<byte>)
    requires at + |src| <= buf.Length
    modifies buf
    ensures buf[..at + |src|] == old(buf[..at]) + src
    ensures buf[at + |src|..] == old(buf[at + |src|..])
  {
    forall i | 0 <= i < |src| {
      buf[at + i] := src[i];
    }
  }

  lemma TakeSplit(s: seq<byte>, k: nat, n: nat)
    requires k <= n <= |s|
    ensures s[..n] == s[..k] + s[k..][..n - k]
    ensures s[n..] == s[k..][n - k..]
  {
  }

  /** An `io.Reader` over the bytes that have not been consumed yet. */
  class Reader {
    var pending: seq<byte>

    constructor (input: seq<byte>)
      ensures pending == input
    {
      pending := input;
    }

    /** `io.ReadFull` into dst[from:]: a short stream is consumed and reported. */
    method ReadFull(dst: array<byte>, from: nat) returns (ok: bool)
      requires from <= dst.Length
      modifies this, dst
      ensures ok == (dst.Length - from <= |old(pending)|)
      ensures ok ==> dst[from..] == old(pending)[..dst.Length - from]
      ensures pending == if ok then old(pending)[dst.Length - from..] else []
    {
      var n := dst.Length - from;
      if |pending| < n {
        pending := [];
        return false;
      }
      CopyInto(dst, from, pending[..n]);
      pending := pending[n..];
      return true;
    }
  }

  class Framer {
    const reader: Reader
    const header: array<byte>
    const maxFrameSize: int

    ghost predicate Valid() {
      header.Length == FrameHeadLen
    }

    constructor (reader: Reader, maxFrameSize: int)
      ensures Valid() && this.reader == reader && this.maxFrameSize == maxFrameSize && fresh(header)
    {
      this.reader := reader;
      this.maxFrameSize := maxFrameSize;
      this.header := new byte[FrameHeadLen];
    }

    method ReadFrame() returns (r: Result<seq<byte>, WireError>)
      requires Valid()
      modifies reader, header
      ensures match Framed(old(reader.pending), maxFrameSize)
              case Ok((frame, rest)) => r == Ok(frame) && reader.pending == rest
              case Err(e) =>
                && r == Err(e)
                && reader.pending == if e == EndOfStream then [] else old(reader.pending)[FrameHeadLen..]
    {
      ghost var input := reader.pending;
      var total := ReadTotal();
      if total.Err? {
        return Err(total.error);
      }
      var frame := ReadPayload(total.value);
      if frame.None? {
        return Err(EndOfStream);
      }
      TakeSplit(input, FrameHeadLen, total.value);
      return Ok(frame.value);
    }

    /** The second read of ReadFrame: the payload goes behind a copy of the header. */
    method ReadPayload(total: nat) returns (r: Option<seq<byte>>)
      requires Valid() && total >= FrameHeadLen
      modifies reader
      ensures var input := old(reader.pending);
              var n := total - FrameHeadLen;
              if |input| < n then r == None && reader.pending == []
              else r == Some(header[..] + input[..n]) && reader.pending == input[n..]
    {
      var msg := new byte[total];
      var ok := reader.ReadFull(msg, FrameHeadLen);
      if !ok {
        return None;
      }
      ghost var payload := msg[FrameHeadLen..];
      CopyInto(msg, 0, header[..]);
      assert msg[..FrameHeadLen] == header[..] && msg[FrameHeadLen..] == payload;
      assert msg[..] == header[..] + payload;
      return Some(msg[..]);
    }

    /** The first read of ReadFrame: sixteen bytes into the header, and the length they announce. */
    method ReadTotal() returns (r: Result<uint32, WireError>)
      requires Valid()
      modifies reader, header
      ensures var input := old(reader.pending);
              r == if |input| < FrameHeadLen then Err(EndOfStream)
                   else if Uint16(input[..2]) != Magic then Err(BadMagic)
                   else
                     var total := Uint32(input[4..8]);
                     if total < FrameHeadLen || total > U32(maxFrameSize) then Err(BadLength) else Ok(total)
      ensures |old(reader.pending)| >= FrameHeadLen ==>
        header[..] == old(reader.pending)[..FrameHeadLen] && reader.pending == old(reader.pending)[FrameHeadLen..]
      ensures |old(reader.pending)| < FrameHeadLen ==> reader.pending == []
    {
      ghost var input := reader.pending;
      var ok := reader.ReadFull(header, 0);
      if !ok {
        return Err(EndOfStream);
      }
      assert header[..] == header[0..] == input[..FrameHeadLen];
      assert header[..2] == header[..][..2] && header[4..8] == header[..][4..8];
      if Uint16(header[..2]) != Magic {
        return Err(BadMagic);
      }
      var total := Uint32(header[4..8]);
      if total < FrameHeadLen {
        return Err(BadLength);
      }
      if total > U32(maxFrameSize) {
        return Err(BadLength);
      }
      return Ok(total);
    }

    /** `FramerBuilder.Parse`: a frame together with the id the multiplexer routes it by. */
    method Parse() returns (r: Result<(uint32, seq<byte>), WireError>)
      requires Valid()
      modifies reader, header
      ensures match Framed(old(reader.pending), maxFrameSize)
              case Ok((frame, rest)) =>
                && FrameHeadLen <= |frame|
                && r == Ok((ParseHead(frame).streamID, frame))
                && reader.pending == rest
              case Err(e) =>
                && r == Err(e)
                && reader.pending == if e == EndOfStream then [] else old(reader.pending)[FrameHeadLen..]
    {
      var f := ReadFrame();
      match f
      case Ok(frame) => r := Ok((Uint32(frame[10..14]), frame));
      case Err(e) => r := Err(e);
    }
  }

  /** One frame through a framer, with more bytes behind it on the connection. */
  method Transmit(frame: seq<byte>, behind: seq<byte>, maxFrameSize: int) returns (r: Result<seq<byte>, WireError>)
    ensures match Framed(frame + behind, maxFrameSize)
            case Ok((f, _)) => r == Ok(f)
            case Err(e) => r == Err(e)
  {
    var reader := new Reader(frame + behind);
    var framer := new Framer(reader, maxFrameSize);
    r := framer.ReadFrame();
  }

  // ------------------------------------------------------------------ laws

  /** A 32-bit field, most significant byte first. */
  function Read32(s: seq<byte>, at: nat): int
    requires at + 4 <= |s|
  {
    s[at] as int * 0x100_0000 + s[at + 1] as int * 0x1_0000 + s[at + 2] as int * 0x100 + s[at + 3]
  }

  /** The head byte for byte, as the protocol lays it out. */
  lemma HeadLayout(h: Head)
    ensures var s := HeadBytes(h);
            && s[0] == 0x09 && s[1] == 0x30
            && s[2] == h.frameType && s[3] == h.streamFrameType
            && Read32(s, 4) == h.totalLen
            && s[8] as int * 0x100 + s[9] == h.headerLen
            && Read32(s, 10) == h.streamID
            && s[14] == h.protocolVersion && s[15] == h.reserved
  {
    Uint32OfBigEndian(h.totalLen);
    Uint32OfBigEndian(h.streamID);
  }

  /** When a frame is delivered, byte for byte, and what each refusal means. */
  lemma FramedIff(input: seq<byte>, max: int)
    ensures Framed(input, max).Ok? <==>
      && |input| >= 16 && input[0] == 0x09 && input[1] == 0x30
      && 16 <= Read32(input, 4) <= U32(max) && Read32(input, 4) <= |input|
    ensures Framed(input, max) == Err(BadMagic) <==> |input| >= 16 && (input[0] != 0x09 || input[1] != 0x30)
    ensures Framed(input, max) == Err(BadLength) <==>
      && |input| >= 16 && input[0] == 0x09 && input[1] == 0x30
      && (Read32(input, 4) < 16 || Read32(input, 4) > U32(max))
    ensures Framed(input, max).Ok? || Framed(input, max) in {Err(EndOfStream), Err(BadMagic), Err(BadLength)}
  {
    if |input| >= 16 {
      assert Uint16(input[..2]) == input[0] as int * 0x100 + input[1];
      assert Uint32(input[4..8]) == Read32(input, 4);
    }
  }

  /** `extract` undoes the head `construct` writes. */
  lemma ParseHeadBytes(h: Head, payload: seq<byte>)
    ensures ParseHead(HeadBytes(h) + payload) == h
    ensures Uint16((HeadBytes(h) + payload)[..2]) == Magic
  {
    var buf := HeadBytes(h) + payload;
    assert buf[..2] == BigEndian16(Magic);
    assert buf[4..8] == BigEndian32(h.totalLen);
    assert buf[8..10] == BigEndian16(h.headerLen);
    assert buf[10..14] == BigEndian32(h.streamID);
    Uint16OfBigEndian(Magic);
    Uint32OfBigEndian(h.totalLen);
    Uint16OfBigEndian(h.headerLen);
    Uint32OfBigEndian(h.streamID);
  }

  /** A constructed frame is as long as it says, keeps the head and holds the three parts in order. */
  lemma ConstructedLayout(h: Head, header: seq<byte>, body: seq<byte>, attachment: seq<byte>, max: int)
    requires Constructed(h, header, body, attachment, max).Ok?
    ensures var frame := Constructed(h, header, body, attachment, max).value;
            var total := TotalLen(header, body, attachment);
            && |frame| == total <= max && total <= MaxUint32
            && ParseHead(frame) == h.(totalLen := total, headerLen := |header|)
            && frame[FrameHeadLen..FrameHeadLen + |header|] == header
            && frame[FrameHeadLen + |header|..total - |attachment|] == body
            && frame[total - |attachment|..] == attachment
  {
    var frame := Constructed(h, header, body, attachment, max).value;
    var total := TotalLen(header, body, attachment);
    var h' := h.(totalLen := total, headerLen := |header|);
    assert frame == HeadBytes(h') + (header + body + attachment);
    ParseHeadBytes(h', header + body + attachment);
  }

  /** Which size is to blame when it does not succeed. */
  lemma ConstructedErrors(h: Head, header: seq<byte>, body: seq<byte>, attachment: seq<byte>, max: int)
    ensures var r := Constructed(h, header, body, attachment, max);
            var total := 16 + |header| + |body| + |attachment|;
            && (r == Err(HeadOverflowsUint16) <==> |header| > 65535)
            && (r == Err(AttachmentOverflowsUint32) <==> |header| <= 65535 && |attachment| > MaxUint32)
            && (r == Err(FrameTooLarge(max)) <==> |header| <= 65535 && |attachment| <= MaxUint32 && total > max)
            && (r == Err(TotalOverflowsUint32) <==>
                  |header| <= 65535 && |attachment| <= MaxUint32 && total <= max && total > MaxUint32)
  {
  }

  /** `construct` succeeds exactly when all four sizes are within limits. */
  lemma ConstructedIff(h: Head, header: seq<byte>, body: seq<byte>, attachment: seq<byte>, max: int)
    ensures Constructed(h, header, body, attachment, max).Ok?
       <==> |header| <= MaxUint16 && TotalLen(header, body, attachment) <= max
            && TotalLen(header, body, attachment) <= MaxUint32
  {
  }

  /**
    A constructed frame followed by anything is read back whole exactly when the
    configured maximum, truncated to 32 bits by the framer, still admits it.
   */
  lemma FramedAfterConstructed(h: Head, header: seq<byte>, body: seq<byte>, attachment: seq<byte>,
                               max: int, rest: seq<byte>)
    requires Constructed(h, header, body, attachment, max).Ok?
    ensures var frame := Constructed(h, header, body, attachment, max).value;
            Framed(frame + rest, max) == if |frame| <= U32(max) then Ok((frame, rest)) else Err(BadLength)
    ensures max <= MaxUint32 ==>
      Framed(Constructed(h, header, body, attachment, max).value + rest, max)
        == Ok((Constructed(h, header, body, attachment, max).value, rest))
  {
    ConstructedLayout(h, header, body, attachment, max);
    var frame := Constructed(h, header, body, attachment, max).value;
    var total := TotalLen(header, body, attachment);
    var h' := h.(totalLen := total, headerLen := |header|);
    assert frame + rest == HeadBytes(h') + (header + body + attachment + rest);
    ParseHeadBytes(h', header + body + attachment + rest);
    assert (frame + rest)[..total] == frame && (frame + rest)[total..] == rest;
  }

  /** Whatever the framer delivers is a prefix of its input whose length field is its length. */
  lemma FramedSplits(input: seq<byte>, max: int)
    requires Framed(input, max).Ok?
    ensures var (frame, rest) := Framed(input, max).value;
            && frame + rest == input
            && FrameHeadLen <= |frame| <= MaxUint32
            && ParseHead(frame).totalLen == |frame|
  {
    var (frame, rest) := Framed(input, max).value;
    assert frame[4..8] == input[4..8];
  }

  /** One frame to send: everything `construct` needs. */
  datatype Send = Send(head: Head, header: seq<byte>, body: seq<byte>, attachment: seq<byte>)

  function FrameOf(s: Send, max: int): Result<seq<byte>, WireError> {
    Constructed(s.head, s.header, s.body, s.attachment, max)
  }

  predicate Accepted(sends: seq<Send>, max: int) {
    forall i | 0 <= i < |sends| :: FrameOf(sends[i], max).Ok?
  }

  function FramesOf(sends: seq<Send>, max: int): seq<seq<byte>>
    requires Accepted(sends, max)
  {
    if sends == [] then [] else [FrameOf(sends[0], max).value] + FramesOf(sends[1..], max)
  }

  function Concat(frames: seq<seq<byte>>): seq<byte> {
    if frames == [] then [] else frames[0] + Concat(frames[1..])
  }

  /** Reading `n` frames one after another: the frames and what is left, or the first error. */
  function FramedTimes(input: seq<byte>, n: nat, max: int): Result<(seq<seq<byte>>, seq<byte>), WireError>
    decreases n
  {
    if n == 0 then Ok(([], input))
    else
      match Framed(input, max)
      case Err(e) => Err(e)
      case Ok((frame, rest)) =>
        match FramedTimes(rest, n - 1, max)
        case Err(e) => Err(e)
        case Ok((frames, rest')) => Ok(([frame] + frames, rest'))
  }

  /** The limit as the framer sees it, truncated to 32 bits, admits every frame. */
  predicate Admitted(sends: seq<Send>, max: int)
    requires Accepted(sends, max)
  {
    forall i | 0 <= i < |sends| :: |FrameOf(sends[i], max).value| <= U32(max)
  }

  /**
    The framer is the inverse of concatenating constructed frames: a list of accepted
    frames comes back as that very list, whatever follows on the stream, exactly when the
    truncated limit admits each of them; for a limit within 32 bits it always does.
   */
  lemma {:induction false} StreamRoundTrip(sends: seq<Send>, max: int, rest: seq<byte>)
    requires Accepted(sends, max)
    ensures FramedTimes(Concat(FramesOf(sends, max)) + rest, |sends|, max) == Ok((FramesOf(sends, max), rest))
       <==> Admitted(sends, max)
    ensures max <= MaxUint32 ==> Admitted(sends, max)
  {
    var frames := FramesOf(sends, max);
    if sends == [] {
      assert Concat(frames) + rest == rest;
    } else {
      var s, others := sends[0], sends[1..];
      var tail := Concat(FramesOf(others, max)) + rest;
      assert frames[1..] == FramesOf(others, max);
      assert Concat(frames) + rest == FrameOf(s, max).value + tail;
      FramedAfterConstructed(s.head, s.header, s.body, s.attachment, max, tail);
      ConstructedLayout(s.head, s.header, s.body, s.attachment, max);
      StreamRoundTrip(others, max, rest);
      AdmittedSplits(sends, max);
      var r := FramedTimes(tail, |others|, max);
      if r.Ok? {
        assert ([frames[0]] + r.value.0)[1..] == r.value.0;
      }
    }
  }

  lemma AdmittedSplits(sends: seq<Send>, max: int)
    requires Accepted(sends, max) && sends != []
    ensures Admitted(sends, max) <==>
            |FrameOf(sends[0], max).value| <= U32(max) && Admitted(sends[1..], max)
  {
    assert forall i | 0 < i < |sends| :: sends[i] == sends[1..][i - 1];
    assert forall i | 0 <= i < |sends| - 1 :: sends[1..][i] == sends[i + 1];
  }

  /**
    The 32-bit bound is needed: with a maximum of 2^32, `construct` accepts an empty
    frame that the framer, comparing with the maximum truncated to zero, refuses.
   */
  lemma TruncatedMaximumRefuses()
    ensures var max := 0x1_0000_0000;
            var c := Constructed(DefaultUnaryHead, [], [], [], max);
            c.Ok? && Framed(c.value, max) == Err(BadLength)
  {
    FramedAfterConstructed(DefaultUnaryHead, [], [], [], 0x1_0000_0000, []);
    var c := Constructed(DefaultUnaryHead, [], [], [], 0x1_0000_0000);
    assert c.value + [] == c.value;
  }

  /** Accepted frames form a prefix code: none is a proper prefix of another. */
  lemma FramesArePrefixFree(a: Send, b: Send, max: int)
    requires FrameOf(a, max).Ok? && FrameOf(b, max).Ok?
    requires FrameOf(a, max).value <= FrameOf(b, max).value
    ensures FrameOf(a, max) == FrameOf(b, max)
  {
    var fa, fb := FrameOf(a, max).value, FrameOf(b, max).value;
    ConstructedLayout(a.head, a.header, a.body, a.attachment, max);
    ConstructedLayout(b.head, b.header, b.body, b.attachment, max);
    assert fa[4..8] == fb[4..8];
    assert fa == fb[..|fa|] == fb;
  }
}
