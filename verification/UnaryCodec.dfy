/** What the unary codecs compute, stated on values (codec.go). */
module UnarySpec {
  import opened Bytes
  import opened Outcomes
  import opened Protocol
  import opened Wire
  import opened Message

  const DyeingKey := "trpc-dyeing-key"
  const EnvTransfer := "trpc-env"

  /** The protobuf library, as the pairs of functions the codecs call. */
  datatype Pb = Pb(
    marshalReq: RequestProtocol -> Option<seq<byte>>,
    unmarshalReq: seq<byte> -> Option<RequestProtocol>,
    marshalRsp: ResponseProtocol -> Option<seq<byte>>,
    unmarshalRsp: seq<byte> -> Option<ResponseProtocol>)

  /**
    Unmarshalling undoes marshalling, and the message with every field at its default is
    the one written as no bytes at all (proto3 field presence).
   */
  ghost predicate Lawful(pb: Pb) {
    && (forall r :: pb.marshalReq(r).Some? ==> pb.unmarshalReq(pb.marshalReq(r).value) == Some(r))
    && (forall r :: pb.marshalRsp(r).Some? ==> pb.unmarshalRsp(pb.marshalRsp(r).value) == Some(r))
    && pb.marshalReq(DefaultRequest) == Some([])
    && pb.marshalRsp(DefaultResponse) == Some([])
  }

  datatype CodecError =
    | BufTooShort
    | LenMismatch
    | NotUnary            // handed over to the stream codec
    | UnknownFrameType
    | HeadLenEmpty
    | HeadLenInvalid
    | HeadTypeInvalid
    | MarshalFailed
    | UnmarshalFailed
    | AttachmentUnreadable
    | AttachmentMismatch
    | SliceOutOfRange     // Go's run-time failure on buf[i:j] with i > j or j > len(buf)
    | RequestIdMismatch
    | WireFailed(e: WireError)

  /** Everything of the message that goes into a request head. */
  datatype Outgoing = Outgoing(
    caller: string, callee: string, rpcName: string, info: CallInfo, envTransfer: string, metaData: TransInfo)

  /** Everything of the message that goes into a response head. */
  datatype Reply = Reply(serializationType: int, compressType: int, err: Option<RpcError>, metaData: TransInfo)

  // ------------------------------------------------------------------ heads

  /** Go's integer division, which truncates toward zero. */
  function TruncDiv(a: int, b: int): int
    requires b > 0
  {
    if a >= 0 then a / b else -(-a / b)
  }

  predicate DyeingBit(messageType: uint32) {
    messageType % 2 == 1
  }

  function SetDyeingBit(messageType: uint32): uint32 {
    if DyeingBit(messageType) then messageType else messageType + 1
  }

  /** setClientTransInfo: metadata first, then the dyeing key, then the environment, cleared if empty. */
  function ClientTransInfo(trans: TransInfo, metaData: TransInfo, dyeingKey: string, env: string): TransInfo {
    var t := trans + metaData;
    var t := if dyeingKey != "" then t[DyeingKey := dyeingKey] else t;
    if env != "" || EnvTransfer in t then t[EnvTransfer := env] else t
  }

  function UpdatedRequest(req: RequestProtocol, id: uint32, attachmentSize: uint32, out: Outgoing): RequestProtocol {
    RequestProtocol(
      req.version, out.info.callType, id, U32(TruncDiv(out.info.requestTimeout, 1_000_000)),
      out.caller, out.callee, out.rpcName,
      if out.info.dyeing then SetDyeingBit(req.messageType) else req.messageType,
      ClientTransInfo(req.transInfo, out.metaData, out.info.dyeingKey, out.envTransfer),
      U32(out.info.serializationType), U32(out.info.compressType), attachmentSize)
  }

  function NewResponse(req: RequestProtocol): ResponseProtocol {
    DefaultResponse.(
      callType := req.callType, requestId := req.requestId, messageType := req.messageType,
      contentType := req.contentType, contentEncoding := req.contentEncoding)
  }

  /** The head Encode starts from: the stored response head, else one for the stored request, else empty. */
  function StoredResponse(heads: Heads): ResponseProtocol {
    if heads.serverRsp.Response? then heads.serverRsp.rsp
    else if heads.serverReq.Request? then NewResponse(heads.serverReq.req)
    else DefaultResponse
  }

  function InitResponse(rsp: ResponseProtocol, reply: Reply): ResponseProtocol {
    var rsp := rsp.(
      contentType := U32(reply.serializationType),
      contentEncoding := U32(reply.compressType),
      transInfo := rsp.transInfo + reply.metaData);
    match reply.err
    case None => rsp
    case Some(e) =>
      if e.kind == ErrorTypeFramework then rsp.(errorMsg := e.msg, ret := e.code)
      else rsp.(errorMsg := e.msg, funcRet := e.code)
  }

  /** The error a client derives from a response head. */
  function ClientError(rsp: ResponseProtocol): Option<RpcError> {
    if rsp.ret != 0 then Some(RpcError(ErrorTypeCalleeFramework, rsp.ret, rsp.errorMsg))
    else if rsp.funcRet != 0 then Some(RpcError(ErrorTypeBusiness, rsp.funcRet, rsp.errorMsg))
    else None
  }

  /** The error a client should see for what a handler returned: none for none and for code zero. */
  function MappedError(err: Option<RpcError>): Option<RpcError> {
    match err
    case None => None
    case Some(e) =>
      if e.code == 0 then None
      else if e.kind == ErrorTypeFramework then Some(RpcError(ErrorTypeCalleeFramework, e.code, e.msg))
      else Some(RpcError(ErrorTypeBusiness, e.code, e.msg))
  }

  /** The return codes left in a response head do not get in the way of what the handler returned. */
  predicate CodesFree(rsp: ResponseProtocol, err: Option<RpcError>) {
    match err
    case None => rsp.ret == 0 && rsp.funcRet == 0
    case Some(e) => if e.kind == ErrorTypeFramework then e.code != 0 || rsp.funcRet == 0 else rsp.ret == 0
  }

  // ------------------------------------------------------------------ encoders

  function ClientEncoded(pb: Pb, max: int, req: RequestProtocol, id: uint32, body: seq<byte>, attm: seq<byte>)
    : Result<seq<byte>, CodecError>
  {
    match pb.marshalReq(req)
    case None => Err(MarshalFailed)
    case Some(head) =>
      match Constructed(DefaultUnaryHead.(streamID := id), head, body, attm, max)
      case Ok(frame) => Ok(frame)
      case Err(e) => Err(WireFailed(e))
  }

  /** handleEncodeErr: the head without its metadata, carrying RetServerEncodeFail, and no attachment. */
  function FallbackHead(rsp: ResponseProtocol, e: WireError): ResponseProtocol {
    rsp.(transInfo := map[], ret := RetServerEncodeFail, errorMsg := ErrorText(e))
  }

  /** Whether an error of `construct` is answered by a fallback frame. */
  predicate FallsBack(e: WireError) {
    e.HeadOverflowsUint16? || e.FrameTooLarge? || e.TotalOverflowsUint32?
  }

  /** The body the fallback frame still carries. */
  function FallbackBody(body: seq<byte>, e: WireError): seq<byte> {
    if e.HeadOverflowsUint16? then body else []
  }

  function EncodedHead(pb: Pb, max: int, h: Head, rsp: ResponseProtocol, body: seq<byte>, attm: seq<byte>)
    : Result<seq<byte>, CodecError>
  {
    match pb.marshalRsp(rsp)
    case None => Err(MarshalFailed)
    case Some(head) =>
      match Constructed(h, head, body, attm, max)
      case Ok(frame) => Ok(frame)
      case Err(e) => Err(WireFailed(e))
  }

  /** The response head on the wire and the frame that carries it. */
  function ServerEncoded(pb: Pb, max: int, h: Head, rsp: ResponseProtocol, body: seq<byte>, attm: seq<byte>)
    : (ResponseProtocol, Result<seq<byte>, CodecError>)
  {
    var rsp := rsp.(attachmentSize := U32(|attm|));
    match EncodedHead(pb, max, h, rsp, body, attm)
    case Err(WireFailed(e)) =>
      if FallsBack(e) then
        var rsp := FallbackHead(rsp, e);
        (rsp, EncodedHead(pb, max, h, rsp, FallbackBody(body, e), []))
      else (rsp, Err(WireFailed(e)))
    case r => (rsp, r)
  }

  // ------------------------------------------------------------------ decoders

  /** Checks up to the protobuf head, shared by both decoders. */
  function PbHead(buf: seq<byte>): Result<seq<byte>, CodecError> {
    if |buf| < FrameHeadLen then Err(BufTooShort)
    else
      var h := ParseHead(buf);
      if h.totalLen != U32(|buf|) then Err(LenMismatch)
      else if h.frameType != UnaryFrame then Err(NotUnary)
      else if h.headerLen == 0 then Err(HeadLenEmpty)
      else if FrameHeadLen + h.headerLen > U32(|buf|) then Err(HeadLenInvalid)
      else Ok(buf[FrameHeadLen..FrameHeadLen + h.headerLen])
  }

  /** uint32 arithmetic, so the subtraction wraps. */
  function AttachmentBegin(buf: seq<byte>, attachmentSize: uint32): uint32
    requires |buf| >= FrameHeadLen
  {
    U32(ParseHead(buf).totalLen - attachmentSize)
  }

  function AttachmentPart(buf: seq<byte>, attachmentSize: uint32): Result<seq<byte>, CodecError>
    requires PbHead(buf).Ok?
  {
    var begin := AttachmentBegin(buf, attachmentSize);
    if U32(U32(|buf|) - begin) != attachmentSize then Err(AttachmentMismatch)
    else if begin > |buf| then Err(SliceOutOfRange)
    else Ok(buf[begin..])
  }

  function BodyPart(buf: seq<byte>, attachmentSize: uint32): Result<seq<byte>, CodecError>
    requires PbHead(buf).Ok?
  {
    var begin := FrameHeadLen + ParseHead(buf).headerLen;
    var end := AttachmentBegin(buf, attachmentSize);
    if begin > end || end > |buf| then Err(SliceOutOfRange) else Ok(buf[begin..end])
  }

  /** A decoded frame: protocol head, body and attachment. */
  datatype Decoded<T> = Decoded(head: T, body: seq<byte>, attachment: seq<byte>)

  function ServerDecoded(pb: Pb, buf: seq<byte>): Result<Decoded<RequestProtocol>, CodecError> {
    match PbHead(buf)
    case Err(e) => Err(e)
    case Ok(head) =>
      match pb.unmarshalReq(head)
      case None => Err(UnmarshalFailed)
      case Some(req) =>
        match AttachmentPart(buf, req.attachmentSize)
        case Err(e) => Err(e)
        case Ok(attm) =>
          match BodyPart(buf, req.attachmentSize)
          case Err(e) => Err(e)
          case Ok(body) => Ok(Decoded(req, body, attm))
  }

  /** Whether the response answers the request recorded in the message; a foreign head is not compared. */
  predicate AnswersRequest(clientReq: Any, rsp: ResponseProtocol) {
    match clientReq
    case Nil => rsp.requestId == 0
    case Request(req) => rsp.requestId == req.requestId
    case _ => true
  }

  predicate ResponseHeadUsable(clientRsp: Any) {
    clientRsp.Nil? || clientRsp.Response?
  }

  function ClientDecoded(pb: Pb, clientReq: Any, clientRsp: Any, buf: seq<byte>)
    : Result<Decoded<ResponseProtocol>, CodecError>
  {
    match PbHead(buf)
    case Err(e) => Err(e)
    case Ok(head) =>
      if !ResponseHeadUsable(clientRsp) then Err(HeadTypeInvalid)
      else
        match pb.unmarshalRsp(head)
        case None => Err(UnmarshalFailed)
        case Some(rsp) =>
          match AttachmentPart(buf, rsp.attachmentSize)
          case Err(e) => Err(e)
          case Ok(attm) =>
            if !AnswersRequest(clientReq, rsp) then Err(RequestIdMismatch)
            else
              match BodyPart(buf, rsp.attachmentSize)
              case Err(e) => Err(e)
              case Ok(body) => Ok(Decoded(rsp, body, attm))
  }

  /** Head and attachment of an answer that gets as far as updateMsg. */
  function AnswerReached(pb: Pb, clientRsp: Any, buf: seq<byte>): Option<(ResponseProtocol, seq<byte>)> {
    if PbHead(buf).Err? || !ResponseHeadUsable(clientRsp) || pb.unmarshalRsp(PbHead(buf).value).None? then None
    else
      var rsp := pb.unmarshalRsp(PbHead(buf).value).value;
      match AttachmentPart(buf, rsp.attachmentSize)
      case Err(_) => None
      case Ok(attm) => Some((rsp, attm))
  }

  /** Head and attachment of a request that gets as far as msgWithRequestProtocol. */
  function RequestReached(pb: Pb, buf: seq<byte>): Option<(RequestProtocol, seq<byte>)> {
    if PbHead(buf).Err? || pb.unmarshalReq(PbHead(buf).value).None? then None
    else
      var req := pb.unmarshalReq(PbHead(buf).value).value;
      match AttachmentPart(buf, req.attachmentSize)
      case Err(_) => None
      case Ok(attm) => Some((req, attm))
  }
}

/** The laws of the unary protocol. */
module UnaryLaws {
  import opened Bytes
  import opened Outcomes
  import opened Protocol
  import opened Wire
  import opened Message
  import opened UnarySpec

  /** The bound under which the declared sizes partition a buffer. */
  predicate SizesFit(buf: seq<byte>, attachmentSize: uint32)
    requires |buf| >= FrameHeadLen
  {
    FrameHeadLen + ParseHead(buf).headerLen + attachmentSize <= |buf|
  }

  /**
    The attachment-size check of the decoders never fires: both subtractions wrap modulo
    2^32 and cancel. What decides is the slicing, which succeeds exactly when head and
    attachment fit, and then the three parts make up the buffer.
   */
  lemma PartitionIff(buf: seq<byte>, attachmentSize: uint32)
    requires |buf| <= MaxUint32 && PbHead(buf).Ok?
    ensures AttachmentPart(buf, attachmentSize) != Err(AttachmentMismatch)
    ensures AttachmentPart(buf, attachmentSize).Ok? && BodyPart(buf, attachmentSize).Ok?
       <==> SizesFit(buf, attachmentSize)
    ensures SizesFit(buf, attachmentSize) ==>
      && |AttachmentPart(buf, attachmentSize).value| == attachmentSize
      && buf == buf[..FrameHeadLen] + PbHead(buf).value
                + BodyPart(buf, attachmentSize).value + AttachmentPart(buf, attachmentSize).value
  {
    var n := |buf|;
    if attachmentSize <= n {
      assert AttachmentBegin(buf, attachmentSize) == n - attachmentSize;
    } else {
      assert AttachmentBegin(buf, attachmentSize) == n - attachmentSize + 0x1_0000_0000;
    }
  }

  /** What the decoders find in any frame `construct` made with a non-empty head. */
  lemma PartsOfConstructed(h: Head, header: seq<byte>, body: seq<byte>, attm: seq<byte>, max: int, declared: uint32)
    requires Constructed(h, header, body, attm, max).Ok? && h.frameType == UnaryFrame
    ensures var frame := Constructed(h, header, body, attm, max).value;
            if header == [] then PbHead(frame) == Err(HeadLenEmpty)
            else
              && PbHead(frame) == Ok(header)
              && (SizesFit(frame, declared) <==> declared <= |body| + |attm|)
              && (declared == |attm| ==>
                    && AttachmentPart(frame, declared) == Ok(attm)
                    && BodyPart(frame, declared) == Ok(body))
  {
    ConstructedLayout(h, header, body, attm, max);
    var frame := Constructed(h, header, body, attm, max).value;
    if header != [] && declared == |attm| {
      PartitionIff(frame, declared);
    }
  }

  /** A lawful marshaller writes no bytes for the default message only. */
  lemma EmptyHeadIffDefault(pb: Pb, rsp: ResponseProtocol, req: RequestProtocol)
    requires Lawful(pb)
    ensures pb.marshalRsp(rsp) == Some([]) <==> rsp == DefaultResponse
    ensures pb.marshalReq(req) == Some([]) <==> req == DefaultRequest
  {
    assert pb.marshalRsp(DefaultResponse).Some? && pb.marshalReq(DefaultRequest).Some?;
    assert pb.marshalRsp(rsp).Some? ==> pb.unmarshalRsp(pb.marshalRsp(rsp).value) == Some(rsp);
    assert pb.marshalReq(req).Some? ==> pb.unmarshalReq(pb.marshalReq(req).value) == Some(req);
  }

  /** The request half: what the client framed is what the framer cuts and the server decodes. */
  lemma RequestRoundTrip(pb: Pb, max: int, req: RequestProtocol, id: uint32,
                         body: seq<byte>, attm: seq<byte>, rest: seq<byte>)
    requires Lawful(pb) && max <= MaxUint32
    requires ClientEncoded(pb, max, req, id, body, attm).Ok?
    requires req.attachmentSize == U32(|attm|)
    ensures var frame := ClientEncoded(pb, max, req, id, body, attm).value;
            && Framed(frame + rest, max) == Ok((frame, rest))
            && ParseHead(frame).streamID == id && ParseHead(frame).frameType == UnaryFrame
            && ParseHead(frame).protocolVersion == 1
            && ServerDecoded(pb, frame) ==
               (if req == DefaultRequest then Err(HeadLenEmpty) else Ok(Decoded(req, body, attm)))
  {
    var h := DefaultUnaryHead.(streamID := id);
    var head := pb.marshalReq(req).value;
    EmptyHeadIffDefault(pb, DefaultResponse, req);
    FramedAfterConstructed(h, head, body, attm, max, rest);
    ConstructedLayout(h, head, body, attm, max);
    PartsOfConstructed(h, head, body, attm, max, |attm|);
  }

  /** The response half, on the encoder's main path. */
  lemma ResponseRoundTrip(pb: Pb, max: int, h: Head, rsp: ResponseProtocol, body: seq<byte>, attm: seq<byte>,
                          clientReq: Any, clientRsp: Any, rest: seq<byte>)
    requires Lawful(pb) && max <= MaxUint32 && h.frameType == UnaryFrame
    requires rsp.attachmentSize == U32(|attm|)
    requires EncodedHead(pb, max, h, rsp, body, attm).Ok?
    requires ResponseHeadUsable(clientRsp) && AnswersRequest(clientReq, rsp)
    ensures var frame := EncodedHead(pb, max, h, rsp, body, attm).value;
            && Framed(frame + rest, max) == Ok((frame, rest))
            && ParseHead(frame).streamID == h.streamID && ParseHead(frame).protocolVersion == h.protocolVersion
            && ClientDecoded(pb, clientReq, clientRsp, frame) ==
               (if rsp == DefaultResponse then Err(HeadLenEmpty) else Ok(Decoded(rsp, body, attm)))
  {
    var head := pb.marshalRsp(rsp).value;
    EmptyHeadIffDefault(pb, rsp, DefaultRequest);
    FramedAfterConstructed(h, head, body, attm, max, rest);
    ConstructedLayout(h, head, body, attm, max);
    PartsOfConstructed(h, head, body, attm, max, |attm|);
  }

  /**
    A whole unary call. The client encodes, the framer cuts the request out of the stream,
    the server decodes it, some handler replies, the server encodes within the limits, the
    framer cuts the response out and the client decodes it: both bodies and both
    attachments arrive unchanged, the client accepts the request id, and the id the
    multiplexer reads off the response frame is the one the client allocated. The one
    exception is a head that protobuf writes as no bytes, which both decoders refuse: a
    request with a caller (Encode fills it in) never has one, and a response to a non-zero
    request id never has one.
   */
  lemma UnaryCall(pb: Pb, max: int, req0: RequestProtocol, id: uint32, out: Outgoing,
                  reqBody: seq<byte>, reqAttm: seq<byte>, reply: Reply, rspBody: seq<byte>, rspAttm: seq<byte>,
                  clientRsp: Any, upstream: seq<byte>, downstream: seq<byte>)
    requires Lawful(pb) && max <= MaxUint32
    requires ResponseHeadUsable(clientRsp)
    requires ClientEncoded(pb, max, UpdatedRequest(req0, id, U32(|reqAttm|), out), id, reqBody, reqAttm).Ok?
    ensures var req := UpdatedRequest(req0, id, U32(|reqAttm|), out);
            var sent := ClientEncoded(pb, max, req, id, reqBody, reqAttm).value;
            var h := ParseHead(sent);
            var rsp := InitResponse(NewResponse(req), reply).(attachmentSize := U32(|rspAttm|));
            var answer := EncodedHead(pb, max, h, rsp, rspBody, rspAttm);
            && Framed(sent + upstream, max) == Ok((sent, upstream))
            && (out.caller != "" ==> req != DefaultRequest) && (id != 0 ==> rsp != DefaultResponse)
            && ServerDecoded(pb, sent) ==
               (if req == DefaultRequest then Err(HeadLenEmpty) else Ok(Decoded(req, reqBody, reqAttm)))
            && (answer.Ok? ==>
                  && ServerEncoded(pb, max, h, InitResponse(NewResponse(req), reply), rspBody, rspAttm)
                     == (rsp, answer)
                  && Framed(answer.value + downstream, max) == Ok((answer.value, downstream))
                  && ParseHead(answer.value).streamID == id
                  && ClientDecoded(pb, Request(req), clientRsp, answer.value) ==
                     (if rsp == DefaultResponse then Err(HeadLenEmpty) else Ok(Decoded(rsp, rspBody, rspAttm))))
  {
    var req := UpdatedRequest(req0, id, U32(|reqAttm|), out);
    RequestRoundTrip(pb, max, req, id, reqBody, reqAttm, upstream);
    var h := ParseHead(ClientEncoded(pb, max, req, id, reqBody, reqAttm).value);
    var rsp := InitResponse(NewResponse(req), reply).(attachmentSize := U32(|rspAttm|));
    if EncodedHead(pb, max, h, rsp, rspBody, rspAttm).Ok? {
      ResponseRoundTrip(pb, max, h, rsp, rspBody, rspAttm, Request(req), clientRsp, downstream);
    }
  }

  /** The encoder's main path is taken exactly when the sizes are within limits. */
  lemma MainPathIff(pb: Pb, max: int, h: Head, rsp: ResponseProtocol, body: seq<byte>, attm: seq<byte>)
    requires pb.marshalRsp(rsp).Some?
    ensures EncodedHead(pb, max, h, rsp, body, attm).Ok?
       <==> && |pb.marshalRsp(rsp).value| <= MaxUint16
            && TotalLen(pb.marshalRsp(rsp).value, body, attm) <= max
            && TotalLen(pb.marshalRsp(rsp).value, body, attm) <= MaxUint32
  {
    ConstructedIff(h, pb.marshalRsp(rsp).value, body, attm, max);
  }

  /** Decoding a frame without attachment whose head declares one: its tail is taken for it, if long enough. */
  lemma PartsUnderDeclared(h: Head, header: seq<byte>, body: seq<byte>, max: int, declared: uint32)
    requires Constructed(h, header, body, [], max).Ok? && h.frameType == UnaryFrame && header != []
    ensures var frame := Constructed(h, header, body, [], max).value;
            && PbHead(frame) == Ok(header)
            && if declared <= |body| then
                 && AttachmentPart(frame, declared) == Ok(body[|body| - declared..])
                 && BodyPart(frame, declared) == Ok(body[..|body| - declared])
               else
                 || AttachmentPart(frame, declared) == Err(SliceOutOfRange)
                 || (AttachmentPart(frame, declared).Ok? && BodyPart(frame, declared) == Err(SliceOutOfRange))
  {
    var frame := Constructed(h, header, body, [], max).value;
    ConstructedLayout(h, header, body, [], max);
    PartsOfConstructed(h, header, body, [], max, declared);
    PartitionIff(frame, declared);
    if declared <= |body| {
      var begin := FrameHeadLen + |header|;
      assert frame[begin..] == body;
      assert frame[begin..|frame| - declared] == frame[begin..][..|body| - declared];
      assert frame[|frame| - declared..] == frame[begin..][|body| - declared..];
    }
  }

  /** The same, through the whole client decoder. */
  lemma DecodeUnderDeclared(pb: Pb, max: int, h: Head, rsp: ResponseProtocol, body: seq<byte>,
                            clientReq: Any, clientRsp: Any)
    requires Lawful(pb) && h.frameType == UnaryFrame && rsp != DefaultResponse
    requires ResponseHeadUsable(clientRsp) && AnswersRequest(clientReq, rsp)
    requires EncodedHead(pb, max, h, rsp, body, []).Ok?
    ensures ClientDecoded(pb, clientReq, clientRsp, EncodedHead(pb, max, h, rsp, body, []).value) ==
      (var n := |body| - rsp.attachmentSize;
       if n >= 0 then Ok(Decoded(rsp, body[..n], body[n..])) else Err(SliceOutOfRange))
  {
    EmptyHeadIffDefault(pb, rsp, DefaultRequest);
    PartsUnderDeclared(h, pb.marshalRsp(rsp).value, body, max, rsp.attachmentSize);
  }

  /** What a fallback head says. */
  lemma FallbackMeans(rsp: ResponseProtocol, e: WireError)
    ensures var sent := FallbackHead(rsp, e);
            && sent != DefaultResponse && sent.requestId == rsp.requestId && sent.attachmentSize == rsp.attachmentSize
            && ClientError(sent) == Some(RpcError(ErrorTypeCalleeFramework, RetServerEncodeFail, ErrorText(e)))
  {
  }

  /** The server encoder answers a size error with the fallback head and no attachment. */
  lemma FallbackShape(pb: Pb, max: int, h: Head, rsp: ResponseProtocol, body: seq<byte>, attm: seq<byte>, e: WireError)
    requires |attm| <= MaxUint32 && FallsBack(e)
    requires EncodedHead(pb, max, h, rsp.(attachmentSize := |attm|), body, attm) == Err(WireFailed(e))
    ensures var sent := FallbackHead(rsp.(attachmentSize := |attm|), e);
            && ServerEncoded(pb, max, h, rsp, body, attm)
               == (sent, EncodedHead(pb, max, h, sent, FallbackBody(body, e), []))
            && sent != DefaultResponse && sent.requestId == rsp.requestId && sent.attachmentSize == |attm|
            && ClientError(sent) == Some(RpcError(ErrorTypeCalleeFramework, RetServerEncodeFail, ErrorText(e)))
  {
    var first := rsp.(attachmentSize := |attm|);
    FallbackMeans(first, e);
    assert rsp.(attachmentSize := U32(|attm|)) == first;
  }

  /**
    The fallback frame declares the size of the attachment it no longer carries. So the
    client accepts it exactly when that many bytes are in the body it does carry, and then
    takes the tail of that body for the attachment; whenever it accepts, it sees the
    request id of the call and a callee-framework RetServerEncodeFail (FallbackShape).
   */
  lemma FallbackReachesClient(pb: Pb, max: int, h: Head, rsp: ResponseProtocol, body: seq<byte>, attm: seq<byte>,
                              e: WireError, clientReq: Any, clientRsp: Any)
    requires Lawful(pb) && h.frameType == UnaryFrame && |attm| <= MaxUint32 && FallsBack(e)
    requires ResponseHeadUsable(clientRsp) && AnswersRequest(clientReq, rsp)
    requires EncodedHead(pb, max, h, rsp.(attachmentSize := |attm|), body, attm) == Err(WireFailed(e))
    requires ServerEncoded(pb, max, h, rsp, body, attm).1.Ok?
    ensures ClientDecoded(pb, clientReq, clientRsp, ServerEncoded(pb, max, h, rsp, body, attm).1.value) ==
      (var sent := FallbackHead(rsp.(attachmentSize := |attm|), e);
       var carried := FallbackBody(body, e);
       var n := |carried| - |attm|;
       if n >= 0 then Ok(Decoded(sent, carried[..n], carried[n..])) else Err(SliceOutOfRange))
  {
    FallbackShape(pb, max, h, rsp, body, attm, e);
    var sent := FallbackHead(rsp.(attachmentSize := |attm|), e);
    DecodeUnderDeclared(pb, max, h, sent, FallbackBody(body, e), clientReq, clientRsp);
  }

  /**
    Every fallback frame that is produced reaches the client, with the body it carries,
    exactly when the response had no attachment. A frame too large falls back to an empty
    body, so with any attachment at all the client cannot slice the answer.
   */
  lemma FallbackIntactIff(pb: Pb, max: int, h: Head, rsp: ResponseProtocol, body: seq<byte>, attm: seq<byte>,
                          e: WireError, clientReq: Any, clientRsp: Any)
    requires Lawful(pb) && h.frameType == UnaryFrame && |attm| <= MaxUint32 && FallsBack(e)
    requires ResponseHeadUsable(clientRsp) && AnswersRequest(clientReq, rsp)
    requires EncodedHead(pb, max, h, rsp.(attachmentSize := |attm|), body, attm) == Err(WireFailed(e))
    requires ServerEncoded(pb, max, h, rsp, body, attm).1.Ok?
    ensures var (sent, r) := ServerEncoded(pb, max, h, rsp, body, attm);
            var got := ClientDecoded(pb, clientReq, clientRsp, r.value);
            && (got == Ok(Decoded(sent, FallbackBody(body, e), [])) <==> attm == [])
            && (attm != [] && !e.HeadOverflowsUint16? ==> got == Err(SliceOutOfRange))
  {
    FallbackShape(pb, max, h, rsp, body, attm, e);
    FallbackReachesClient(pb, max, h, rsp, body, attm, e, clientReq, clientRsp);
    var carried := FallbackBody(body, e);
    if attm == [] {
      assert carried[..|carried|] == carried && carried[|carried|..] == [];
    }
  }

  /**
    A response that is too large, said without naming how the fallback is built: the head
    that goes out instead has no metadata, RetServerEncodeFail and the size error as its
    message, and is otherwise the one that failed; with it goes the body if only the head
    was too long and nothing otherwise, and no attachment. An attachment beyond 32 bits is
    the one size error that gets no fallback.
   */
  lemma FallbackDropsMetaData(pb: Pb, max: int, h: Head, rsp: ResponseProtocol, body: seq<byte>, attm: seq<byte>,
                              e: WireError)
    requires EncodedHead(pb, max, h, rsp.(attachmentSize := U32(|attm|)), body, attm) == Err(WireFailed(e))
    ensures var (sent, r) := ServerEncoded(pb, max, h, rsp, body, attm);
            if e.HeadOverflowsUint16? || e.FrameTooLarge? || e.TotalOverflowsUint32? then
              && sent == rsp.(attachmentSize := U32(|attm|), transInfo := map[], ret := 2, errorMsg := ErrorText(e))
              && r == EncodedHead(pb, max, h, sent, if e.HeadOverflowsUint16? then body else [], [])
            else sent == rsp.(attachmentSize := U32(|attm|)) && r == Err(WireFailed(e))
  {
  }

  /** What the client reads as the reason of a fallback. */
  lemma FallbackTexts(max: nat)
    ensures ErrorText(HeadOverflowsUint16) == "head len overflows uint16"
    ensures ErrorText(TotalOverflowsUint32) == "total len overflows uint32"
    ensures exists digits: string ::
      && (forall i | 0 <= i < |digits| :: IsDigit(digits[i])) && ValueOf(digits) == max
      && ErrorText(FrameTooLarge(max)) == "frame len is larger than MaxFrameSize(" + digits + ")"
  {
    ItoaRoundTrip(max);
    assert ErrorText(FrameTooLarge(max)) == "frame len is larger than MaxFrameSize(" + Itoa(max) + ")";
  }

  /** Metadata alone never keep the error from the client: a fallback head that fits is framed. */
  lemma FallbackIsSent(pb: Pb, max: int, h: Head, rsp: ResponseProtocol, body: seq<byte>, attm: seq<byte>, e: WireError)
    requires EncodedHead(pb, max, h, rsp.(attachmentSize := U32(|attm|)), body, attm) == Err(WireFailed(e))
    requires e.HeadOverflowsUint16? || e.FrameTooLarge? || e.TotalOverflowsUint32?
    ensures var (sent, r) := ServerEncoded(pb, max, h, rsp, body, attm);
            pb.marshalRsp(sent).Some? ==>
              var carried := if e.HeadOverflowsUint16? then body else [];
              var head := pb.marshalRsp(sent).value;
              (r.Ok? <==> |head| <= MaxUint16 && TotalLen(head, carried, []) <= max
                          && TotalLen(head, carried, []) <= MaxUint32)
  {
    FallbackDropsMetaData(pb, max, h, rsp, body, attm, e);
    var sent := ServerEncoded(pb, max, h, rsp, body, attm).0;
    if pb.marshalRsp(sent).Some? {
      MainPathIff(pb, max, h, sent, if e.HeadOverflowsUint16? then body else [], []);
    }
  }

  const TooLarge := DefaultResponse.(requestId := 7, attachmentSize := 1)
  const Fallback := FallbackHead(TooLarge, FrameTooLarge(20))

  function MarshalExample(r: ResponseProtocol): Option<seq<byte>> {
    if r == DefaultResponse then Some([]) else if r == TooLarge then Some([1]) else if r == Fallback then Some([2])
    else None
  }

  function UnmarshalExample(s: seq<byte>): Option<ResponseProtocol> {
    if s == [] then Some(DefaultResponse) else if s == [1] then Some(TooLarge) else if s == [2] then Some(Fallback)
    else None
  }

  const ExamplePb := Pb(
    r => if r == DefaultRequest then Some([]) else None, s => Some(DefaultRequest), MarshalExample, UnmarshalExample)

  lemma ExampleLawful()
    ensures Lawful(ExamplePb)
  {
    assert Fallback != TooLarge && TooLarge != DefaultResponse && Fallback != DefaultResponse;
    forall r
      ensures ExamplePb.marshalRsp(r).Some? ==> ExamplePb.unmarshalRsp(ExamplePb.marshalRsp(r).value) == Some(r)
    {
      assert [1] != [2] && [1] != [] && [2] != [];
    }
  }

  /**
    The attachment is what breaks it: with a limit of 20 bytes, a body of six and an
    attachment of one, the server falls back and the client cannot slice the answer.
   */
  lemma FallbackLost(body: seq<byte>, attm: seq<byte>)
    requires |body| == 6 && |attm| == 1
    ensures Lawful(ExamplePb)
    ensures var rsp := DefaultResponse.(requestId := 7);
            var (sent, r) := ServerEncoded(ExamplePb, 20, DefaultUnaryHead, rsp, body, attm);
            && EncodedHead(ExamplePb, 20, DefaultUnaryHead, rsp.(attachmentSize := 1), body, attm)
               == Err(WireFailed(FrameTooLarge(20)))
            && sent == Fallback && r.Ok?
            && ClientDecoded(ExamplePb, Request(DefaultRequest.(requestId := 7)), Nil, r.value) == Err(SliceOutOfRange)
  {
    ExampleLawful();
    var rsp, e := DefaultResponse.(requestId := 7), FrameTooLarge(20);
    assert rsp.(attachmentSize := |attm|) == TooLarge;
    FallbackShape(ExamplePb, 20, DefaultUnaryHead, rsp, body, attm, e);
    FallbackIntactIff(ExamplePb, 20, DefaultUnaryHead, rsp, body, attm, e, Request(DefaultRequest.(requestId := 7)), Nil);
  }

  /**
    A server error reaches the client with its code and message, as a callee-framework
    error if it was a framework error and as a business error otherwise, and none or code
    zero as no error: exactly when the codes a handler may have left in the stored head do
    not get in the way. A fresh head has none.
   */
  lemma ErrorReachesClient(stored: ResponseProtocol, reply: Reply, attachmentSize: uint32)
    ensures ClientError(InitResponse(stored, reply).(attachmentSize := attachmentSize)) == MappedError(reply.err)
       <==> CodesFree(stored, reply.err)
    ensures forall req :: CodesFree(NewResponse(req), reply.err)
  {
  }

  /** The same across the wire, for every stored head: framed, cut out, decoded and read by the client. */
  lemma ErrorCrossesWire(pb: Pb, max: int, h: Head, stored: ResponseProtocol, reply: Reply, body: seq<byte>,
                         attm: seq<byte>, clientReq: Any, clientRsp: Any, behind: seq<byte>)
    requires Lawful(pb) && max <= MaxUint32 && h.frameType == UnaryFrame
    requires ResponseHeadUsable(clientRsp) && AnswersRequest(clientReq, stored)
    requires EncodedHead(pb, max, h, InitResponse(stored, reply).(attachmentSize := U32(|attm|)), body, attm).Ok?
    ensures var (sent, r) := ServerEncoded(pb, max, h, InitResponse(stored, reply), body, attm);
            && r.Ok? && Framed(r.value + behind, max) == Ok((r.value, behind))
            && ClientDecoded(pb, clientReq, clientRsp, r.value) ==
               (if sent == DefaultResponse then Err(HeadLenEmpty) else Ok(Decoded(sent, body, attm)))
            && (ClientError(sent) == MappedError(reply.err) <==> CodesFree(stored, reply.err))
  {
    var sent := InitResponse(stored, reply).(attachmentSize := U32(|attm|));
    ResponseRoundTrip(pb, max, h, sent, body, attm, clientReq, clientRsp, behind);
    ErrorReachesClient(stored, reply, U32(|attm|));
  }

  /** A handler that leaves Ret 5 in the head and returns business error 7: the client sees 5 with the message of 7. */
  lemma LeftoverCodeWins()
    ensures var stored := DefaultResponse.(requestId := 1, ret := 5);
            var e := RpcError(ErrorTypeBusiness, 7, "seven");
            && ClientError(InitResponse(stored, Reply(0, 0, Some(e), map[])))
               == Some(RpcError(ErrorTypeCalleeFramework, 5, "seven"))
            && !CodesFree(stored, Some(e))
  {
  }

  /** A timeout in nanoseconds rounded down to whole milliseconds, if it is one that 32 bits of them hold. */
  predicate WholeMilliseconds(rounded: int, timeout: int) {
    rounded % 1_000_000 == 0 &&
    (rounded <= timeout < rounded + 1_000_000 <==> 0 <= timeout < 0x1_0000_0000 * 1_000_000)
  }

  /** What a request head says, field by field, in terms of the message it was filled in from. */
  lemma RequestCarries(req: RequestProtocol, id: uint32, attachmentSize: uint32, out: Outgoing)
    ensures var sent := UpdatedRequest(req, id, attachmentSize, out);
            && Says(sent, out, req.messageType)
            && sent.requestId == id && sent.attachmentSize == attachmentSize && sent.version == req.version
            && sent.messageType / 2 == req.messageType / 2
  {
    MillisecondsArrive(out.info.requestTimeout);
    MetaDataCarried(req, id, attachmentSize, out);
  }

  /** The request id has no part in it. */
  lemma SaysWithoutId(sent: RequestProtocol, out: Outgoing, held: uint32, id: uint32)
    requires Says(sent, out, held)
    ensures Says(sent, out.(info := out.info.(requestID := id)), held)
  {
  }

  lemma MillisecondsArrive(t: int)
    ensures WholeMilliseconds(U32(TruncDiv(t, 1_000_000)) * 1_000_000, t)
  {
    var ms := TruncDiv(t, 1_000_000);
    if t >= 0 {
      assert t == ms * 1_000_000 + t % 1_000_000;
      if ms >= 0x1_0000_0000 {
        assert U32(ms) < ms;
      } else {
        assert U32(ms) == ms;
      }
    }
  }

  /** A request head says what goes out: who calls whom, how, and with which metadata. */
  ghost predicate Says(sent: RequestProtocol, out: Outgoing, held: uint32) {
    && sent.caller == out.caller && sent.callee == out.callee && sent.func == out.rpcName
    && sent.callType == out.info.callType
    && sent.contentType == U32(out.info.serializationType) && sent.contentEncoding == U32(out.info.compressType)
    && WholeMilliseconds(sent.timeout * 1_000_000, out.info.requestTimeout)
    && (sent.messageType % 2 == 1 <==> out.info.dyeing || held % 2 == 1)
    && CarriesMetaData(sent.transInfo, out)
  }

  ghost predicate CarriesMetaData(t: TransInfo, out: Outgoing) {
    && (out.info.dyeingKey != "" ==> DyeingKey in t && t[DyeingKey] == out.info.dyeingKey)
    && (out.envTransfer != "" ==> EnvTransfer in t && t[EnvTransfer] == out.envTransfer)
    && forall k | k in out.metaData && k != DyeingKey && k != EnvTransfer :: k in t && t[k] == out.metaData[k]
  }

  lemma MetaDataCarried(req: RequestProtocol, id: uint32, attachmentSize: uint32, out: Outgoing)
    ensures CarriesMetaData(UpdatedRequest(req, id, attachmentSize, out).transInfo, out)
  {
    forall k
      ensures k in out.metaData && k != DyeingKey && k != EnvTransfer ==>
        var t := UpdatedRequest(req, id, attachmentSize, out).transInfo; k in t && t[k] == out.metaData[k]
    {
      TransInfoReachesServer(req.transInfo, out.metaData, out.info.dyeingKey, out.envTransfer, k);
    }
  }

  /**
    What the client sends in its request metadata is what the server reads: the dyeing key
    and environment as set, the environment cleared rather than inherited when empty, and
    every other key from the message metadata, else from the request head.
   */
  lemma TransInfoReachesServer(trans: TransInfo, metaData: TransInfo, dyeingKey: string, env: string, k: string)
    ensures var t := ClientTransInfo(trans, metaData, dyeingKey, env);
            && (dyeingKey != "" ==> DyeingKey in t && t[DyeingKey] == dyeingKey)
            && (EnvTransfer in t ==> t[EnvTransfer] == env)
            && (env != "" ==> EnvTransfer in t)
            && (k != EnvTransfer && (k != DyeingKey || dyeingKey == "") ==>
                  && (k in t <==> k in metaData || k in trans)
                  && (k in metaData ==> t[k] == metaData[k])
                  && (k in trans && k !in metaData ==> t[k] == trans[k]))
  {
  }

  /** What a buffer must be, byte for byte, for its protobuf head to be found, and where that head is. */
  lemma PbHeadIff(buf: seq<byte>, head: seq<byte>)
    ensures PbHead(buf) == Ok(head) <==>
      && |buf| >= 16 && buf[2] == 0 && Uint32(buf[4..8]) == U32(|buf|)
      && var n := buf[8] as int * 0x100 + buf[9];
      && 1 <= n <= U32(|buf|) - 16 && head == buf[16..16 + n]
    ensures PbHead(buf) == Err(BufTooShort) <==> |buf| < 16
    ensures PbHead(buf) == Err(LenMismatch) <==> |buf| >= 16 && Uint32(buf[4..8]) != U32(|buf|)
    ensures PbHead(buf) == Err(NotUnary) <==> |buf| >= 16 && Uint32(buf[4..8]) == U32(|buf|) && buf[2] != 0
  {
  }

  /**
    An answer to another request is refused, whatever else it holds; so is one for a
    request id when the message has sent none, and a message whose response head is of
    another type takes none at all.
   */
  lemma ForeignAnswerRefused(pb: Pb, max: int, h: Head, rsp: ResponseProtocol, body: seq<byte>, attm: seq<byte>,
                             clientReq: Any, clientRsp: Any)
    requires Lawful(pb) && h.frameType == UnaryFrame && rsp != DefaultResponse
    requires rsp.attachmentSize == U32(|attm|) && EncodedHead(pb, max, h, rsp, body, attm).Ok?
    ensures var r := ClientDecoded(pb, clientReq, clientRsp, EncodedHead(pb, max, h, rsp, body, attm).value);
            if clientRsp != Nil && !clientRsp.Response? then r == Err(HeadTypeInvalid)
            else if clientReq == Nil && rsp.requestId != 0 then r == Err(RequestIdMismatch)
            else if clientReq.Request? && clientReq.req.requestId != rsp.requestId then r == Err(RequestIdMismatch)
            else r == Ok(Decoded(rsp, body, attm))
  {
    EmptyHeadIffDefault(pb, rsp, DefaultRequest);
    ConstructedLayout(h, pb.marshalRsp(rsp).value, body, attm, max);
    PartsOfConstructed(h, pb.marshalRsp(rsp).value, body, attm, max, |attm|);
  }

  /** The response head of a request, filled in for a reply: what it answers, how, and with which metadata. */
  lemma ResponseCarries(req: RequestProtocol, reply: Reply)
    ensures var rsp := InitResponse(NewResponse(req), reply);
            && rsp.requestId == req.requestId && rsp.callType == req.callType && rsp.messageType == req.messageType
            && rsp.version == 0 && rsp.transInfo == reply.metaData
            && rsp.contentType == U32(reply.serializationType) && rsp.contentEncoding == U32(reply.compressType)
  {
    assert map[] + reply.metaData == reply.metaData;
  }

  /** The head Encode starts from: the one stored; without it one that answers the stored request; else an empty one. */
  lemma StoredHead(heads: Heads)
    ensures heads.serverRsp.Response? ==> heads.serverRsp == Response(StoredResponse(heads))
    ensures !heads.serverRsp.Response? && heads.serverReq.Request? ==>
      var rsp, req := StoredResponse(heads), heads.serverReq.req;
      && rsp.requestId == req.requestId && rsp.callType == req.callType && rsp.messageType == req.messageType
      && rsp.contentType == req.contentType && rsp.contentEncoding == req.contentEncoding
      && rsp.ret == 0 && rsp.funcRet == 0 && rsp.errorMsg == "" && rsp.transInfo == map[]
    ensures !heads.serverRsp.Response? && !heads.serverReq.Request? ==> StoredResponse(heads) == DefaultResponse
  {
  }

  /** An error that is not the framework's own reaches the client as a business error of unknown code with its text. */
  lemma PlainErrorReachesClient(stored: ResponseProtocol, text: string, serializationType: int, compressType: int,
                                metaData: TransInfo)
    requires stored.ret == 0
    ensures ClientError(InitResponse(stored, Reply(serializationType, compressType, ErrorOf(Other(text)), metaData)))
         == Some(RpcError(ErrorTypeBusiness, 999, text))
    ensures ErrorOf(NilError) == ErrorOf(TypedNil) == None
  {
  }

  /** What the client takes from an answer within the limits, in terms of the stored head and the reply. */
  lemma SentAnswer(pb: Pb, max: int, h: Head, stored: ResponseProtocol, reply: Reply, body: seq<byte>, attm: seq<byte>,
                   before: TransInfo)
    requires EncodedHead(pb, max, h, InitResponse(stored, reply).(attachmentSize := U32(|attm|)), body, attm).Ok?
    ensures var sent := ServerEncoded(pb, max, h, InitResponse(stored, reply), body, attm).0;
            && sent.contentType == U32(reply.serializationType) && sent.contentEncoding == U32(reply.compressType)
            && before + sent.transInfo == before + stored.transInfo + reply.metaData
            && (CodesFree(stored, reply.err) ==> ClientError(sent) == MappedError(reply.err))
  {
    ErrorReachesClient(stored, reply, U32(|attm|));
    assert before + (stored.transInfo + reply.metaData) == before + stored.transInfo + reply.metaData;
  }

  /** What decodes has reached the message. */
  lemma DecodedReached(pb: Pb, clientReq: Any, clientRsp: Any, buf: seq<byte>)
    ensures ServerDecoded(pb, buf).Ok? ==>
      var d := ServerDecoded(pb, buf).value;
      |buf| >= FrameHeadLen && RequestReached(pb, buf) == Some((d.head, d.attachment))
    ensures ClientDecoded(pb, clientReq, clientRsp, buf).Ok? ==>
      var d := ClientDecoded(pb, clientReq, clientRsp, buf).value;
      && |buf| >= FrameHeadLen && AnswersRequest(clientReq, d.head)
      && AnswerReached(pb, clientRsp, buf) == Some((d.head, d.attachment))
    ensures ClientDecoded(pb, clientReq, clientRsp, buf) == Err(HeadLenEmpty) ==>
      AnswerReached(pb, clientRsp, buf) == None
  {
  }

  // ------------------------------------------------------------------ request ids

  /** The counter of a client codec after n requests: Encode adds one modulo 2^32 each time. */
  function CounterAfter(start: uint32, n: nat): uint32 {
    if n == 0 then start else U32(CounterAfter(start, n - 1) + 1)
  }

  lemma OneMore(x: nat)
    ensures U32(U32(x) + 1) == U32(x + 1)
  {
    var q := x / 0x1_0000_0000;
    assert x == q * 0x1_0000_0000 + U32(x);
    if U32(x) == MaxUint32 {
      assert x + 1 == (q + 1) * 0x1_0000_0000;
    } else {
      assert x + 1 == q * 0x1_0000_0000 + (U32(x) + 1);
    }
  }

  lemma {:induction false} CounterIsSum(start: uint32, n: nat)
    ensures CounterAfter(start, n) == U32(start + n)
  {
    if n > 0 {
      CounterIsSum(start, n - 1);
      OneMore(start + n - 1);
    }
  }

  /**
    Two requests of one client codec have the same id exactly when a multiple of 2^32 lies
    between them: ids are unique over any run of 2^32 requests, and the next one repeats.
   */
  lemma RequestIdsUnique(start: uint32, i: nat, j: nat)
    requires i <= j
    ensures CounterAfter(start, i) == CounterAfter(start, j) <==> U32(j - i) == 0
    ensures i < j < i + 0x1_0000_0000 ==> CounterAfter(start, i) != CounterAfter(start, j)
    ensures CounterAfter(start, i + 0x1_0000_0000) == CounterAfter(start, i)
  {
    CounterIsSum(start, i);
    CounterIsSum(start, j);
    CounterIsSum(start, i + 0x1_0000_0000);
    SameResidue(start + i, start + j);
    SameResidue(start + i, start + i + 0x1_0000_0000);
  }

  lemma SameResidue(a: nat, b: nat)
    requires a <= b
    ensures U32(a) == U32(b) <==> U32(b - a) == 0
  {
    var p, q, d := a / 0x1_0000_0000, b / 0x1_0000_0000, (b - a) / 0x1_0000_0000;
    assert a == p * 0x1_0000_0000 + U32(a);
    assert b == q * 0x1_0000_0000 + U32(b);
    assert b - a == d * 0x1_0000_0000 + U32(b - a);
  }
}

/** The unary codecs as they work on messages: client and server, Encode and Decode (codec.go). */
module UnaryCodec {
  import opened Bytes
  import opened Outcomes
  import opened Protocol
  import opened Wire
  import opened Message
  import opened UnarySpec

  /** The attachment a message holds under a key, if any. */
  ghost function AttachmentAt(msg: Msg, k: MetaKey): Attachment?
    reads msg`commonMeta, msg.commonMeta
  {
    if msg.commonMeta != null && k in msg.commonMeta.m && msg.commonMeta.m[k].Attached?
    then msg.commonMeta.m[k].a
    else null
  }

  method FindAttachment(msg: Msg, k: MetaKey) returns (a: Attachment?)
    ensures a == AttachmentAt(msg, k)
  {
    a := null;
    if msg.commonMeta != null && k in msg.commonMeta.m {
      match msg.commonMeta.m[k]
      case Attached(x) => a := x;
      case UserValue(_) =>
    }
  }

  /** io.ReadAll on the request attachment of a client: its bytes, none if there is no attachment. */
  method ReadRequestAttachment(msg: Msg) returns (r: Option<seq<byte>>)
    modifies AttachmentAt(msg, ClientAttachmentKey)
    ensures var a := old(AttachmentAt(msg, ClientAttachmentKey));
            && r == (if a == null then Some([])
                     else if old(a.request.fails) then None else Some(old(a.request.content)))
            && (a != null ==>
                  && a.response == old(a.response)
                  && a.request == if r.Some? then old(a.request).(content := []) else old(a.request))
  {
    var a := FindAttachment(msg, ClientAttachmentKey);
    if a == null {
      return Some([]);
    }
    if a.request.fails {
      return None;
    }
    r := Some(a.request.content);
    a.request := a.request.(content := []);
  }

  /** SetClientResponseAttachment: only a message that asked for attachments gets one. */
  method SetResponseAttachment(msg: Msg, attm: seq<byte>)
    modifies AttachmentAt(msg, ClientAttachmentKey)
    ensures var a := AttachmentAt(msg, ClientAttachmentKey);
            a != null ==>
              && a.request == old(AttachmentAt(msg, ClientAttachmentKey).request)
              && a.response == if attm != [] then Source(attm, false)
                               else old(AttachmentAt(msg, ClientAttachmentKey).response)
  {
    var a := FindAttachment(msg, ClientAttachmentKey);
    if |attm| != 0 && a != null {
      a.response := Source(attm, false);
    }
  }

  ghost function MetaDataOf(d: MetaData?): TransInfo
    reads d
  {
    if d == null then map[] else d.m
  }

  /** `for k, v := range md { trans[k] = v }` */
  method Merge(trans: TransInfo, md: MetaData?) returns (r: TransInfo)
    ensures r == trans + MetaDataOf(md)
  {
    r := trans;
    if md == null {
      return;
    }
    var keys := md.m.Keys;
    while keys != {}
      invariant keys <= md.m.Keys
      invariant r.Keys == trans.Keys + (md.m.Keys - keys)
      invariant forall k | k in r :: r[k] == if k in md.m && k !in keys then md.m[k] else trans[k]
      decreases keys
    {
      var k :| k in keys;
      r := r[k := md.m[k]];
      keys := keys - {k};
    }
  }

  /** setClientTransInfo */
  method SetClientTransInfo(msg: Msg, trans: TransInfo) returns (r: TransInfo)
    ensures r == ClientTransInfo(trans, MetaDataOf(msg.clientMetaData), msg.info.dyeingKey, msg.place.envTransfer)
  {
    r := Merge(trans, msg.clientMetaData);
    if |msg.info.dyeingKey| > 0 {
      r := r[DyeingKey := msg.info.dyeingKey];
    }
    if |msg.place.envTransfer| > 0 {
      r := r[EnvTransfer := msg.place.envTransfer];
    } else if EnvTransfer in r {
      r := r[EnvTransfer := ""];
    }
  }

  /** loadOrStoreDefaultUnaryFrameHead */
  method LoadOrStoreFrameHead(msg: Msg) returns (h: FrameHead)
    modifies msg`frameHead
    ensures msg.frameHead == h
    ensures if old(msg.frameHead) != null then h == old(msg.frameHead)
            else fresh(h) && h.View() == DefaultUnaryHead
  {
    if msg.frameHead == null {
      msg.frameHead := new FrameHead.DefaultUnary();
    }
    h := msg.frameHead;
  }

  /** The opening checks both decoders share; the extracted frame head is stored in the message. */
  method ReadPbHead(msg: Msg, buf: seq<byte>) returns (frameHead: FrameHead, r: Result<seq<byte>, CodecError>)
    modifies msg`frameHead
    ensures r == PbHead(buf)
    ensures |buf| >= FrameHeadLen ==>
      msg.frameHead == frameHead && fresh(frameHead) && frameHead.View() == ParseHead(buf)
    ensures |buf| < FrameHeadLen ==> msg.frameHead == old(msg.frameHead)
  {
    frameHead := new FrameHead.DefaultUnary();
    if |buf| < FrameHeadLen {
      return frameHead, Err(BufTooShort);
    }
    frameHead.Extract(buf);
    msg.frameHead := frameHead;
    if frameHead.totalLen != U32(|buf|) {
      return frameHead, Err(LenMismatch);
    }
    if frameHead.frameType != UnaryFrame {
      return frameHead, Err(NotUnary);
    }
    if frameHead.headerLen == 0 {
      return frameHead, Err(HeadLenEmpty);
    }
    var end := FrameHeadLen + frameHead.headerLen;
    if end > U32(|buf|) {
      return frameHead, Err(HeadLenInvalid);
    }
    return frameHead, Ok(buf[FrameHeadLen..end]);
  }

  /** The attachment check and slice of both decoders, in wrapping uint32 arithmetic. */
  method SliceAttachment(buf: seq<byte>, totalLen: uint32, size: uint32) returns (r: Result<seq<byte>, CodecError>)
    requires PbHead(buf).Ok? && totalLen == ParseHead(buf).totalLen
    ensures r == AttachmentPart(buf, size)
  {
    var begin := U32(totalLen - size);
    if U32(U32(|buf|) - begin) != size {
      return Err(AttachmentMismatch);
    }
    if begin > |buf| {
      return Err(SliceOutOfRange);
    }
    return Ok(buf[begin..]);
  }

  method SliceBody(buf: seq<byte>, head: seq<byte>, totalLen: uint32, size: uint32)
    returns (r: Result<seq<byte>, CodecError>)
    requires PbHead(buf) == Ok(head) && totalLen == ParseHead(buf).totalLen
    ensures r == BodyPart(buf, size)
  {
    var begin, end := FrameHeadLen + |head|, U32(totalLen - size);
    assert |head| == ParseHead(buf).headerLen;
    if begin > end || end > |buf| {
      return Err(SliceOutOfRange);
    }
    return Ok(buf[begin..end]);
  }

  /** Metadata of an answer is added to the client metadata, in place if there is any. */
  method TakeMetaData(msg: Msg, trans: TransInfo)
    modifies msg`clientMetaData, msg.clientMetaData
    ensures MetaDataOf(msg.clientMetaData) == old(MetaDataOf(msg.clientMetaData)) + trans
  {
    if |trans| > 0 {
      var md := msg.clientMetaData;
      if md == null || |md.m| == 0 {
        md := new MetaData(map[]);
      }
      md.m := md.m + trans;
      msg.WithClientMetaData(md);
    }
  }

  function ServedPlace(place: Place, trans: TransInfo): Place {
    if EnvTransfer in trans then place.(envTransfer := trans[EnvTransfer]) else place
  }

  /** What the server takes from the metadata of a request: a copy of them, the dyeing key, the environment. */
  method TakeTransInfo(msg: Msg, trans: TransInfo)
    modifies msg`info, msg`serverMetaData, msg`place
    ensures if trans == map[] then msg.serverMetaData == old(msg.serverMetaData)
            else msg.serverMetaData != null && fresh(msg.serverMetaData) && msg.serverMetaData.m == trans
    ensures msg.info ==
            if DyeingKey in trans then old(msg.info).(dyeingKey := trans[DyeingKey]) else old(msg.info)
    ensures msg.place == ServedPlace(old(msg.place), trans)
  {
    if |trans| > 0 {
      var md := new MetaData(trans);
      msg.WithServerMetaData(md);
      if DyeingKey in trans {
        msg.info := msg.info.(dyeingKey := trans[DyeingKey]);
      }
      if EnvTransfer in trans {
        msg.place := msg.place.(envTransfer := trans[EnvTransfer]);
      }
    }
  }

  class ClientCodec {
    const pb: Pb
    const maxFrameSize: int
    const defaultCaller: string
    var requestID: uint32

    constructor (pb: Pb, maxFrameSize: int, defaultCaller: string)
      ensures this.pb == pb && this.maxFrameSize == maxFrameSize
      ensures this.defaultCaller == defaultCaller && requestID == 0
    {
      this.pb, this.maxFrameSize, this.defaultCaller := pb, maxFrameSize, defaultCaller;
      requestID := 0;
    }

    /** What of the message goes on the wire, the caller filled in. */
    ghost function OutgoingOf(msg: Msg): Outgoing
      reads msg`caller, msg`callee, msg`clientRPCName, msg`info, msg`place, msg`clientMetaData, msg.clientMetaData
    {
      Outgoing(
        if msg.caller.serviceName == "" then defaultCaller else msg.caller.serviceName,
        msg.callee.serviceName, msg.clientRPCName, msg.info, msg.place.envTransfer,
        MetaDataOf(msg.clientMetaData))
    }

    /** The request head Encode starts from; None if the message holds a head of another type. */
    static function StoredRequest(clientReq: Any): (r: Option<RequestProtocol>)
      ensures r.None? <==> !clientReq.Nil? && !clientReq.Request?
      ensures r.Some? && clientReq.Request? ==> clientReq == Request(r.value)
    {
      match clientReq
      case Nil => Some(DefaultRequest)
      case Request(req) => Some(req)
      case _ => None
    }

    /**
      Encode allocates the next request id, fills in the request head and frames it. The
      frame head already stored in the message may be shared with an upstream call: it is
      not written, a new one carries the id.
     */
    method Encode(msg: Msg, body: seq<byte>) returns (r: Result<seq<byte>, CodecError>)
      modifies this`requestID, msg`frameHead, msg`heads, msg`info, msg`caller,
        AttachmentAt(msg, ClientAttachmentKey)
      ensures var kind := if old(msg.frameHead) == null then UnaryFrame else old(msg.frameHead.frameType);
              if kind == StreamFrame then r == Err(NotUnary) && unchanged(this)
              else if kind != UnaryFrame then r == Err(UnknownFrameType) && unchanged(this)
              else if StoredRequest(old(msg.heads.clientReq)).None? then r == Err(HeadTypeInvalid) && unchanged(this)
              else
                && msg.info.requestID == requestID == U32(old(requestID) + 1)
                && r == EncodedUnary(old(OutgoingOf(msg)), old(RequestAttachment(msg)),
                          StoredRequest(old(msg.heads.clientReq)).value, requestID, body)
                && (old(RequestAttachment(msg)).Some? ==>
                      && msg.caller == NamedCaller(old(msg.caller))
                      && msg.heads.clientReq == Request(RequestFor(old(OutgoingOf(msg)), old(RequestAttachment(msg)).value,
                                                       StoredRequest(old(msg.heads.clientReq)).value, requestID)))
      ensures msg.info == old(msg.info).(requestID := msg.info.requestID)
      ensures msg.heads == old(msg.heads).(clientReq := msg.heads.clientReq)
    {
      var stored := LoadOrStoreFrameHead(msg);
      if stored.frameType == StreamFrame {
        return Err(NotUnary);
      }
      if stored.frameType != UnaryFrame {
        return Err(UnknownFrameType);
      }
      var req := StoredRequest(msg.heads.clientReq);
      if req.None? {
        return Err(HeadTypeInvalid);
      }
      r := EncodeUnary(msg, req.value, body);
    }

    ghost function RequestAttachment(msg: Msg): Option<seq<byte>>
      reads msg`commonMeta, msg.commonMeta, AttachmentAt(msg, ClientAttachmentKey)
    {
      var a := AttachmentAt(msg, ClientAttachmentKey);
      if a == null then Some([]) else if a.request.fails then None else Some(a.request.content)
    }

    ghost function RequestFor(out: Outgoing, attm: seq<byte>, req: RequestProtocol, id: uint32): RequestProtocol {
      UpdatedRequest(req, id, U32(|attm|), out)
    }

    ghost function EncodedUnary(out: Outgoing, attm: Option<seq<byte>>, req: RequestProtocol, id: uint32,
                                body: seq<byte>): Result<seq<byte>, CodecError>
    {
      match attm
      case None => Err(AttachmentUnreadable)
      case Some(a) => ClientEncoded(pb, maxFrameSize, RequestFor(out, a, req, id), id, body, a)
    }

    method EncodeUnary(msg: Msg, req: RequestProtocol, body: seq<byte>) returns (r: Result<seq<byte>, CodecError>)
      modifies this`requestID, msg`heads, msg`info, msg`caller, AttachmentAt(msg, ClientAttachmentKey)
      ensures requestID == U32(old(requestID) + 1)
      ensures r == EncodedUnary(old(OutgoingOf(msg)), old(RequestAttachment(msg)), req, requestID, body)
      ensures msg.info == old(msg.info).(requestID := requestID)
      ensures msg.caller == if old(RequestAttachment(msg)).Some? then NamedCaller(old(msg.caller)) else old(msg.caller)
      ensures old(RequestAttachment(msg)).Some? ==>
        msg.heads == old(msg.heads).(
          clientReq := Request(RequestFor(old(OutgoingOf(msg)), old(RequestAttachment(msg)).value, req, requestID)))
      ensures old(RequestAttachment(msg)).None? ==> msg.heads == old(msg.heads).(clientReq := Request(req))
    {
      msg.heads := msg.heads.(clientReq := Request(req));
      requestID := U32(requestID + 1);
      var frameHead := new FrameHead.DefaultUnary();
      frameHead.UpgradeProtocol(CurProtocolVersion, requestID);
      msg.info := msg.info.(requestID := requestID);
      var attm := ReadRequestAttachment(msg);
      if attm.None? {
        return Err(AttachmentUnreadable);
      }
      r := SendRequest(msg, frameHead, req, body, attm.value);
    }

    /** The rest of Encode: the request head is completed from the message, stored and framed. */
    method SendRequest(msg: Msg, frameHead: FrameHead, req: RequestProtocol, body: seq<byte>, attm: seq<byte>)
      returns (r: Result<seq<byte>, CodecError>)
      requires frameHead.View() == DefaultUnaryHead.(streamID := msg.info.requestID)
      modifies msg`heads, msg`caller
      ensures var sent := RequestFor(old(OutgoingOf(msg)), attm, req, msg.info.requestID);
              && r == ClientEncoded(pb, maxFrameSize, sent, msg.info.requestID, body, attm)
              && msg.heads == old(msg.heads).(clientReq := Request(sent))
      ensures msg.caller == NamedCaller(old(msg.caller))
    {
      UpdateCallerServiceName(msg);
      var sent := UpdateRequest(msg, req.(attachmentSize := U32(|attm|)));
      msg.heads := msg.heads.(clientReq := Request(sent));
      r := FrameRequest(frameHead, sent, body, attm);
    }

    function NamedCaller(caller: Party): (r: Party)
      ensures r.serviceName == if caller.serviceName == "" then defaultCaller else caller.serviceName
    {
      if caller.serviceName == "" then WithServiceName(caller, defaultCaller) else caller
    }

    method UpdateCallerServiceName(msg: Msg)
      modifies msg`caller
      ensures msg.caller == NamedCaller(old(msg.caller))
    {
      if msg.caller.serviceName == "" {
        msg.WithCallerServiceName(defaultCaller);
      }
    }

    method FrameRequest(frameHead: FrameHead, req: RequestProtocol, body: seq<byte>, attm: seq<byte>)
      returns (r: Result<seq<byte>, CodecError>)
      requires frameHead.View() == DefaultUnaryHead.(streamID := frameHead.streamID)
      ensures r == ClientEncoded(pb, maxFrameSize, req, frameHead.streamID, body, attm)
    {
      var head := pb.marshalReq(req);
      if head.None? {
        return Err(MarshalFailed);
      }
      var c := frameHead.Construct(head.value, body, attm, maxFrameSize);
      match c
      case Ok(frame) => return Ok(frame);
      case Err(e) => return Err(WireFailed(e));
    }

    /** updateRequestProtocol */
    method UpdateRequest(msg: Msg, req: RequestProtocol) returns (r: RequestProtocol)
      ensures r == UpdatedRequest(req, msg.info.requestID, req.attachmentSize,
                     Outgoing(msg.caller.serviceName, msg.callee.serviceName, msg.clientRPCName, msg.info,
                              msg.place.envTransfer, MetaDataOf(msg.clientMetaData)))
    {
      var trans := SetClientTransInfo(msg, req.transInfo);
      r := req.(
        requestId := msg.info.requestID, caller := msg.caller.serviceName, callee := msg.callee.serviceName,
        func := msg.clientRPCName, contentType := U32(msg.info.serializationType),
        contentEncoding := U32(msg.info.compressType),
        timeout := U32(TruncDiv(msg.info.requestTimeout, 1_000_000)),
        transInfo := trans, callType := msg.info.callType);
      if msg.info.dyeing {
        r := r.(messageType := SetDyeingBit(req.messageType));
      }
    }

    /**
      Decode: the body of the answer or the error, and what either leaves in the message.
      Error and metadata of an answer are recorded even when its request id does not match
      or its body cannot be sliced; before that point only heads are written.
     */
    method Decode(msg: Msg, buf: seq<byte>) returns (r: Result<seq<byte>, CodecError>)
      modifies msg`frameHead, msg`info, msg`heads, msg`clientRspErr, msg`clientMetaData, msg.clientMetaData,
        AttachmentAt(msg, ClientAttachmentKey)
      ensures match ClientDecoded(pb, old(msg.heads.clientReq), old(msg.heads.clientRsp), buf)
              case Err(e) => r == Err(e)
              case Ok(d) => r == Ok(d.body)
      ensures if |buf| >= FrameHeadLen then msg.frameHead != null && fresh(msg.frameHead)
              else msg.frameHead == old(msg.frameHead)
      ensures var reached := AnswerReached(pb, old(msg.heads.clientRsp), buf);
              if reached.None? then
                && msg.info == old(msg.info) && msg.clientRspErr == old(msg.clientRspErr)
                && MetaDataOf(msg.clientMetaData) == old(MetaDataOf(msg.clientMetaData))
                && (|buf| >= FrameHeadLen ==> msg.frameHead.View() == ParseHead(buf))
                && msg.heads == old(msg.heads).(clientRsp := msg.heads.clientRsp)
              else
                var (rsp, attm) := reached.value;
                var accepted := AnswersRequest(old(msg.heads.clientReq), rsp);
                && msg.heads.clientRsp == Response(rsp)
                && msg.clientRspErr ==
                   (match ClientError(rsp) case None => old(msg.clientRspErr) case Some(e) => Trpc(e))
                && MetaDataOf(msg.clientMetaData) == old(MetaDataOf(msg.clientMetaData)) + rsp.transInfo
                && msg.info == old(msg.info).(requestID := if accepted then rsp.requestId else old(msg.info.requestID),
                     serializationType := rsp.contentType, compressType := rsp.contentEncoding)
                && (|buf| >= FrameHeadLen ==>
                      msg.frameHead.View() ==
                        if accepted then ParseHead(buf).(protocolVersion := CurProtocolVersion, streamID := rsp.requestId)
                        else ParseHead(buf))
                && (accepted && AttachmentAt(msg, ClientAttachmentKey) != null && attm != [] ==>
                      AttachmentAt(msg, ClientAttachmentKey).response == Source(attm, false))
    {
      var frameHead, head := ReadPbHead(msg, buf);
      if head.Err? {
        return Err(head.error);
      }
      if !ResponseHeadUsable(msg.heads.clientRsp) {
        return Err(HeadTypeInvalid);
      }
      if msg.heads.clientRsp.Nil? {
        msg.heads := msg.heads.(clientRsp := Response(DefaultResponse));
      }
      var parsed := pb.unmarshalRsp(head.value);
      if parsed.None? {
        return Err(UnmarshalFailed);
      }
      var rsp := parsed.value;
      msg.heads := msg.heads.(clientRsp := Response(rsp));
      var totalLen := frameHead.totalLen;
      var attm := SliceAttachment(buf, totalLen, rsp.attachmentSize);
      if attm.Err? {
        return Err(attm.error);
      }
      var ok := UpdateMsg(msg, frameHead, rsp, attm.value);
      if !ok {
        return Err(RequestIdMismatch);
      }
      r := SliceBody(buf, head.value, totalLen, rsp.attachmentSize);
    }

    /** The part of updateMsg that happens whatever the request id. */
    method RecordAnswer(msg: Msg, rsp: ResponseProtocol)
      modifies msg`info, msg`clientRspErr, msg`clientMetaData, msg.clientMetaData
      ensures msg.info == old(msg.info).(serializationType := rsp.contentType, compressType := rsp.contentEncoding)
      ensures msg.clientRspErr ==
        match ClientError(rsp) case None => old(msg.clientRspErr) case Some(e) => Trpc(e)
      ensures MetaDataOf(msg.clientMetaData) == old(MetaDataOf(msg.clientMetaData)) + rsp.transInfo
    {
      msg.info := msg.info.(compressType := rsp.contentEncoding, serializationType := rsp.contentType);
      TakeMetaData(msg, rsp.transInfo);
      if rsp.ret != 0 {
        msg.clientRspErr := Trpc(RpcError(ErrorTypeCalleeFramework, rsp.ret, rsp.errorMsg));
      } else if rsp.funcRet != 0 {
        msg.clientRspErr := Trpc(RpcError(ErrorTypeBusiness, rsp.funcRet, rsp.errorMsg));
      }
    }

    /** updateMsg: false when the answer is for another request. */
    method UpdateMsg(msg: Msg, frameHead: FrameHead, rsp: ResponseProtocol, attm: seq<byte>) returns (ok: bool)
      modifies msg`frameHead, msg`info, msg`heads, msg`clientRspErr, msg`clientMetaData, msg.clientMetaData,
        frameHead, AttachmentAt(msg, ClientAttachmentKey)
      ensures msg.frameHead == frameHead
      ensures ok == AnswersRequest(old(msg.heads.clientReq), rsp)
      ensures msg.heads == old(msg.heads).(clientReq :=
                if old(msg.heads.clientReq.Nil?) then Request(DefaultRequest) else old(msg.heads.clientReq))
      ensures msg.clientRspErr ==
        match ClientError(rsp) case None => old(msg.clientRspErr) case Some(e) => Trpc(e)
      ensures MetaDataOf(msg.clientMetaData) == old(MetaDataOf(msg.clientMetaData)) + rsp.transInfo
      ensures !ok ==>
        && frameHead.View() == old(frameHead.View())
        && msg.info == old(msg.info).(serializationType := rsp.contentType, compressType := rsp.contentEncoding)
      ensures ok ==>
        && frameHead.View() ==
           old(frameHead.View()).(protocolVersion := CurProtocolVersion, streamID := rsp.requestId)
        && msg.info == old(msg.info).(requestID := rsp.requestId,
             serializationType := rsp.contentType, compressType := rsp.contentEncoding)
        && (AttachmentAt(msg, ClientAttachmentKey) != null && attm != [] ==>
              AttachmentAt(msg, ClientAttachmentKey).response == Source(attm, false))
    {
      msg.frameHead := frameHead;
      RecordAnswer(msg, rsp);
      var known := AnswersRequest(msg.heads.clientReq, rsp);
      if msg.heads.clientReq.Nil? {
        msg.heads := msg.heads.(clientReq := Request(DefaultRequest));
      }
      if !known {
        return false;
      }
      AcceptAnswer(msg, frameHead, rsp, attm);
      return true;
    }

    /** The part of updateMsg for an answer to this request. */
    method AcceptAnswer(msg: Msg, frameHead: FrameHead, rsp: ResponseProtocol, attm: seq<byte>)
      modifies msg`info, frameHead`protocolVersion, frameHead`streamID, AttachmentAt(msg, ClientAttachmentKey)
      ensures frameHead.View() ==
        old(frameHead.View()).(protocolVersion := CurProtocolVersion, streamID := rsp.requestId)
      ensures msg.info == old(msg.info).(requestID := rsp.requestId)
      ensures AttachmentAt(msg, ClientAttachmentKey) != null && attm != [] ==>
        AttachmentAt(msg, ClientAttachmentKey).response == Source(attm, false)
    {
      frameHead.UpgradeProtocol(CurProtocolVersion, rsp.requestId);
      msg.info := msg.info.(requestID := rsp.requestId);
      SetResponseAttachment(msg, attm);
    }
  }

  class ServerCodec {
    const pb: Pb
    const maxFrameSize: int

    constructor (pb: Pb, maxFrameSize: int)
      ensures this.pb == pb && this.maxFrameSize == maxFrameSize
    {
      this.pb, this.maxFrameSize := pb, maxFrameSize;
    }

    static function ServedInfo(info: CallInfo, req: RequestProtocol): CallInfo {
      info.(
        requestTimeout := req.timeout * 1_000_000, callType := req.callType,
        serializationType := req.contentType, compressType := req.contentEncoding,
        dyeing := DyeingBit(req.messageType),
        dyeingKey := if DyeingKey in req.transInfo then req.transInfo[DyeingKey] else info.dyeingKey)
    }

    static function ServedCallee(callee: Party, serverRPCName: string, req: RequestProtocol): Party {
      var callee := WithServiceName(callee, req.callee);
      if serverRPCName == req.func then callee else WithRPCName(callee, req.func)
    }

    /**
      Decode: the request body or the error. Once head and attachment have been read the
      message describes the request and holds a response head for it, even if the body
      cannot be sliced; before that only the frame head is written.
     */
    method Decode(msg: Msg, buf: seq<byte>) returns (r: Result<seq<byte>, CodecError>)
      modifies msg`frameHead, msg`heads, msg`info, msg`caller, msg`callee, msg`serverRPCName, msg`serverMetaData,
        msg`place, msg`commonMeta, msg.commonMeta
      ensures match ServerDecoded(pb, buf)
              case Err(e) => r == Err(e)
              case Ok(d) => r == Ok(d.body)
      ensures if |buf| < FrameHeadLen then msg.frameHead == old(msg.frameHead)
              else msg.frameHead != null && fresh(msg.frameHead) && msg.frameHead.View() == ParseHead(buf)
      ensures var reached := RequestReached(pb, buf);
              if reached.None? then
                && unchanged(msg`heads, msg`info, msg`caller, msg`callee, msg`serverRPCName, msg`serverMetaData)
                && unchanged(msg`place, msg`commonMeta) && (msg.commonMeta != null ==> unchanged(msg.commonMeta))
              else
                var (req, attm) := reached.value;
                && msg.heads == old(msg.heads).(serverReq := Request(req), serverRsp := Response(NewResponse(req)))
                && msg.info == ServedInfo(old(msg.info), req)
                && msg.caller == WithServiceName(old(msg.caller), req.caller)
                && msg.callee == ServedCallee(old(msg.callee), old(msg.serverRPCName), req)
                && msg.serverRPCName == req.func
                && (if req.transInfo == map[] then msg.serverMetaData == old(msg.serverMetaData)
                    else
                      && msg.serverMetaData != null && fresh(msg.serverMetaData)
                      && msg.serverMetaData.m == req.transInfo)
                && msg.place == ServedPlace(old(msg.place), req.transInfo)
                && (attm != [] ==>
                      var a := AttachmentAt(msg, ServerAttachmentKey);
                      a != null && a.request == Source(attm, false) && a.response == Source([], false))
    {
      var frameHead, head := ReadPbHead(msg, buf);
      if head.Err? {
        return Err(head.error);
      }
      var parsed := pb.unmarshalReq(head.value);
      if parsed.None? {
        return Err(UnmarshalFailed);
      }
      var req := parsed.value;
      var attm := SliceAttachment(buf, frameHead.totalLen, req.attachmentSize);
      if attm.Err? {
        return Err(attm.error);
      }
      DescribeRequest(msg, req);
      SetRequestAttachment(msg, attm.value);
      r := SliceBody(buf, head.value, frameHead.totalLen, req.attachmentSize);
    }

    /** msgWithRequestProtocol, the attachment aside. */
    method DescribeRequest(msg: Msg, req: RequestProtocol)
      modifies msg`heads, msg`info, msg`caller, msg`callee, msg`serverRPCName, msg`serverMetaData, msg`place
      ensures msg.heads == old(msg.heads).(serverReq := Request(req), serverRsp := Response(NewResponse(req)))
      ensures msg.info == ServedInfo(old(msg.info), req)
      ensures msg.caller == WithServiceName(old(msg.caller), req.caller)
      ensures msg.callee == ServedCallee(old(msg.callee), old(msg.serverRPCName), req)
      ensures msg.serverRPCName == req.func
      ensures if req.transInfo == map[] then msg.serverMetaData == old(msg.serverMetaData)
              else msg.serverMetaData != null && fresh(msg.serverMetaData) && msg.serverMetaData.m == req.transInfo
      ensures msg.place == ServedPlace(old(msg.place), req.transInfo)
    {
      msg.heads := msg.heads.(serverReq := Request(req), serverRsp := Response(NewResponse(req)));
      msg.info := msg.info.(requestTimeout := req.timeout * 1_000_000);
      msg.WithCallerServiceName(req.caller);
      msg.WithCalleeServiceName(req.callee);
      msg.WithServerRPCName(req.func);
      msg.info := msg.info.(serializationType := req.contentType, compressType := req.contentEncoding,
        dyeing := DyeingBit(req.messageType));
      TakeTransInfo(msg, req.transInfo);
      msg.info := msg.info.(callType := req.callType);
    }

    /** SetServerRequestAttachment, for a non-empty attachment. */
    method SetRequestAttachment(msg: Msg, attm: seq<byte>)
      modifies msg`commonMeta, msg.commonMeta
      ensures attm == [] ==> msg.commonMeta == old(msg.commonMeta)
      ensures attm == [] && msg.commonMeta != null ==> unchanged(msg.commonMeta)
      ensures attm != [] ==>
        var a := AttachmentAt(msg, ServerAttachmentKey);
        && a != null && fresh(a) && a.request == Source(attm, false) && a.response == Source([], false)
        && msg.commonMeta != null && (old(msg.commonMeta) != null ==> msg.commonMeta == old(msg.commonMeta))
        && msg.commonMeta.m ==
           (if old(msg.commonMeta) == null then map[] else old(msg.commonMeta.m))[ServerAttachmentKey := Attached(a)]
    {
      if |attm| != 0 {
        if msg.commonMeta == null {
          msg.commonMeta := new CommonMeta(map[]);
        }
        var a := new Attachment(Source(attm, false), Source([], false));
        msg.commonMeta.m := msg.commonMeta.m[ServerAttachmentKey := Attached(a)];
      }
    }

    ghost function ReplyOf(msg: Msg): Reply
      reads msg`info, msg`serverRspErr, msg`serverMetaData, msg.serverMetaData
    {
      Reply(msg.info.serializationType, msg.info.compressType, ErrorOf(msg.serverRspErr), MetaDataOf(msg.serverMetaData))
    }

    ghost function ResponseAttachment(msg: Msg): Option<seq<byte>>
      reads msg`commonMeta, msg.commonMeta, AttachmentAt(msg, ServerAttachmentKey)
    {
      var a := AttachmentAt(msg, ServerAttachmentKey);
      if a == null then Some([]) else if a.response.fails then None else Some(a.response.content)
    }

    /** Encode: the response framed under the frame head of its request, or the fallback frame. */
    method Encode(msg: Msg, body: seq<byte>) returns (r: Result<seq<byte>, CodecError>)
      modifies msg`frameHead, msg`heads, AttachmentAt(msg, ServerAttachmentKey)
      ensures var h := if old(msg.frameHead) == null then DefaultUnaryHead else old(msg.frameHead.View());
              if h.frameType == StreamFrame then r == Err(NotUnary)
              else if h.frameType != UnaryFrame then r == Err(UnknownFrameType)
              else
                match old(ResponseAttachment(msg))
                case None => r == Err(AttachmentUnreadable)
                case Some(attm) =>
                  var (sent, frame) := ServerEncoded(pb, maxFrameSize, h,
                                         InitResponse(StoredResponse(old(msg.heads)), old(ReplyOf(msg))), body, attm);
                  && r == frame
                  && msg.heads == (if old(msg.heads.serverRsp.Response?)
                                   then old(msg.heads).(serverRsp := Response(sent)) else old(msg.heads))
      ensures var a := old(AttachmentAt(msg, ServerAttachmentKey));
              a != null ==>
                && a.request == old(a.request)
                && a.response ==
                   if old(a.response.fails) || (old(msg.frameHead) != null && old(msg.frameHead.frameType) != UnaryFrame)
                   then old(a.response) else old(a.response).(content := [])
    {
      var frameHead := LoadOrStoreFrameHead(msg);
      if frameHead.frameType == StreamFrame {
        return Err(NotUnary);
      }
      if frameHead.frameType != UnaryFrame {
        return Err(UnknownFrameType);
      }
      var rsp := GetAndInitResponse(msg);
      var attm := ReadResponseAttachment(msg);
      if attm.None? {
        return Err(AttachmentUnreadable);
      }
      rsp, r := FrameOrFallback(frameHead, rsp, body, attm.value);
      StoreResponse(msg, rsp);
    }

    /** The two attempts of Encode and handleEncodeErr. */
    method FrameOrFallback(frameHead: FrameHead, rsp: ResponseProtocol, body: seq<byte>, attm: seq<byte>)
      returns (final: ResponseProtocol, r: Result<seq<byte>, CodecError>)
      ensures (final, r) == ServerEncoded(pb, maxFrameSize, frameHead.View(), rsp, body, attm)
    {
      final := rsp.(attachmentSize := U32(|attm|));
      r := FrameResponse(frameHead, final, body, attm);
      if r.Err? && r.error.WireFailed? {
        var e := r.error.e;
        if FallsBack(e) {
          final := FallbackHead(final, e);
          r := FrameResponse(frameHead, final, FallbackBody(body, e), []);
        }
      }
    }

    /** The response head is updated in place only if the message holds one. */
    method StoreResponse(msg: Msg, rsp: ResponseProtocol)
      modifies msg`heads
      ensures msg.heads == if old(msg.heads.serverRsp.Response?) then old(msg.heads).(serverRsp := Response(rsp))
                           else old(msg.heads)
    {
      if msg.heads.serverRsp.Response? {
        msg.heads := msg.heads.(serverRsp := Response(rsp));
      }
    }

    method GetAndInitResponse(msg: Msg) returns (rsp: ResponseProtocol)
      modifies msg`heads
      ensures rsp == InitResponse(StoredResponse(old(msg.heads)), ReplyOf(msg))
      ensures msg.heads == if old(msg.heads.serverRsp.Response?) then old(msg.heads).(serverRsp := Response(rsp))
                           else old(msg.heads)
    {
      rsp := StoredResponse(msg.heads);
      rsp := rsp.(contentType := U32(msg.info.serializationType), contentEncoding := U32(msg.info.compressType));
      var err := msg.ServerRspErr();
      if err.Some? {
        rsp := rsp.(errorMsg := err.value.msg);
        if err.value.kind == ErrorTypeFramework {
          rsp := rsp.(ret := err.value.code);
        } else {
          rsp := rsp.(funcRet := err.value.code);
        }
      }
      var trans := Merge(rsp.transInfo, msg.serverMetaData);
      rsp := rsp.(transInfo := trans);
      StoreResponse(msg, rsp);
    }

    method ReadResponseAttachment(msg: Msg) returns (r: Option<seq<byte>>)
      modifies AttachmentAt(msg, ServerAttachmentKey)
      ensures r == old(ResponseAttachment(msg))
      ensures var a := old(AttachmentAt(msg, ServerAttachmentKey));
              a != null ==>
                && a.request == old(a.request)
                && a.response == if old(a.response.fails) then old(a.response) else old(a.response).(content := [])
    {
      var a := FindAttachment(msg, ServerAttachmentKey);
      if a == null {
        return Some([]);
      }
      if a.response.fails {
        return None;
      }
      r := Some(a.response.content);
      a.response := a.response.(content := []);
    }

    method FrameResponse(frameHead: FrameHead, rsp: ResponseProtocol, body: seq<byte>, attm: seq<byte>)
      returns (r: Result<seq<byte>, CodecError>)
      ensures r == EncodedHead(pb, maxFrameSize, frameHead.View(), rsp, body, attm)
    {
      var head := pb.marshalRsp(rsp);
      if head.None? {
        return Err(MarshalFailed);
      }
      var c := frameHead.Construct(head.value, body, attm, maxFrameSize);
      match c
      case Ok(frame) => return Ok(frame);
      case Err(e) => return Err(WireFailed(e));
    }
  }
}
