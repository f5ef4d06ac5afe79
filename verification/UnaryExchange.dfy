/** A unary call as the two ends run it: codecs, messages and framers put together (codec.go). */
module UnaryExchange {
  import opened Bytes
  import opened Outcomes
  import opened Protocol
  import opened Wire
  import opened Message
  import opened RpcNames
  import opened UnarySpec
  import opened UnaryLaws
  import opened UnaryCodec

  /** Both ends use one protobuf library and one frame limit that fits in 32 bits. */
  ghost predicate Agree(client: ClientCodec, server: ServerCodec) {
    client.pb == server.pb && Lawful(client.pb) && client.maxFrameSize == server.maxFrameSize <= MaxUint32
  }

  /** Server Decode on a frame known to decode. */
  method ReceiveRequest(server: ServerCodec, sm: Msg, frame: seq<byte>, ghost d: Decoded<RequestProtocol>)
    returns (r: Result<seq<byte>, CodecError>)
    requires ServerDecoded(server.pb, frame) == Ok(d)
    modifies sm`frameHead, sm`heads, sm`info, sm`caller, sm`callee, sm`serverRPCName, sm`serverMetaData,
      sm`place, sm`commonMeta, sm.commonMeta
    ensures r == Ok(d.body)
    ensures sm.heads.serverReq == Request(d.head) && sm.heads.serverRsp == Response(NewResponse(d.head))
    ensures |frame| >= FrameHeadLen && sm.frameHead != null && sm.frameHead.View() == ParseHead(frame)
    ensures d.attachment != [] ==>
      var a := AttachmentAt(sm, ServerAttachmentKey);
      a != null && a.request == Source(d.attachment, false)
    ensures sm.caller.serviceName == d.head.caller && sm.callee.serviceName == d.head.callee
    ensures sm.serverRPCName == d.head.func
    ensures old(sm.serverRPCName) != d.head.func && RpcNameIsTRPCForm(d.head.func) ==>
      sm.callee.method_ == MethodFromRPCName(d.head.func)
    ensures sm.info.callType == d.head.callType && sm.info.requestTimeout == d.head.timeout * 1_000_000
    ensures sm.info.serializationType == d.head.contentType && sm.info.compressType == d.head.contentEncoding
    ensures sm.info.dyeing == (d.head.messageType % 2 == 1)
    ensures DyeingKey in d.head.transInfo ==> sm.info.dyeingKey == d.head.transInfo[DyeingKey]
    ensures EnvTransfer in d.head.transInfo ==> sm.place.envTransfer == d.head.transInfo[EnvTransfer]
    ensures d.head.transInfo != map[] ==> MetaDataOf(sm.serverMetaData) == d.head.transInfo
  {
    DecodedReached(server.pb, Nil, Nil, frame);
    r := server.Decode(sm, frame);
  }

  /** Client Decode, where the outcome of decoding is known. */
  method ReceiveAnswer(client: ClientCodec, cm: Msg, frame: seq<byte>,
                       ghost d: Result<Decoded<ResponseProtocol>, CodecError>)
    returns (r: Result<seq<byte>, CodecError>)
    requires ClientDecoded(client.pb, cm.heads.clientReq, cm.heads.clientRsp, frame) == d
    modifies cm`frameHead, cm`info, cm`heads, cm`clientRspErr, cm`clientMetaData, cm.clientMetaData,
      AttachmentAt(cm, ClientAttachmentKey)
    ensures d == Err(HeadLenEmpty) ==> r == Err(HeadLenEmpty) && cm.clientRspErr == old(cm.clientRspErr)
    ensures d.Ok? ==>
      && r == Ok(d.value.body)
      && cm.heads.clientRsp == Response(d.value.head) && cm.info.requestID == d.value.head.requestId
      && cm.clientRspErr == Recorded(ClientError(d.value.head), old(cm.clientRspErr))
      && (AttachmentAt(cm, ClientAttachmentKey) != null && d.value.attachment != [] ==>
            AttachmentAt(cm, ClientAttachmentKey).response == Source(d.value.attachment, false))
      && cm.info.serializationType == d.value.head.contentType
      && cm.info.compressType == d.value.head.contentEncoding
      && MetaDataOf(cm.clientMetaData) == old(MetaDataOf(cm.clientMetaData)) + d.value.head.transInfo
  {
    DecodedReached(client.pb, cm.heads.clientReq, cm.heads.clientRsp, frame);
    r := client.Decode(cm, frame);
  }

  /** The error a client message holds after an answer: the one of the answer, or the one it held. */
  function Recorded(err: Option<RpcError>, before: GoError): GoError {
    match err
    case None => before
    case Some(e) => Trpc(e)
  }

  /**
    The request leg: client Encode, the framer, server Decode. Whatever the client could
    encode arrives: the body, the request head the client recorded in its own message, a
    frame head carrying the id the client allocated, and in the server's message who calls
    whom and which method, the call type, content types, dyeing, environment and metadata of
    the client's, and its timeout in whole milliseconds.
   */
  method SendRequest(client: ClientCodec, server: ServerCodec, cm: Msg, sm: Msg, body: seq<byte>, behind: seq<byte>)
    returns (encoded: bool, r: Result<seq<byte>, CodecError>)
    requires Agree(client, server) && client.defaultCaller != "" && cm != sm
    modifies client`requestID, cm`frameHead, cm`heads, cm`info, cm`caller, AttachmentAt(cm, ClientAttachmentKey)
    modifies sm`frameHead, sm`heads, sm`info, sm`caller, sm`callee, sm`serverRPCName, sm`serverMetaData,
      sm`place, sm`commonMeta, sm.commonMeta
    ensures !encoded ==> r.Err?
    ensures !encoded && old(Sendable(client, cm)) ==> r.error.MarshalFailed? || r.error.WireFailed?
    ensures encoded ==>
      && r == Ok(body)
      && cm.heads.clientReq.Request? && cm.heads.clientReq.req.requestId == client.requestID
      && sm.heads.serverReq == cm.heads.clientReq
      && sm.heads.serverRsp == Response(NewResponse(cm.heads.clientReq.req))
      && sm.frameHead != null && sm.frameHead.frameType == UnaryFrame && sm.frameHead.streamID == client.requestID
      && old(client.RequestAttachment(cm)).Some?
      && (old(client.RequestAttachment(cm)).value != [] ==>
            var a := AttachmentAt(sm, ServerAttachmentKey);
            a != null && a.request == Source(old(client.RequestAttachment(cm)).value, false))
    ensures encoded ==>
      && cm.caller.serviceName == (if old(cm.caller.serviceName) == "" then client.defaultCaller
                                   else old(cm.caller.serviceName))
      && sm.caller.serviceName == cm.caller.serviceName && sm.callee.serviceName == cm.callee.serviceName
      && sm.serverRPCName == cm.clientRPCName
      && (old(sm.serverRPCName) != cm.clientRPCName && RpcNameIsTRPCForm(cm.clientRPCName) ==>
            sm.callee.method_ == MethodFromRPCName(cm.clientRPCName))
    ensures encoded ==>
      && sm.info.callType == cm.info.callType
      && sm.info.serializationType == U32(cm.info.serializationType)
      && sm.info.compressType == U32(cm.info.compressType)
      && WholeMilliseconds(sm.info.requestTimeout, cm.info.requestTimeout)
      && (sm.info.dyeing <==> cm.info.dyeing || HeldMessageType(old(cm.heads.clientReq)) % 2 == 1)
      && (cm.info.dyeingKey != "" ==> sm.info.dyeingKey == cm.info.dyeingKey)
      && (cm.place.envTransfer != "" ==> sm.place.envTransfer == cm.place.envTransfer)
    ensures encoded ==> forall k | k in MetaDataOf(cm.clientMetaData) && k != DyeingKey && k != EnvTransfer ::
      k in MetaDataOf(sm.serverMetaData) && MetaDataOf(sm.serverMetaData)[k] == MetaDataOf(cm.clientMetaData)[k]
  {
    var frame;
    ghost var d;
    frame, d := DeliverRequest(client, server, cm, body, behind);
    if frame.Err? {
      return false, frame;
    }
    encoded := true;
    r := ReceiveRequest(server, sm, frame.value, d);
  }

  /** What goes out for a message, its caller named. */
  ghost function OutgoingNow(cm: Msg): Outgoing
    reads cm, cm.clientMetaData
  {
    Outgoing(cm.caller.serviceName, cm.callee.serviceName, cm.clientRPCName, cm.info, cm.place.envTransfer,
      MetaDataOf(cm.clientMetaData))
  }

  /** The first half: client Encode and the framer, up to the frame the server is to decode. */
  method DeliverRequest(client: ClientCodec, server: ServerCodec, cm: Msg, body: seq<byte>, behind: seq<byte>)
    returns (frame: Result<seq<byte>, CodecError>, ghost d: Decoded<RequestProtocol>)
    requires Agree(client, server) && client.defaultCaller != ""
    modifies client`requestID, cm`frameHead, cm`heads, cm`info, cm`caller, AttachmentAt(cm, ClientAttachmentKey)
    ensures frame.Err? && old(Sendable(client, cm)) ==> frame.error.MarshalFailed? || frame.error.WireFailed?
    ensures frame.Ok? ==>
      && ServerDecoded(server.pb, frame.value) == Ok(d) && d.body == body
      && old(client.RequestAttachment(cm)) == Some(d.attachment)
      && cm.heads.clientReq == Request(d.head) && d.head.requestId == client.requestID
      && |frame.value| >= FrameHeadLen && ParseHead(frame.value).frameType == UnaryFrame
      && ParseHead(frame.value).streamID == client.requestID
      && cm.caller.serviceName == (if old(cm.caller.serviceName) == "" then client.defaultCaller
                                   else old(cm.caller.serviceName))
      && Says(d.head, OutgoingNow(cm), HeldMessageType(old(cm.heads.clientReq)))
  {
    ghost var out := client.OutgoingOf(cm);
    ghost var attm := client.RequestAttachment(cm);
    ghost var stored := ClientCodec.StoredRequest(cm.heads.clientReq);
    d := Decoded(DefaultRequest, [], []);
    frame := client.Encode(cm, body);
    if frame.Ok? {
      ghost var id := client.requestID;
      ghost var req := client.RequestFor(out, attm.value, stored.value, id);
      d := Decoded(req, body, attm.value);
      RequestRoundTrip(client.pb, client.maxFrameSize, req, id, body, attm.value, behind);
      RequestCarries(stored.value, id, U32(|attm.value|), out);
      SaysWithoutId(req, out, stored.value.messageType, id);
      assert OutgoingNow(cm) == out.(info := out.info.(requestID := id));
      DecodedReached(server.pb, Nil, Nil, frame.value);
      var f := Transmit(frame.value, behind, server.maxFrameSize);
      frame := Ok(f.value);
    }
  }

  /** Nothing in the message stands in the way of a request: neither its heads nor its attachment. */
  ghost predicate Sendable(client: ClientCodec, cm: Msg)
    reads cm, cm.frameHead, cm.commonMeta, AttachmentAt(cm, ClientAttachmentKey)
  {
    && (cm.frameHead == null || cm.frameHead.frameType == UnaryFrame)
    && (cm.heads.clientReq.Nil? || cm.heads.clientReq.Request?)
    && client.RequestAttachment(cm).Some?
  }

  /** The message type of the request head a client message held. */
  function HeldMessageType(clientReq: Any): uint32 {
    if clientReq.Request? then clientReq.req.messageType else 0
  }

  /** What the server puts on the wire for a message: the response head and the frame. */
  ghost function Answer(server: ServerCodec, sm: Msg, body: seq<byte>, attm: seq<byte>)
    : (ResponseProtocol, Result<seq<byte>, CodecError>)
    requires sm.frameHead != null
    reads sm, sm.frameHead, sm.serverMetaData
  {
    ServerEncoded(server.pb, server.maxFrameSize, sm.frameHead.View(),
      InitResponse(StoredResponse(sm.heads), server.ReplyOf(sm)), body, attm)
  }

  /** The limits are kept, so that no fallback is needed. */
  ghost predicate WithinLimits(server: ServerCodec, sm: Msg, body: seq<byte>, attm: seq<byte>)
    requires sm.frameHead != null
    reads sm, sm.frameHead, sm.serverMetaData
  {
    EncodedHead(server.pb, server.maxFrameSize, sm.frameHead.View(),
      InitResponse(StoredResponse(sm.heads), server.ReplyOf(sm)).(attachmentSize := U32(|attm|)), body, attm).Ok?
  }

  /**
    The response leg: server Encode, the framer, client Decode. Within the limits the body
    and the attachment arrive, and the client records what the handler returned, mapped as
    MappedError says, unless codes left in the stored head get in the way.
   */
  method SendResponse(client: ClientCodec, server: ServerCodec, sm: Msg, cm: Msg, body: seq<byte>, behind: seq<byte>)
    returns (r: Result<seq<byte>, CodecError>)
    requires Agree(client, server) && cm != sm
    requires sm.frameHead != null && sm.frameHead.frameType == UnaryFrame
    requires cm.heads.clientReq.Request? && ResponseHeadUsable(cm.heads.clientRsp)
    requires cm.heads.clientReq.req.requestId == StoredResponse(sm.heads).requestId
    modifies sm`frameHead, sm`heads, AttachmentAt(sm, ServerAttachmentKey)
    modifies cm`frameHead, cm`info, cm`heads, cm`clientRspErr, cm`clientMetaData, cm.clientMetaData,
      AttachmentAt(cm, ClientAttachmentKey)
    ensures var attm := old(server.ResponseAttachment(sm));
      attm.Some? && old(WithinLimits(server, sm, body, attm.value)) ==>
        var sent := old(Answer(server, sm, body, attm.value)).0;
        if sent == DefaultResponse then r == Err(HeadLenEmpty) && cm.clientRspErr == old(cm.clientRspErr)
        else
          && r == Ok(body)
          && cm.heads.clientRsp == Response(sent) && cm.info.requestID == sent.requestId
          && cm.clientRspErr == Recorded(ClientError(sent), old(cm.clientRspErr))
          && (CodesFree(StoredResponse(old(sm.heads)), old(sm.ServerRspErr())) ==>
                cm.clientRspErr == Recorded(MappedError(old(sm.ServerRspErr())), old(cm.clientRspErr)))
          && (AttachmentAt(cm, ClientAttachmentKey) != null && attm.value != [] ==>
                AttachmentAt(cm, ClientAttachmentKey).response == Source(attm.value, false))
          && cm.info.serializationType == U32(old(sm.info.serializationType))
          && cm.info.compressType == U32(old(sm.info.compressType))
          && MetaDataOf(cm.clientMetaData) ==
             old(MetaDataOf(cm.clientMetaData)) + StoredResponse(old(sm.heads)).transInfo + old(MetaDataOf(sm.serverMetaData))
  {
    ghost var attm := server.ResponseAttachment(sm);
    ghost var fits := attm.Some? && WithinLimits(server, sm, body, attm.value);
    ghost var h, stored, reply := sm.frameHead.View(), StoredResponse(sm.heads), server.ReplyOf(sm);
    var frame := DeliverResponse(client, server, sm, cm, body, behind);
    if frame.Err? {
      return frame;
    }
    if fits {
      SentAnswer(server.pb, server.maxFrameSize, h, stored, reply, body, attm.value, MetaDataOf(cm.clientMetaData));
    }
    r := ReceiveAnswer(client, cm, frame.value,
      ClientDecoded(client.pb, cm.heads.clientReq, cm.heads.clientRsp, frame.value));
  }

  /** The first half: server Encode and the framer, up to the frame the client is to decode. */
  method DeliverResponse(client: ClientCodec, server: ServerCodec, sm: Msg, cm: Msg, body: seq<byte>, behind: seq<byte>)
    returns (r: Result<seq<byte>, CodecError>)
    requires Agree(client, server)
    requires sm.frameHead != null && sm.frameHead.frameType == UnaryFrame
    requires cm.heads.clientReq.Request? && ResponseHeadUsable(cm.heads.clientRsp)
    requires cm.heads.clientReq.req.requestId == StoredResponse(sm.heads).requestId
    modifies sm`frameHead, sm`heads, AttachmentAt(sm, ServerAttachmentKey)
    ensures var attm := old(server.ResponseAttachment(sm));
      attm.Some? && old(WithinLimits(server, sm, body, attm.value)) ==>
        var sent := old(Answer(server, sm, body, attm.value)).0;
        && r.Ok?
        && ClientDecoded(client.pb, old(cm.heads.clientReq), old(cm.heads.clientRsp), r.value) ==
           (if sent == DefaultResponse then Err(HeadLenEmpty) else Ok(Decoded(sent, body, attm.value)))
  {
    ghost var h := sm.frameHead.View();
    ghost var attm := server.ResponseAttachment(sm);
    ghost var rsp := InitResponse(StoredResponse(sm.heads), server.ReplyOf(sm));
    ghost var clientReq, clientRsp := cm.heads.clientReq, cm.heads.clientRsp;
    ghost var fits := attm.Some? && WithinLimits(server, sm, body, attm.value);
    var answer := server.Encode(sm, body);
    if answer.Err? {
      return answer;
    }
    if fits {
      ResponseRoundTrip(server.pb, server.maxFrameSize, h, rsp.(attachmentSize := U32(|attm.value|)), body, attm.value,
        clientReq, clientRsp, behind);
    }
    var frame := Transmit(answer.value, behind, client.maxFrameSize);
    if frame.Err? {
      return Err(WireFailed(frame.error));
    }
    return Ok(frame.value);
  }
}
