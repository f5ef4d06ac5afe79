/** Errors and protocol messages carried by a Msg. The protobuf messages are plain values. */
module Protocol {
  import opened Bytes
  import opened Outcomes

  const ErrorTypeFramework := 1
  const ErrorTypeBusiness := 2
  const ErrorTypeCalleeFramework := 3

  const RetServerDecodeFail: int32 := 1
  const RetServerEncodeFail: int32 := 2
  const RetUnknown: int32 := 999

  /** errs.Error without its cause and stack. */
  datatype RpcError = RpcError(kind: int, code: int32, msg: string)

  /**
    A Go `error` value. A nil *errs.Error stored in the interface is not a nil
    interface, hence TypedNil.
   */
  datatype GoError = NilError | TypedNil | Trpc(e: RpcError) | Other(text: string)

  type TransInfo = map<string, string>

  datatype RequestProtocol = RequestProtocol(
    version: uint32, callType: uint32, requestId: uint32, timeout: uint32,
    caller: string, callee: string, func: string, messageType: uint32,
    transInfo: TransInfo, contentType: uint32, contentEncoding: uint32, attachmentSize: uint32)

  datatype ResponseProtocol = ResponseProtocol(
    version: uint32, callType: uint32, requestId: uint32, ret: int32, funcRet: int32,
    errorMsg: string, messageType: uint32, transInfo: TransInfo,
    contentType: uint32, contentEncoding: uint32, attachmentSize: uint32)

  const DefaultRequest := RequestProtocol(0, 0, 0, 0, "", "", "", 0, map[], 0, 0, 0)
  const DefaultResponse := ResponseProtocol(0, 0, 0, 0, 0, "", 0, map[], 0, 0, 0)

  datatype InitRequestMeta = InitRequestMeta(
    caller: string, callee: string, func: string, messageType: uint32, transInfo: TransInfo)

  datatype InitResponseMeta = InitResponseMeta(ret: int32, errorMsg: string)

  datatype InitMeta = InitMeta(
    request: Option<InitRequestMeta>, response: Option<InitResponseMeta>,
    initWindowSize: uint32, contentType: uint32, contentEncoding: uint32)

  datatype CloseMeta = CloseMeta(
    closeType: int32, ret: int32, msg: string, messageType: uint32, transInfo: TransInfo, funcRet: int32)

  datatype FeedbackMeta = FeedbackMeta(windowSizeIncrement: uint32)

  /** The dynamic type of the head fields and the stream frame field of a Msg. */
  datatype Any =
    | Nil
    | Request(req: RequestProtocol)
    | Response(rsp: ResponseProtocol)
    | Init(init: InitMeta)
    | Close(close: CloseMeta)
    | Feedback(feedback: FeedbackMeta)
    | Foreign(id: int)

  datatype Addr = Addr(network: string, text: string)
}

/** The message object, its setters with side effects, and CopyMsg (codec/message_impl.go, codec/message.go). */
module Message {
  import opened Bytes
  import opened Outcomes
  import opened Protocol
  import opened RpcNames
  import opened Wire

  /** A Go map of type MetaData: a shared, mutable object. */
  class MetaData {
    var m: TransInfo

    constructor (init: TransInfo)
      ensures m == init
    {
      m := init;
    }

    method Put(k: string, v: string)
      modifies this
      ensures m == old(m)[k := v]
    {
      m := m[k := v];
    }
  }

  /** An attachment reader: the bytes left, and whether reading it reports an error. */
  datatype Source = Source(content: seq<byte>, fails: bool)

  class Attachment {
    var request: Source
    var response: Source

    constructor (request: Source, response: Source)
      ensures this.request == request && this.response == response
    {
      this.request := request;
      this.response := response;
    }
  }

  datatype MetaKey = ClientAttachmentKey | ServerAttachmentKey | UserKey(name: string)
  datatype MetaValue = Attached(a: Attachment) | UserValue(id: int)

  class CommonMeta {
    var m: map<MetaKey, MetaValue>

    constructor (init: map<MetaKey, MetaValue>)
      ensures m == init
    {
      m := init;
    }
  }

  /** MetaData.Clone: nil stays nil, otherwise a new map filled key by key. */
  method CloneMetaData(src: MetaData?) returns (r: MetaData?)
    ensures (r == null) == (src == null)
    ensures r != null ==> fresh(r) && r.m == src.m
  {
    if src == null {
      return null;
    }
    var md := new MetaData(map[]);
    var keys := src.m.Keys;
    while keys != {}
      invariant keys <= src.m.Keys && fresh(md)
      invariant md.m.Keys == src.m.Keys - keys
      invariant forall k | k in md.m :: md.m[k] == src.m[k]
      decreases keys
    {
      var k :| k in keys;
      md.Put(k, src.m[k]);
      keys := keys - {k};
    }
    return md;
  }

  /** CommonMeta.Clone, likewise. */
  method CloneCommonMeta(src: CommonMeta?) returns (r: CommonMeta?)
    ensures (r == null) == (src == null)
    ensures r != null ==> fresh(r) && r.m == src.m
  {
    if src == null {
      return null;
    }
    var cm := new CommonMeta(map[]);
    var keys := src.m.Keys;
    while keys != {}
      invariant keys <= src.m.Keys && fresh(cm)
      invariant cm.m.Keys == src.m.Keys - keys
      invariant forall k | k in cm.m :: cm.m[k] == src.m[k]
      decreases keys
    {
      var k :| k in keys;
      cm.m := cm.m[k := src.m[k]];
      keys := keys - {k};
    }
    return cm;
  }

  /** Caller or callee, as a service name and its parts. */
  datatype Party = Party(serviceName: string, app: string, server: string, service: string, method_: string)

  /** Scalars of the call itself. */
  datatype CallInfo = CallInfo(
    requestTimeout: int, serializationType: int, compressType: int, callType: uint32,
    requestID: uint32, streamID: uint32, dyeing: bool, dyeingKey: string)

  /** Where the two ends run. */
  datatype Place = Place(
    namespace: string, setName: string, envName: string, envTransfer: string,
    calleeSetName: string, calleeContainerName: string)

  /** The protocol heads and the stream frame. */
  datatype Heads = Heads(serverReq: Any, serverRsp: Any, clientReq: Any, clientRsp: Any, streamFrame: Any)

  /** Everything the getters of a Msg return, the context aside; a nil metadata map reads as empty. */
  datatype Observed = Observed(
    frameHead: FrameHead?, info: CallInfo, serverRPCName: string, clientRPCName: string,
    caller: Party, callee: Party, place: Place, heads: Heads,
    localAddr: Option<Addr>, remoteAddr: Option<Addr>, logger: int,
    serverRspErr: Option<RpcError>, clientRspErr: GoError,
    serverMetaData: TransInfo, clientMetaData: TransInfo, commonMeta: Option<map<MetaKey, MetaValue>>)

  /** The callee after a new RPC name has been set. */
  function WithRPCName(callee: Party, rpcName: string): Party {
    if RpcNameIsTRPCForm(rpcName) then callee.(method_ := MethodFromRPCName(rpcName))
    else if callee.method_ == "" then callee.(method_ := rpcName)
    else callee
  }

  /** A party after its service name has been set. */
  function WithServiceName(p: Party, s: string): Party {
    if p.serviceName == s then p
    else if s == "*" then p.(serviceName := s)
    else
      var (app, server, service) := AppServerService(s);
      p.(serviceName := s, app := app, server := server, service := service)
  }

  /** A four-section service name sets all four fields of a party; one without change or "*" sets no parts. */
  lemma ServiceNameSets(p: Party, prefix: string, app: string, server: string, service: string)
    requires '.' !in prefix && '.' !in app && '.' !in server
    ensures var s := prefix + "." + (app + "." + (server + "." + service));
            p.serviceName != s ==> WithServiceName(p, s) == Party(s, app, server, service, p.method_)
    ensures WithServiceName(p, p.serviceName) == p && WithServiceName(p, "*") == p.(serviceName := "*")
  {
    FourSections(prefix, app, server, service);
    var s := prefix + "." + (app + "." + (server + "." + service));
    assert s[|prefix|] == '.' && (|prefix| == 0 ==> s[0] == '.');
  }

  /** A name of tRPC form sets the method to its last part; any other name only an empty method. */
  lemma RpcNameSets(callee: Party, s: string, package: string, service: string, rpc: string)
    ensures Matches(s, package, service, rpc) ==> WithRPCName(callee, s) == callee.(method_ := rpc)
    ensures !RpcNameIsTRPCForm(s) && callee.method_ == "" ==> WithRPCName(callee, s) == callee.(method_ := s)
    ensures !RpcNameIsTRPCForm(s) && callee.method_ != "" ==> WithRPCName(callee, s) == callee
  {
    if Matches(s, package, service, rpc) {
      ScannerIsRegex(s);
      DecompositionUnique(s, package, service, rpc, package, service, rpc);
    }
  }

  function ErrorOf(e: GoError): Option<RpcError> {
    match e
    case NilError => None
    case TypedNil => None
    case Trpc(err) => Some(err)
    case Other(text) => Some(RpcError(ErrorTypeBusiness, RetUnknown, text))
  }

  /** The message struct, its scalar fields grouped into records. */
  class Msg {
    var frameHead: FrameHead?
    var info: CallInfo
    var serverRPCName: string
    var clientRPCName: string
    var caller: Party
    var callee: Party
    var place: Place
    var heads: Heads
    var localAddr: Option<Addr>
    var remoteAddr: Option<Addr>
    var logger: int
    var serverRspErr: GoError
    var clientRspErr: GoError
    var serverMetaData: MetaData?
    var clientMetaData: MetaData?
    var commonMeta: CommonMeta?

    ghost function Observe(): Observed
      reads this, serverMetaData, clientMetaData, commonMeta
    {
      Observed(
        frameHead, info, serverRPCName, clientRPCName, caller, callee, place, heads,
        localAddr, remoteAddr, logger, ErrorOf(serverRspErr), clientRspErr,
        if serverMetaData == null then map[] else serverMetaData.m,
        if clientMetaData == null then map[] else clientMetaData.m,
        if commonMeta == null then None else Some(commonMeta.m))
    }

    /** resetDefault: what a message taken from the pool looks like. */
    constructor ()
      ensures Observe() == Observed(
                null, CallInfo(0, 0, 0, 0, 0, 0, false, ""), "", "", Party("", "", "", "", ""),
                Party("", "", "", "", ""), Place("", "", "", "", "", ""), Heads(Nil, Nil, Nil, Nil, Nil),
                None, None, 0, None, NilError, map[], map[], None)
      ensures serverMetaData == null && clientMetaData == null
    {
      frameHead, info := null, CallInfo(0, 0, 0, 0, 0, 0, false, "");
      serverRPCName, clientRPCName := "", "";
      caller, callee := Party("", "", "", "", ""), Party("", "", "", "", "");
      place, heads := Place("", "", "", "", "", ""), Heads(Nil, Nil, Nil, Nil, Nil);
      localAddr, remoteAddr, logger := None, None, 0;
      serverRspErr, clientRspErr := NilError, NilError;
      serverMetaData, clientMetaData, commonMeta := null, null, null;
    }

    method WithServerRPCName(s: string)
      modifies this`serverRPCName, this`callee
      ensures serverRPCName == s
      ensures callee == if old(serverRPCName) == s then old(callee) else WithRPCName(old(callee), s)
    {
      if serverRPCName == s {
        return;
      }
      serverRPCName := s;
      UpdateMethodNameUsingRPCName(s);
    }

    method WithClientRPCName(s: string)
      modifies this`clientRPCName, this`callee
      ensures clientRPCName == s
      ensures callee == if old(clientRPCName) == s then old(callee) else WithRPCName(old(callee), s)
    {
      if clientRPCName == s {
        return;
      }
      clientRPCName := s;
      UpdateMethodNameUsingRPCName(s);
    }

    method UpdateMethodNameUsingRPCName(s: string)
      modifies this`callee
      ensures callee == WithRPCName(old(callee), s)
    {
      if RpcNameIsTRPCForm(s) {
        callee := callee.(method_ := MethodFromRPCName(s));
        return;
      }
      if callee.method_ == "" {
        callee := callee.(method_ := s);
      }
    }

    method WithCalleeServiceName(s: string)
      modifies this`callee
      ensures callee == WithServiceName(old(callee), s)
    {
      if callee.serviceName == s {
        return;
      }
      callee := callee.(serviceName := s);
      if s == "*" {
        return;
      }
      var parts := AppServerService(s);
      callee := callee.(app := parts.0, server := parts.1, service := parts.2);
    }

    method WithCallerServiceName(s: string)
      modifies this`caller
      ensures caller == WithServiceName(old(caller), s)
    {
      if caller.serviceName == s {
        return;
      }
      caller := caller.(serviceName := s);
      if s == "*" {
        return;
      }
      var parts := AppServerService(s);
      caller := caller.(app := parts.0, server := parts.1, service := parts.2);
    }

    /** A nil map is replaced by an empty one. */
    method WithServerMetaData(d: MetaData?)
      modifies this`serverMetaData
      ensures if d == null then fresh(serverMetaData) && serverMetaData.m == map[] else serverMetaData == d
      ensures serverMetaData != null
    {
      if d == null {
        serverMetaData := new MetaData(map[]);
      } else {
        serverMetaData := d;
      }
    }

    method WithClientMetaData(d: MetaData?)
      modifies this`clientMetaData
      ensures if d == null then fresh(clientMetaData) && clientMetaData.m == map[] else clientMetaData == d
      ensures clientMetaData != null
    {
      if d == null {
        clientMetaData := new MetaData(map[]);
      } else {
        clientMetaData := d;
      }
    }

    function ServerRspErr(): Option<RpcError>
      reads this
    {
      ErrorOf(serverRspErr)
    }

    /** Storing a nil *errs.Error through the `error` parameter makes a typed nil. */
    method WithServerRspErr(e: Option<RpcError>)
      modifies this`serverRspErr
      ensures ServerRspErr() == e
    {
      match e
      case None => serverRspErr := TypedNil;
      case Some(err) => serverRspErr := Trpc(err);
    }
  }

  /** CopyMsg begins with the setters that rewrite other fields on the way. */
  method CopyNamesAndMetaData(dst: Msg, src: Msg)
    modifies dst`frameHead, dst`info, dst`serverRPCName, dst`clientRPCName, dst`serverMetaData,
      dst`clientMetaData, dst`caller, dst`callee
    ensures dst.frameHead == old(src.frameHead)
    ensures dst.info == old(src.info.(requestID := dst.info.requestID, callType := dst.info.callType))
    ensures dst.serverRPCName == old(src.serverRPCName) && dst.clientRPCName == old(src.clientRPCName)
    ensures dst.serverMetaData != null && fresh(dst.serverMetaData)
    ensures dst.clientMetaData != null && fresh(dst.clientMetaData) && dst.serverMetaData != dst.clientMetaData
    ensures dst.serverMetaData.m == old(if src.serverMetaData == null then map[] else src.serverMetaData.m)
    ensures dst.clientMetaData.m == old(if src.clientMetaData == null then map[] else src.clientMetaData.m)
    ensures dst.caller.serviceName == old(src.caller.serviceName)
    ensures dst.callee.serviceName == old(src.callee.serviceName)
    ensures dst == src ==> dst.caller == old(src.caller) && dst.callee == old(src.callee)
  {
    dst.frameHead := src.frameHead;
    dst.info := dst.info.(requestTimeout := src.info.requestTimeout,
      serializationType := src.info.serializationType, compressType := src.info.compressType,
      streamID := src.info.streamID, dyeing := src.info.dyeing, dyeingKey := src.info.dyeingKey);
    dst.WithServerRPCName(src.serverRPCName);
    dst.WithClientRPCName(src.clientRPCName);
    var smd := CloneMetaData(src.serverMetaData);
    dst.WithServerMetaData(smd);
    var cmd := CloneMetaData(src.clientMetaData);
    dst.WithClientMetaData(cmd);
    dst.WithCallerServiceName(src.caller.serviceName);
    dst.WithCalleeServiceName(src.callee.serviceName);
  }

  /** Then errors, protocol heads, addresses and logger. */
  method CopyHeads(dst: Msg, src: Msg)
    modifies dst`place, dst`heads, dst`localAddr, dst`remoteAddr, dst`logger, dst`serverRspErr, dst`clientRspErr
    ensures dst.place == old(dst.place.(calleeContainerName := src.place.calleeContainerName))
    ensures dst.heads == old(src.heads.(streamFrame := dst.heads.streamFrame))
    ensures dst.localAddr == old(src.localAddr) && dst.remoteAddr == old(src.remoteAddr)
    ensures dst.logger == old(src.logger) && dst.clientRspErr == old(src.clientRspErr)
    ensures dst.ServerRspErr() == old(src.ServerRspErr())
  {
    dst.place := dst.place.(calleeContainerName := src.place.calleeContainerName);
    dst.WithServerRspErr(src.ServerRspErr());
    dst.clientRspErr := src.clientRspErr;
    dst.heads := dst.heads.(serverReq := src.heads.serverReq, serverRsp := src.heads.serverRsp,
      clientReq := src.heads.clientReq, clientRsp := src.heads.clientRsp);
    dst.localAddr := src.localAddr;
    dst.remoteAddr := src.remoteAddr;
    dst.logger := src.logger;
  }

  /** Last the plain setters, among them the parts of caller and callee overwritten at first. */
  method CopyRest(dst: Msg, src: Msg)
    modifies dst`info, dst`caller, dst`callee, dst`place, dst`heads, dst`commonMeta
    ensures dst.info == old(dst.info.(requestID := src.info.requestID, callType := src.info.callType))
    ensures dst.caller == old(src.caller.(serviceName := dst.caller.serviceName))
    ensures dst.callee == old(src.callee.(serviceName := dst.callee.serviceName))
    ensures dst.place == old(src.place.(calleeContainerName := dst.place.calleeContainerName))
    ensures dst.heads == old(dst.heads.(streamFrame := src.heads.streamFrame))
    ensures (dst.commonMeta == null) == (old(src.commonMeta) == null)
    ensures dst.commonMeta != null ==> fresh(dst.commonMeta) && dst.commonMeta.m == old(src.commonMeta.m)
  {
    dst.caller := dst.caller.(app := src.caller.app, server := src.caller.server,
      service := src.caller.service, method_ := src.caller.method_);
    dst.callee := dst.callee.(app := src.callee.app, server := src.callee.server,
      service := src.callee.service, method_ := src.callee.method_);
    dst.place := dst.place.(namespace := src.place.namespace, setName := src.place.setName,
      envName := src.place.envName, envTransfer := src.place.envTransfer);
    dst.info := dst.info.(requestID := src.info.requestID);
    dst.heads := dst.heads.(streamFrame := src.heads.streamFrame);
    dst.place := dst.place.(calleeSetName := src.place.calleeSetName);
    var cm := CloneCommonMeta(src.commonMeta);
    dst.commonMeta := cm;
    dst.info := dst.info.(callType := src.info.callType);
  }

  /**
    CopyMsg, setter by setter in the order of the source. From any state of dst, every
    getter of dst then answers as src did, although the name setters overwrite callee and
    caller fields on the way. The metadata maps of dst are new objects, so no later write
    to them can reach src.
   */
  method CopyMsg(dst: Msg?, src: Msg?)
    modifies dst
    ensures dst != null && src == null ==> unchanged(dst)
    ensures dst != null && src != null ==>
      && dst.Observe() == old(src.Observe())
      && dst.serverMetaData != null && fresh(dst.serverMetaData)
      && dst.clientMetaData != null && fresh(dst.clientMetaData)
      && dst.serverMetaData != dst.clientMetaData
      && (dst.commonMeta != null ==> fresh(dst.commonMeta))
  {
    if dst == null || src == null {
      return;
    }
    CopyNamesAndMetaData(dst, src);
    CopyHeads(dst, src);
    CopyRest(dst, src);
  }

  /** The separation in use: writes through the copy's metadata leave the source as it was. */
  method CopyThenWrite(dst: Msg, src: Msg, k: string, v: string)
    requires dst != src
    modifies dst
    ensures src.Observe() == old(src.Observe())
    ensures dst.serverMetaData != null && dst.clientMetaData != null
    ensures dst.serverMetaData.m == old(src.Observe().serverMetaData)[k := v]
    ensures dst.clientMetaData.m == old(src.Observe().clientMetaData)[k := v]
  {
    CopyMsg(dst, src);
    dst.serverMetaData.Put(k, v);
    dst.clientMetaData.Put(k, v);
  }
}
