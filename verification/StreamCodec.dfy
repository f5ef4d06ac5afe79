/** The per-connection cache of INIT metadata, on values: nested maps, a flat view, and the runs that build it. */
module InitMetaCache {
  import opened Bytes
  import opened Outcomes
  import opened Protocol
  import RpcNames

  /** addr -> streamID -> INIT metadata, as the codec stores it. */
  type Streams = map<uint32, InitMeta>
  type Nested = map<string, Streams>

  datatype Key = Key(addr: string, id: uint32)

  function AddrToKey(local: Addr, remote: Addr): string {
    local.network + "_" + local.text + "_" + remote.text
  }

  /** What every key of one local address starts with. */
  function KeyPrefix(local: Addr): string {
    local.network + "_" + local.text + "_"
  }

  /** At one local address, clients with different remote addresses never share a key. */
  lemma SameKeySameRemote(local: Addr, remote: Addr, remote': Addr)
    ensures AddrToKey(local, remote) == AddrToKey(local, remote') <==> remote.text == remote'.text
  {
    var p := KeyPrefix(local);
    assert AddrToKey(local, remote)[|p|..] == remote.text && AddrToKey(local, remote')[|p|..] == remote'.text;
  }

  /** At two local addresses, clients never share a key exactly when neither prefix begins the other. */
  lemma LocalsApartIff(local: Addr, local': Addr)
    ensures (forall r: string, r': string :: AddrToKey(local, Addr("", r)) != AddrToKey(local', Addr("", r'))) <==>
            !(KeyPrefix(local) <= KeyPrefix(local')) && !(KeyPrefix(local') <= KeyPrefix(local))
  {
    var p, p' := KeyPrefix(local), KeyPrefix(local');
    if p <= p' {
      assert AddrToKey(local, Addr("", p'[|p|..])) == p' == AddrToKey(local', Addr("", ""));
    }
    if p' <= p {
      assert AddrToKey(local', Addr("", p[|p'|..])) == p == AddrToKey(local, Addr("", ""));
    }
    forall r: string, r': string | AddrToKey(local, Addr("", r)) == AddrToKey(local', Addr("", r'))
      ensures p <= p' || p' <= p
    {
      var k := p + r;
      assert k == p' + r' && p == k[..|p|] && p' == k[..|p'|];
    }
  }

  /** Without underscores in network and local address, as with host and port, a key tells all three parts. */
  lemma KeyTellsParts(local: Addr, remote: Addr, local': Addr, remote': Addr)
    requires '_' !in local.network && '_' !in local.text && '_' !in local'.network && '_' !in local'.text
    ensures AddrToKey(local, remote) == AddrToKey(local', remote') <==>
            local == local' && remote.text == remote'.text
  {
    if AddrToKey(local, remote) == AddrToKey(local', remote') {
      assert AddrToKey(local, remote) == local.network + "_" + (local.text + "_" + remote.text);
      assert AddrToKey(local', remote') == local'.network + "_" + (local'.text + "_" + remote'.text);
      UntilUnderscore(local.network, local.text + "_" + remote.text, local'.network, local'.text + "_" + remote'.text);
      UntilUnderscore(local.text, remote.text, local'.text, remote'.text);
    }
  }

  lemma UntilUnderscore(a: string, x: string, b: string, y: string)
    requires '_' !in a && '_' !in b
    requires a + "_" + x == b + "_" + y
    ensures a == b && x == y
  {
    var s := a + "_" + x;
    RpcNames.IndexAt(a, '_', x);
    RpcNames.IndexAt(b, '_', y);
    assert s[..|a|] == a && s[|a| + 1..] == x && s[..|b|] == b && s[|b| + 1..] == y;
  }

  /** Unix sockets whose paths hold underscores can share a key. */
  lemma UnixPathsCollide()
    ensures AddrToKey(Addr("unix", "a_b"), Addr("unix", "c")) == AddrToKey(Addr("unix", "a"), Addr("unix", "b_c"))
  {
    assert "unix" + "_" + "a_b" + "_" + "c" == "unix_a_b_c" == "unix" + "_" + "a" + "_" + "b_c";
  }

  /** storeInitMeta */
  function Stored(m: Nested, k: Key, meta: InitMeta): Nested {
    var inner: Streams := if k.addr in m then m[k.addr] else map[];
    m[k.addr := inner[k.id := meta]]
  }

  /** deleteInitMeta: an inner map that becomes empty goes too. */
  function Deleted(m: Nested, k: Key): Nested {
    if k.addr !in m then m
    else
      var inner := m[k.addr] - {k.id};
      if inner == map[] then m - {k.addr} else m[k.addr := inner]
  }

  ghost predicate NoEmptyInner(m: Nested) {
    forall a | a in m :: m[a] != map[]
  }

  ghost function Keys(m: Nested): set<Key> {
    set a, i | a in m && i in m[a] :: Key(a, i)
  }

  /** The nested map read as a flat one. */
  ghost function Flat(m: Nested): map<Key, InitMeta> {
    map k | k in Keys(m) :: m[k.addr][k.id]
  }

  lemma FlatLookup(m: Nested, k: Key)
    ensures k in Flat(m) <==> k.addr in m && k.id in m[k.addr]
    ensures k in Flat(m) ==> Flat(m)[k] == m[k.addr][k.id]
  {
    assert k == Key(k.addr, k.id);
  }

  lemma FlatOfStored(m: Nested, k: Key, meta: InitMeta)
    ensures Flat(Stored(m, k, meta)) == Flat(m)[k := meta]
    ensures NoEmptyInner(m) ==> NoEmptyInner(Stored(m, k, meta))
  {
    var m' := Stored(m, k, meta);
    forall q: Key
      ensures q in Flat(m') <==> q in Flat(m)[k := meta]
      ensures q in Flat(m') ==> Flat(m')[q] == Flat(m)[k := meta][q]
    {
      FlatLookup(m, q);
      FlatLookup(m', q);
    }
    assert k.id in m'[k.addr];
  }

  lemma FlatOfDeleted(m: Nested, k: Key)
    ensures Flat(Deleted(m, k)) == Flat(m) - {k}
    ensures NoEmptyInner(m) ==> NoEmptyInner(Deleted(m, k))
  {
    var m' := Deleted(m, k);
    forall q: Key
      ensures q in Flat(m') <==> q in Flat(m) - {k}
      ensures q in Flat(m') ==> Flat(m')[q] == Flat(m)[q]
    {
      FlatLookup(m, q);
      FlatLookup(m', q);
      assert k.addr in m ==> (q.id in m[k.addr] - {k.id} <==> q.id in m[k.addr] && q.id != k.id);
    }
  }

  /** Without empty inner maps the flat view determines the nested one: nothing else is stored. */
  lemma FlatIsFaithful(m: Nested, n: Nested)
    requires NoEmptyInner(m) && NoEmptyInner(n) && Flat(m) == Flat(n)
    ensures m == n
  {
    AddressesKnown(m, n);
    AddressesKnown(n, m);
    forall a | a in m
      ensures m[a] == n[a]
    {
      forall i: uint32
        ensures i in m[a] <==> i in n[a]
        ensures i in m[a] ==> m[a][i] == n[a][i]
      {
        FlatLookup(m, Key(a, i));
        FlatLookup(n, Key(a, i));
      }
    }
  }

  lemma AddressesKnown(m: Nested, n: Nested)
    requires NoEmptyInner(m) && Flat(m) == Flat(n)
    ensures m.Keys <= n.Keys
  {
    forall a | a in m
      ensures a in n
    {
      var i :| i in m[a];
      FlatLookup(m, Key(a, i));
      FlatLookup(n, Key(a, i));
    }
  }

  // ------------------------------------------------------------------ runs

  /** What a run of the codec does to the cache. */
  datatype Event = InitStored(key: Key, meta: InitMeta) | CloseEncoded(key: Key)

  /** The cache after a run, event by event. */
  function CacheAfter(log: seq<Event>): map<Key, InitMeta> {
    if log == [] then map[]
    else
      var before := CacheAfter(log[..|log| - 1]);
      match log[|log| - 1]
      case InitStored(k, meta) => before[k := meta]
      case CloseEncoded(k) => before - {k}
  }

  /** The nested map is exactly the cache of a run, without empty inner maps or INITs lacking a request. */
  ghost predicate Consistent(m: Nested, log: seq<Event>) {
    && NoEmptyInner(m)
    && Flat(m) == CacheAfter(log)
    && forall k | k in CacheAfter(log) :: CacheAfter(log)[k].request.Some?
  }

  lemma StoredKeepsConsistent(m: Nested, log: seq<Event>, k: Key, meta: InitMeta)
    requires Consistent(m, log) && meta.request.Some?
    ensures Consistent(Stored(m, k, meta), log + [InitStored(k, meta)])
  {
    FlatOfStored(m, k, meta);
    assert (log + [InitStored(k, meta)])[..|log|] == log;
  }

  lemma DeletedKeepsConsistent(m: Nested, log: seq<Event>, k: Key)
    requires Consistent(m, log)
    ensures Consistent(Deleted(m, k), log + [CloseEncoded(k)])
  {
    FlatOfDeleted(m, k);
    assert (log + [CloseEncoded(k)])[..|log|] == log;
  }

  /** Event i stores the metadata of k and nothing later in the run concerns k. */
  predicate LatestInit(log: seq<Event>, k: Key, meta: InitMeta, i: nat) {
    && i < |log| && log[i] == InitStored(k, meta)
    && forall j | i < j < |log| :: log[j].key != k
  }

  /** The run holds an INIT for k with no later close. */
  ghost predicate Open(log: seq<Event>, k: Key) {
    exists i, meta :: LatestInit(log, k, meta, i)
  }

  /** Some INIT for k, with no later close, is the latest and names this RPC. */
  ghost predicate NamedByLatestInit(log: seq<Event>, k: Key, rpcName: string) {
    exists i, meta :: LatestInit(log, k, meta, i) && meta.request.Some? && meta.request.value.func == rpcName
  }

  /** The same for the streams of a client. */
  ghost predicate OpenFor(log: seq<Event>, local: Addr, remote: Addr, id: uint32) {
    Open(log, Key(AddrToKey(local, remote), id))
  }

  ghost predicate NamedFor(log: seq<Event>, local: Addr, remote: Addr, id: uint32, rpcName: string) {
    NamedByLatestInit(log, Key(AddrToKey(local, remote), id), rpcName)
  }

  /** Between two points of a run, no stream of another client was opened, closed or renamed. */
  ghost predicate OtherClientsKeep(before: seq<Event>, after: seq<Event>, local: Addr, remote: Addr) {
    && (forall r: Addr, id: uint32 | r.text != remote.text :: OpenFor(after, local, r, id) <==> OpenFor(before, local, r, id))
    && (forall r: Addr, id: uint32, name: string | r.text != remote.text ::
          NamedFor(after, local, r, id, name) <==> NamedFor(before, local, r, id, name))
  }

  lemma LatestInitKept(log: seq<Event>, e: Event, k: Key)
    requires e.key != k
    ensures forall i: nat, meta :: LatestInit(log + [e], k, meta, i) <==> LatestInit(log, k, meta, i)
  {
    var after := log + [e];
    assert after[|log|] == e && forall j | 0 <= j < |log| :: after[j] == log[j];
  }

  /** An event of one client leaves the streams of all others as they were. */
  lemma EventOfOneClient(log: seq<Event>, e: Event, local: Addr, remote: Addr)
    requires e.key.addr == AddrToKey(local, remote)
    ensures OtherClientsKeep(log, log + [e], local, remote)
  {
    forall r: Addr, id: uint32 | r.text != remote.text
      ensures OpenFor(log + [e], local, r, id) <==> OpenFor(log, local, r, id)
    {
      SameKeySameRemote(local, remote, r);
      LatestInitKept(log, e, Key(AddrToKey(local, r), id));
    }
    forall r: Addr, id: uint32, name: string | r.text != remote.text
      ensures NamedFor(log + [e], local, r, id, name) <==> NamedFor(log, local, r, id, name)
    {
      SameKeySameRemote(local, remote, r);
      LatestInitKept(log, e, Key(AddrToKey(local, r), id));
    }
  }

  /** What a lookup in the nested map means in terms of the run. */
  lemma LookupMeansLatestInit(m: Nested, log: seq<Event>, k: Key)
    requires Consistent(m, log)
    ensures k.addr in m && k.id in m[k.addr] <==> Open(log, k)
    ensures k.addr in m && k.id in m[k.addr] ==>
      && m[k.addr][k.id].request.Some?
      && NamedByLatestInit(log, k, m[k.addr][k.id].request.value.func)
  {
    FlatLookup(m, k);
    forall i, meta | LatestInit(log, k, meta, i)
      ensures k in CacheAfter(log)
    {
      CacheIsLatestInit(log, k, meta);
    }
    if k in CacheAfter(log) {
      CacheIsLatestInit(log, k, CacheAfter(log)[k]);
    }
  }

  /**
    A key is cached after a run exactly when some INIT for it has been stored with no
    later close encoded for it, and then the cached metadata are those of the latest INIT.
   */
  lemma {:induction false} CacheIsLatestInit(log: seq<Event>, k: Key, meta: InitMeta)
    ensures k in CacheAfter(log) && CacheAfter(log)[k] == meta <==> exists i :: LatestInit(log, k, meta, i)
  {
    if log != [] {
      var n := |log| - 1;
      var front := log[..n];
      CacheIsLatestInit(front, k, meta);
      forall i: nat
        ensures log[n].key != k ==> (LatestInit(log, k, meta, i) <==> LatestInit(front, k, meta, i))
        ensures log[n].key == k ==> (LatestInit(log, k, meta, i) <==> i == n && log[n] == InitStored(k, meta))
      {
        assert log[n].key != k ==> forall j | 0 <= j < n :: front[j] == log[j];
      }
      if log[n].key == k && log[n] == InitStored(k, meta) {
        assert LatestInit(log, k, meta, n);
      }
    }
  }
}

/** The stream codecs (codec_stream.go). */
module StreamCodec {
  import opened Bytes
  import opened Outcomes
  import opened Protocol
  import opened Wire
  import opened Message
  import opened InitMetaCache
  import UnarySpec
  import UnaryLaws
  import UnaryCodec

  const FrameInit: byte := 1
  const FrameData: byte := 2
  const FrameFeedback: byte := 3
  const FrameClose: byte := 4
  const StreamReset: int32 := 1

  /** The protobuf library on stream metadata. */
  datatype StreamPb = StreamPb(
    marshalInit: InitMeta -> Option<seq<byte>>,
    unmarshalInit: seq<byte> -> Option<InitMeta>,
    marshalClose: CloseMeta -> Option<seq<byte>>,
    unmarshalClose: seq<byte> -> Option<CloseMeta>,
    marshalFeedback: FeedbackMeta -> Option<seq<byte>>,
    unmarshalFeedback: seq<byte> -> Option<FeedbackMeta>)

  ghost predicate LawfulStream(pb: StreamPb) {
    && (forall m :: pb.marshalInit(m).Some? ==> pb.unmarshalInit(pb.marshalInit(m).value) == Some(m))
    && (forall m :: pb.marshalClose(m).Some? ==> pb.unmarshalClose(pb.marshalClose(m).value) == Some(m))
    && (forall m :: pb.marshalFeedback(m).Some? ==> pb.unmarshalFeedback(pb.marshalFeedback(m).value) == Some(m))
  }

  datatype StreamError =
    | UnknownFrameType
    | UninitializedMeta
    | EncodeCloseFrame
    | EncodeFeedbackFrame
    | MarshalFailed
    | UnmarshalFailed
    | NilRequestMeta      // an INIT frame without request metadata, dereferenced as nil
    | WireFailed(e: WireError)

  type Outcome = Result<seq<byte>, StreamError>

  /** frameWrite: no protobuf head, no attachment. */
  function Written(h: Head, payload: Option<seq<byte>>, max: int): Outcome {
    match payload
    case None => Err(MarshalFailed)
    case Some(p) =>
      match Constructed(h, [], p, [], max)
      case Ok(frame) => Ok(frame)
      case Err(e) => Err(WireFailed(e))
  }

  /** The close metadata of a reset. */
  function ResetMeta(e: RpcError): CloseMeta {
    CloseMeta(StreamReset, e.code, e.msg, 0, map[], 0)
  }

  /** The error a client derives from close metadata: a reset is one whatever its code. */
  function CloseError(c: CloseMeta): Option<RpcError> {
    if c.closeType == StreamReset || c.ret != 0 then Some(RpcError(ErrorTypeCalleeFramework, c.ret, c.msg))
    else if c.funcRet != 0 then Some(RpcError(ErrorTypeBusiness, c.funcRet, c.msg))
    else None
  }

  /** The error a client derives from an INIT answer. */
  function InitError(init: InitMeta): Option<RpcError> {
    if init.response.Some? && init.response.value.ret != 0
    then Some(RpcError(ErrorTypeCalleeFramework, init.response.value.ret, init.response.value.errorMsg))
    else None
  }

  method WriteFrame(frameHead: FrameHead, payload: Option<seq<byte>>, max: int) returns (r: Outcome)
    ensures r == Written(frameHead.View(), payload, max)
  {
    if payload.None? {
      return Err(MarshalFailed);
    }
    var c := frameHead.Construct([], payload.value, [], max);
    match c
    case Ok(frame) => return Ok(frame);
    case Err(e) => return Err(WireFailed(e));
  }

  // ------------------------------------------------------------------ server

  class ServerStreamCodec {
    const pb: StreamPb
    const maxFrameSize: int
    var initMetas: Nested
    ghost var log: seq<Event>

    ghost predicate Valid()
      reads this
    {
      Consistent(initMetas, log)
    }

    constructor (pb: StreamPb, maxFrameSize: int)
      ensures Valid() && log == [] && this.pb == pb && this.maxFrameSize == maxFrameSize
    {
      this.pb, this.maxFrameSize := pb, maxFrameSize;
      initMetas, log := map[], [];
    }

    static ghost function KeyOf(msg: Msg, id: uint32): Key
      requires msg.localAddr.Some? && msg.remoteAddr.Some?
      reads msg`localAddr, msg`remoteAddr
    {
      Key(AddrToKey(msg.localAddr.value, msg.remoteAddr.value), id)
    }

    method StoreInitMeta(msg: Msg, meta: InitMeta)
      requires Valid() && meta.request.Some?
      requires msg.localAddr.Some? && msg.remoteAddr.Some?
      modifies this
      ensures Valid() && log == old(log) + [InitStored(KeyOf(msg, msg.info.streamID), meta)]
      ensures OtherClientsKeep(old(log), log, msg.localAddr.value, msg.remoteAddr.value)
    {
      var streamID := msg.info.streamID;
      var addr := AddrToKey(msg.localAddr.value, msg.remoteAddr.value);
      ghost var k := Key(addr, streamID);
      StoredKeepsConsistent(initMetas, log, k, meta);
      EventOfOneClient(log, InitStored(k, meta), msg.localAddr.value, msg.remoteAddr.value);
      if addr in initMetas {
        initMetas := initMetas[addr := initMetas[addr][streamID := meta]];
      } else {
        initMetas := initMetas[addr := map[streamID := meta]];
      }
      log := log + [InitStored(k, meta)];
    }

    /** The entry goes, and its inner map with it if that becomes empty. */
    method DeleteInitMeta(msg: Msg)
      requires Valid()
      requires msg.localAddr.Some? && msg.remoteAddr.Some?
      modifies this
      ensures Valid() && log == old(log) + [CloseEncoded(KeyOf(msg, msg.info.streamID))]
      ensures OtherClientsKeep(old(log), log, msg.localAddr.value, msg.remoteAddr.value)
    {
      var streamID := msg.info.streamID;
      var addr := AddrToKey(msg.localAddr.value, msg.remoteAddr.value);
      ghost var k := Key(addr, streamID);
      DeletedKeepsConsistent(initMetas, log, k);
      EventOfOneClient(log, CloseEncoded(k), msg.localAddr.value, msg.remoteAddr.value);
      if addr in initMetas {
        var inner := initMetas[addr] - {streamID};
        if |inner| == 0 {
          initMetas := initMetas - {addr};
        } else {
          initMetas := initMetas[addr := inner];
        }
      }
      log := log + [CloseEncoded(k)];
    }

    /** Looks the stream up; on success the RPC name is the one of its INIT. */
    method SetInitMeta(msg: Msg) returns (ok: bool)
      requires Valid()
      requires msg.localAddr.Some? && msg.remoteAddr.Some?
      modifies msg`serverRPCName, msg`callee
      ensures ok <==> Open(log, KeyOf(msg, msg.info.streamID))
      ensures ok ==> NamedByLatestInit(log, KeyOf(msg, msg.info.streamID), msg.serverRPCName)
    {
      var addr := AddrToKey(msg.localAddr.value, msg.remoteAddr.value);
      LookupMeansLatestInit(initMetas, log, Key(addr, msg.info.streamID));
      if addr in initMetas && msg.info.streamID in initMetas[addr] {
        var meta := initMetas[addr][msg.info.streamID];
        msg.WithServerRPCName(if meta.request.Some? then meta.request.value.func else "");
        return true;
      }
      return false;
    }

    /**
      Decode. A DATA, CLOSE or FEEDBACK frame decodes only if the run holds an INIT for its
      stream with no later close, and then takes its RPC name from the latest one.
     */
    method Decode(msg: Msg, buf: seq<byte>) returns (r: Outcome)
      requires Valid() && |buf| >= FrameHeadLen
      requires msg.localAddr.Some? && msg.remoteAddr.Some?
      modifies this, msg`info, msg`heads, msg`serverRPCName, msg`caller, msg`callee, msg`serverMetaData,
        msg`place, msg`serverRspErr
      ensures Valid()
      ensures msg.frameHead == null || msg.frameHead.frameType != StreamFrame ==> r == Err(UnknownFrameType)
      ensures r.Err? ==> log == old(log)
      ensures r.Ok? && msg.frameHead.streamFrameType == FrameInit ==>
        var meta := pb.unmarshalInit(buf[FrameHeadLen..]);
        && meta.Some? && meta.value.request.Some?
        && log == old(log) + [InitStored(KeyOf(msg, msg.frameHead.streamID), meta.value)]
        && msg.serverRPCName == meta.value.request.value.func
      ensures r.Ok? && msg.frameHead.streamFrameType != FrameInit ==>
        log == old(log) && NamedByLatestInit(log, KeyOf(msg, msg.frameHead.streamID), msg.serverRPCName)
      ensures msg.frameHead != null && msg.frameHead.frameType == StreamFrame ==>
        var kind := msg.frameHead.streamFrameType;
        && (kind == FrameInit ==>
              (r.Ok? <==> pb.unmarshalInit(buf[FrameHeadLen..]).Some?
                          && pb.unmarshalInit(buf[FrameHeadLen..]).value.request.Some?))
        && (r == Err(NilRequestMeta) <==>
              kind == FrameInit && pb.unmarshalInit(buf[FrameHeadLen..]).Some?
              && pb.unmarshalInit(buf[FrameHeadLen..]).value.request.None?)
        && (kind == FrameData || kind == FrameClose || kind == FrameFeedback ==>
              (r == Err(UninitializedMeta) <==> !Open(log, KeyOf(msg, msg.frameHead.streamID))))
        && (kind == FrameData && r.Ok? ==> r == Ok(buf[FrameHeadLen..]))
        && (kind == FrameData ==> r.Ok? || r == Err(UninitializedMeta))
        && (kind != FrameClose || r.Err? ==> msg.serverRspErr == old(msg.serverRspErr))
        && (r.Err? ==> msg.heads == old(msg.heads))
        && (r.Ok? ==> RecordsFrame(kind, buf[FrameHeadLen..], old(msg.heads), msg.heads,
                                   old(msg.serverRspErr), msg.serverRspErr))
      ensures OtherClientsKeep(old(log), log, msg.localAddr.value, msg.remoteAddr.value)
    {
      if msg.frameHead == null || msg.frameHead.frameType != StreamFrame {
        return Err(UnknownFrameType);
      }
      msg.info := msg.info.(streamID := msg.frameHead.streamID);
      var kind := msg.frameHead.streamFrameType;
      if kind == FrameInit {
        r := DecodeInit(msg, buf);
        return;
      }
      if kind != FrameData && kind != FrameClose && kind != FrameFeedback {
        return Err(UnknownFrameType);
      }
      var ok := SetInitMeta(msg);
      if !ok {
        return Err(UninitializedMeta);
      }
      r := DecodeBody(msg, kind, buf);
    }

    /** What a decoded frame leaves in the message: its metadata, and the error of a failing close. */
    ghost predicate RecordsFrame(kind: byte, payload: seq<byte>, before: Heads, after: Heads, was: GoError,
                                 now: GoError)
    {
      && (kind == FrameData ==> after == before)
      && (kind == FrameInit ==>
            pb.unmarshalInit(payload).Some? && after == before.(streamFrame := Init(pb.unmarshalInit(payload).value)))
      && (kind == FrameFeedback ==>
            && pb.unmarshalFeedback(payload).Some?
            && after == before.(streamFrame := Feedback(pb.unmarshalFeedback(payload).value)))
      && (kind == FrameClose ==>
            && pb.unmarshalClose(payload).Some?
            && var c := pb.unmarshalClose(payload).value;
               after == before.(streamFrame := Close(c)) && now == ClosedWith(c, was))
    }

    static function ClosedWith(c: CloseMeta, was: GoError): GoError {
      if c.closeType == StreamReset || c.ret != 0 then Trpc(RpcError(ErrorTypeCalleeFramework, c.ret, c.msg)) else was
    }

    method DecodeInit(msg: Msg, buf: seq<byte>) returns (r: Outcome)
      requires Valid() && |buf| >= FrameHeadLen
      requires msg.localAddr.Some? && msg.remoteAddr.Some?
      modifies this, msg`info, msg`heads, msg`serverRPCName, msg`caller, msg`callee, msg`serverMetaData, msg`place
      ensures Valid() && msg.info.streamID == old(msg.info.streamID)
      ensures OtherClientsKeep(old(log), log, msg.localAddr.value, msg.remoteAddr.value)
      ensures var meta := pb.unmarshalInit(buf[FrameHeadLen..]);
              if meta.None? then r == Err(UnmarshalFailed) && log == old(log) && msg.heads == old(msg.heads)
              else if meta.value.request.None? then
                r == Err(NilRequestMeta) && log == old(log) && msg.heads == old(msg.heads)
              else
                && r == Ok([]) && msg.serverRPCName == meta.value.request.value.func
                && msg.caller.serviceName == meta.value.request.value.caller
                && msg.callee.serviceName == meta.value.request.value.callee
                && msg.info == StreamInfo(old(msg.info), meta.value, meta.value.request.value)
                && log == old(log) + [InitStored(KeyOf(msg, msg.info.streamID), meta.value)]
                && msg.heads == old(msg.heads).(streamFrame := Init(meta.value))
    {
      var parsed := pb.unmarshalInit(buf[FrameHeadLen..]);
      if parsed.None? {
        return Err(UnmarshalFailed);
      }
      var meta := parsed.value;
      if meta.request.None? {
        return Err(NilRequestMeta);
      }
      DescribeStream(msg, meta, meta.request.value);
      StoreInitMeta(msg, meta);
      msg.heads := msg.heads.(streamFrame := Init(meta));
      return Ok([]);
    }

    /** updateMsg of the server stream codec. */
    method DescribeStream(msg: Msg, meta: InitMeta, req: InitRequestMeta)
      modifies msg`info, msg`serverRPCName, msg`caller, msg`callee, msg`serverMetaData, msg`place
      ensures msg.serverRPCName == req.func
      ensures msg.caller == WithServiceName(old(msg.caller), req.caller)
      ensures var callee := WithServiceName(old(msg.callee), req.callee);
              msg.callee == if old(msg.serverRPCName) == req.func then callee else WithRPCName(callee, req.func)
      ensures msg.info == StreamInfo(old(msg.info), meta, req)
      ensures if req.transInfo == map[] then msg.serverMetaData == old(msg.serverMetaData)
              else msg.serverMetaData != null && fresh(msg.serverMetaData) && msg.serverMetaData.m == req.transInfo
      ensures msg.place == UnaryCodec.ServedPlace(old(msg.place), req.transInfo)
    {
      msg.WithCallerServiceName(req.caller);
      msg.WithCalleeServiceName(req.callee);
      msg.WithServerRPCName(req.func);
      msg.info := msg.info.(serializationType := meta.contentType, compressType := meta.contentEncoding,
        dyeing := UnarySpec.DyeingBit(req.messageType));
      UnaryCodec.TakeTransInfo(msg, req.transInfo);
    }

    static function StreamInfo(info: CallInfo, meta: InitMeta, req: InitRequestMeta): CallInfo {
      info.(
        serializationType := meta.contentType, compressType := meta.contentEncoding,
        dyeing := UnarySpec.DyeingBit(req.messageType),
        dyeingKey := if UnarySpec.DyeingKey in req.transInfo then req.transInfo[UnarySpec.DyeingKey]
                     else info.dyeingKey)
    }

    /** What follows a successful lookup. */
    method DecodeBody(msg: Msg, kind: byte, buf: seq<byte>) returns (r: Outcome)
      requires kind == FrameData || kind == FrameClose || kind == FrameFeedback
      requires |buf| >= FrameHeadLen
      modifies msg`heads, msg`serverRspErr
      ensures kind == FrameData ==> r == Ok(buf[FrameHeadLen..])
      ensures kind == FrameClose ==>
        match pb.unmarshalClose(buf[FrameHeadLen..])
        case None => r == Err(UnmarshalFailed)
        case Some(c) =>
          && r == Ok([]) && msg.heads == old(msg.heads).(streamFrame := Close(c))
          && msg.serverRspErr == ClosedWith(c, old(msg.serverRspErr))
      ensures kind == FrameFeedback ==>
        match pb.unmarshalFeedback(buf[FrameHeadLen..])
        case None => r == Err(UnmarshalFailed)
        case Some(f) => r == Ok([]) && msg.heads == old(msg.heads).(streamFrame := Feedback(f))
      ensures kind != FrameClose || r.Err? ==> msg.serverRspErr == old(msg.serverRspErr)
      ensures kind == FrameData || r.Err? ==> msg.heads == old(msg.heads)
    {
      var payload := buf[FrameHeadLen..];
      if kind == FrameData {
        return Ok(payload);
      }
      if kind == FrameFeedback {
        var f := pb.unmarshalFeedback(payload);
        if f.None? {
          return Err(UnmarshalFailed);
        }
        msg.heads := msg.heads.(streamFrame := Feedback(f.value));
        return Ok([]);
      }
      var c := pb.unmarshalClose(payload);
      if c.None? {
        return Err(UnmarshalFailed);
      }
      if c.value.closeType == StreamReset || c.value.ret != 0 {
        msg.serverRspErr := Trpc(RpcError(ErrorTypeCalleeFramework, c.value.ret, c.value.msg));
      }
      msg.heads := msg.heads.(streamFrame := Close(c.value));
      return Ok([]);
    }

    /** buildResetFrame turns the frame head, in place, into that of a close. */
    method BuildResetFrame(msg: Msg, frameHead: FrameHead, e: RpcError)
      modifies msg`heads, frameHead`streamFrameType
      ensures frameHead.streamFrameType == FrameClose
      ensures msg.heads == old(msg.heads).(streamFrame := Close(ResetMeta(e)))
    {
      frameHead.streamFrameType := FrameClose;
      msg.heads := msg.heads.(streamFrame := Close(ResetMeta(e)));
    }

    /** The close metadata that go on the wire: metadata of the message are merged in. */
    static ghost function ClosingMeta(c: CloseMeta, md: TransInfo): CloseMeta {
      c.(transInfo := c.transInfo + md)
    }

    /**
      encodeCloseFrame. The stream is forgotten whatever happens to the frame; the key is
      that of the frame head, except when there is no close metadata to send: then it is
      the stream id the message held before.
     */
    method EncodeClose(msg: Msg, frameHead: FrameHead) returns (r: Outcome)
      requires Valid()
      requires msg.localAddr.Some? && msg.remoteAddr.Some?
      modifies this, msg`info, msg`heads
      ensures Valid()
      ensures OtherClientsKeep(old(log), log, msg.localAddr.value, msg.remoteAddr.value)
      ensures match old(msg.heads.streamFrame)
              case Close(c) =>
                && r == Written(frameHead.View(),
                          pb.marshalClose(ClosingMeta(c, UnaryCodec.MetaDataOf(msg.serverMetaData))), maxFrameSize)
                && log == old(log) + [CloseEncoded(KeyOf(msg, frameHead.streamID))]
                && msg.info == old(msg.info).(streamID := frameHead.streamID)
              case _ =>
                && msg.info == old(msg.info) && msg.heads == old(msg.heads)
                && r == Err(EncodeCloseFrame) && log == old(log) + [CloseEncoded(KeyOf(msg, old(msg.info.streamID)))]
    {
      if !msg.heads.streamFrame.Close? {
        r := Err(EncodeCloseFrame);
      } else {
        var c := msg.heads.streamFrame.close;
        var trans := UnaryCodec.Merge(c.transInfo, msg.serverMetaData);
        c := c.(transInfo := trans);
        msg.heads := msg.heads.(streamFrame := Close(c));
        msg.info := msg.info.(streamID := frameHead.streamID);
        r := WriteFrame(frameHead, pb.marshalClose(c), maxFrameSize);
      }
      DeleteInitMeta(msg);
    }

    /**
      Encode. Only a close forgets a stream: a CLOSE frame, or a DATA frame of a handler
      that failed, which goes out as a reset carrying the error.
     */
    method Encode(msg: Msg, body: seq<byte>) returns (r: Outcome)
      requires Valid()
      requires msg.localAddr.Some? && msg.remoteAddr.Some?
      modifies this, msg`info, msg`heads, msg.frameHead
      ensures Valid()
      ensures msg.frameHead == null || old(msg.frameHead.frameType) != StreamFrame ==>
        r == Err(UnknownFrameType) && log == old(log)
      ensures msg.frameHead != null && old(msg.frameHead.frameType) == StreamFrame ==>
        var h := old(msg.frameHead.View());
        var err := old(msg.ServerRspErr());
        var kind := h.streamFrameType;
        && (kind == FrameInit || kind == FrameFeedback || (kind == FrameData && err.None?) ==> log == old(log))
        && (kind == FrameData && err.None? ==> r == Written(h, Some(body), maxFrameSize))
        && (kind == FrameData && err.Some? ==>
              && r == Written(h.(streamFrameType := FrameClose),
                        pb.marshalClose(ClosingMeta(ResetMeta(err.value), UnaryCodec.MetaDataOf(msg.serverMetaData))),
                        maxFrameSize)
              && log == old(log) + [CloseEncoded(KeyOf(msg, h.streamID))])
        && (kind == FrameClose ==>
              match old(msg.heads.streamFrame)
              case Close(c) =>
                && r == Written(h, pb.marshalClose(ClosingMeta(c, UnaryCodec.MetaDataOf(msg.serverMetaData))), maxFrameSize)
                && log == old(log) + [CloseEncoded(KeyOf(msg, h.streamID))]
              case _ =>
                r == Err(EncodeCloseFrame) && log == old(log) + [CloseEncoded(KeyOf(msg, old(msg.info.streamID)))])
        && (kind == FrameInit ==>
              r == Written(h, pb.marshalInit(InitAnswer(old(msg.heads.streamFrame), old(msg.info), err)), maxFrameSize))
        && (kind == FrameFeedback ==>
              match old(msg.heads.streamFrame)
              case Feedback(f) => r == Written(h, pb.marshalFeedback(f), maxFrameSize)
              case _ => r == Err(EncodeFeedbackFrame))
        && (kind !in {FrameInit, FrameData, FrameFeedback, FrameClose} ==>
              r == Err(UnknownFrameType) && log == old(log))
      ensures OtherClientsKeep(old(log), log, msg.localAddr.value, msg.remoteAddr.value)
    {
      var frameHead := msg.frameHead;
      if frameHead == null || frameHead.frameType != StreamFrame {
        return Err(UnknownFrameType);
      }
      var kind := frameHead.streamFrameType;
      if kind == FrameInit {
        r := EncodeInit(msg, frameHead);
      } else if kind == FrameData {
        var err := msg.ServerRspErr();
        if err.Some? {
          BuildResetFrame(msg, frameHead, err.value);
          r := EncodeClose(msg, frameHead);
        } else {
          r := WriteFrame(frameHead, Some(body), maxFrameSize);
        }
      } else if kind == FrameClose {
        r := EncodeClose(msg, frameHead);
      } else if kind == FrameFeedback {
        if msg.heads.streamFrame.Feedback? {
          r := WriteFrame(frameHead, pb.marshalFeedback(msg.heads.streamFrame.feedback), maxFrameSize);
        } else {
          r := Err(EncodeFeedbackFrame);
        }
      } else {
        r := Err(UnknownFrameType);
      }
    }

    /** The INIT answer: the metadata held, with a response part. */
    static ghost function InitAnswer(streamFrame: Any, info: CallInfo, err: Option<RpcError>): InitMeta {
      var init := if streamFrame.Init? then streamFrame.init else InitMeta(None, None, 0, 0, 0);
      init.(
        contentType := U32(info.serializationType), contentEncoding := U32(info.compressType),
        response := Some(match err
                         case Some(e) => InitResponseMeta(e.code, e.msg)
                         case None => InitResponseMeta(0, "")))
    }

    method EncodeInit(msg: Msg, frameHead: FrameHead) returns (r: Outcome)
      modifies msg`heads
      ensures r == Written(frameHead.View(),
                     pb.marshalInit(InitAnswer(old(msg.heads.streamFrame), msg.info, msg.ServerRspErr())), maxFrameSize)
      ensures msg.heads == if old(msg.heads.streamFrame.Init?)
                           then old(msg.heads).(streamFrame :=
                                  Init(InitAnswer(old(msg.heads.streamFrame), msg.info, msg.ServerRspErr())))
                           else old(msg.heads)
    {
      var init := InitMeta(None, None, 0, 0, 0);
      var held := msg.heads.streamFrame.Init?;
      if held {
        init := msg.heads.streamFrame.init;
      }
      init := init.(contentType := U32(msg.info.serializationType), contentEncoding := U32(msg.info.compressType));
      var rsp := InitResponseMeta(0, "");
      var err := msg.ServerRspErr();
      if err.Some? {
        rsp := InitResponseMeta(err.value.code, err.value.msg);
      }
      init := init.(response := Some(rsp));
      if held {
        msg.heads := msg.heads.(streamFrame := Init(init));
      }
      r := WriteFrame(frameHead, pb.marshalInit(init), maxFrameSize);
    }

    /**
      The stream half of ServerCodec.Decode: a frame that does not decode becomes a reset to
      be sent back. An INIT without request metadata gets none: the code dereferences the
      missing metadata and fails at run time before any reset is built.
     */
    method DecodeOrReset(msg: Msg, buf: seq<byte>, text: StreamError -> string) returns (r: Outcome)
      requires Valid() && |buf| >= FrameHeadLen && msg.frameHead != null
      requires msg.localAddr.Some? && msg.remoteAddr.Some?
      modifies this, msg`info, msg`heads, msg`serverRPCName, msg`caller, msg`callee, msg`serverMetaData,
        msg`place, msg`serverRspErr, msg.frameHead
      ensures Valid()
      ensures r.Err? ==> log == old(log)
      ensures r.Err? && r.error != NilRequestMeta ==>
        && msg.frameHead.streamFrameType == FrameClose
        && msg.heads.streamFrame == Close(ResetMeta(RpcError(ErrorTypeFramework, RetServerDecodeFail, text(r.error))))
      ensures r == Err(NilRequestMeta) ==> unchanged(msg.frameHead) && msg.heads == old(msg.heads)
      ensures r == Err(NilRequestMeta) <==>
        && old(msg.frameHead.frameType) == StreamFrame && old(msg.frameHead.streamFrameType) == FrameInit
        && pb.unmarshalInit(buf[FrameHeadLen..]).Some? && pb.unmarshalInit(buf[FrameHeadLen..]).value.request.None?
    {
      r := Decode(msg, buf);
      if r.Err? && r.error != NilRequestMeta {
        BuildResetFrame(msg, msg.frameHead, RpcError(ErrorTypeFramework, RetServerDecodeFail, text(r.error)));
      }
    }
  }

  // ------------------------------------------------------------------ client

  /** What a client makes of a stream frame: its payload bytes. */
  function Payload(frame: seq<byte>): seq<byte>
    requires |frame| >= FrameHeadLen
  {
    frame[FrameHeadLen..]
  }

  class ClientStreamCodec {
    const pb: StreamPb
    const maxFrameSize: int

    constructor (pb: StreamPb, maxFrameSize: int)
      ensures this.pb == pb && this.maxFrameSize == maxFrameSize
    {
      this.pb, this.maxFrameSize := pb, maxFrameSize;
    }

    /** decodeCloseFrame: the error, if any, and the metadata of the close go into the message. */
    method DecodeClose(msg: Msg, buf: seq<byte>) returns (r: Outcome)
      requires |buf| >= FrameHeadLen
      modifies msg`heads, msg`clientRspErr, msg`clientMetaData, msg.clientMetaData
      ensures match pb.unmarshalClose(Payload(buf))
              case None =>
                && r == Err(UnmarshalFailed) && msg.clientRspErr == old(msg.clientRspErr) && msg.heads == old(msg.heads)
                && UnaryCodec.MetaDataOf(msg.clientMetaData) == old(UnaryCodec.MetaDataOf(msg.clientMetaData))
              case Some(c) =>
                && r == Ok([]) && msg.heads.streamFrame == Close(c)
                && msg.clientRspErr ==
                   (match CloseError(c) case None => old(msg.clientRspErr) case Some(e) => Trpc(e))
                && UnaryCodec.MetaDataOf(msg.clientMetaData)
                   == old(UnaryCodec.MetaDataOf(msg.clientMetaData)) + c.transInfo
    {
      var parsed := pb.unmarshalClose(Payload(buf));
      if parsed.None? {
        return Err(UnmarshalFailed);
      }
      var c := parsed.value;
      UpdateCloseMeta(msg, c);
      if c.closeType == StreamReset || c.ret != 0 {
        msg.clientRspErr := Trpc(RpcError(ErrorTypeCalleeFramework, c.ret, c.msg));
      } else if c.funcRet != 0 {
        msg.clientRspErr := Trpc(RpcError(ErrorTypeBusiness, c.funcRet, c.msg));
      }
      msg.heads := msg.heads.(streamFrame := Close(c));
      return Ok([]);
    }

    /** decodeInitFrame: content types and, for a return code other than zero, the error of the INIT answer. */
    method DecodeInit(msg: Msg, buf: seq<byte>) returns (r: Outcome)
      requires |buf| >= FrameHeadLen
      modifies msg`info, msg`heads, msg`clientRspErr
      ensures var parsed := pb.unmarshalInit(Payload(buf));
              if parsed.None? then
                && r == Err(UnmarshalFailed) && msg.info == old(msg.info)
                && msg.heads == old(msg.heads) && msg.clientRspErr == old(msg.clientRspErr)
              else
                && r == Ok([]) && msg.heads == old(msg.heads).(streamFrame := Init(parsed.value))
                && msg.info == old(msg.info).(
                     serializationType := parsed.value.contentType, compressType := parsed.value.contentEncoding)
                && msg.clientRspErr ==
                   (match InitError(parsed.value) case None => old(msg.clientRspErr) case Some(e) => Trpc(e))
    {
      var parsed := pb.unmarshalInit(Payload(buf));
      if parsed.None? {
        return Err(UnmarshalFailed);
      }
      var init := parsed.value;
      msg.info := msg.info.(compressType := init.contentEncoding, serializationType := init.contentType);
      if init.response.Some? && init.response.value.ret != 0 {
        msg.clientRspErr :=
          Trpc(RpcError(ErrorTypeCalleeFramework, init.response.value.ret, init.response.value.errorMsg));
      }
      msg.heads := msg.heads.(streamFrame := Init(init));
      return Ok([]);
    }

    /** updateClientStreamCloseMeta */
    method UpdateCloseMeta(msg: Msg, c: CloseMeta)
      modifies msg`heads, msg`clientMetaData, msg.clientMetaData
      ensures UnaryCodec.MetaDataOf(msg.clientMetaData)
           == old(UnaryCodec.MetaDataOf(msg.clientMetaData)) + c.transInfo
      ensures msg.heads == old(msg.heads).(clientRsp := msg.heads.clientRsp)
      ensures msg.heads.clientRsp ==
        if old(msg.heads.clientRsp.Response?) then Response(old(msg.heads.clientRsp.rsp).(
          ret := c.ret, funcRet := c.funcRet, errorMsg := c.msg, messageType := c.messageType, transInfo := c.transInfo))
        else old(msg.heads.clientRsp)
    {
      if msg.heads.clientRsp.Response? {
        msg.heads := msg.heads.(clientRsp := Response(msg.heads.clientRsp.rsp.(
          ret := c.ret, funcRet := c.funcRet, errorMsg := c.msg, messageType := c.messageType,
          transInfo := c.transInfo)));
      }
      UnaryCodec.TakeMetaData(msg, c.transInfo);
    }

    /** The INIT metadata encoding starts from: those held, else empty ones. */
    static function HeldInit(streamFrame: Any): InitMeta {
      if streamFrame.Init? then streamFrame.init
      else InitMeta(Some(InitRequestMeta("", "", "", 0, map[])), None, 0, 0, 0)
    }

    static function NamedCaller(name: string, processName: string): string {
      if name == "" then "trpc.app." + processName + ".service" else name
    }

    /**
      encodeInitFrame: the INIT of a stream names caller, callee and method. Metadata held
      without a request part are dereferenced as nil.
     */
    method EncodeInit(msg: Msg, frameHead: FrameHead, processName: string) returns (r: Outcome)
      modifies msg`caller, msg`heads
      ensures var init := HeldInit(old(msg.heads.streamFrame));
              if init.request.None? then r == Err(NilRequestMeta) && msg.heads == old(msg.heads)
              else
                var sent := ClientInit(init, UnarySpec.Outgoing(
                              NamedCaller(old(msg.caller.serviceName), processName), msg.callee.serviceName,
                              msg.clientRPCName, msg.info, msg.place.envTransfer,
                              UnaryCodec.MetaDataOf(msg.clientMetaData)));
                && r == Written(frameHead.View(), pb.marshalInit(sent), maxFrameSize)
                && msg.heads == (if old(msg.heads.streamFrame.Init?) then old(msg.heads).(streamFrame := Init(sent))
                                 else old(msg.heads))
      ensures msg.caller.serviceName == NamedCaller(old(msg.caller.serviceName), processName)
    {
      var held := msg.heads.streamFrame.Init?;
      var init := HeldInit(msg.heads.streamFrame);
      if msg.caller.serviceName == "" {
        msg.WithCallerServiceName("trpc.app." + processName + ".service");
      }
      if init.request.None? {
        return Err(NilRequestMeta);
      }
      var req := init.request.value;
      var trans := UnaryCodec.SetClientTransInfo(msg, req.transInfo);
      req := InitRequestMeta(msg.caller.serviceName, msg.callee.serviceName, msg.clientRPCName,
        if msg.info.dyeing then UnarySpec.SetDyeingBit(req.messageType) else req.messageType, trans);
      init := init.(request := Some(req), contentType := U32(msg.info.serializationType),
        contentEncoding := U32(msg.info.compressType));
      if held {
        msg.heads := msg.heads.(streamFrame := Init(init));
      }
      r := WriteFrame(frameHead, pb.marshalInit(init), maxFrameSize);
    }
  }

  /** The INIT metadata a client sends. */
  ghost function ClientInit(init: InitMeta, out: UnarySpec.Outgoing): InitMeta
    requires init.request.Some?
  {
    var req := init.request.value;
    init.(
      request := Some(InitRequestMeta(
        out.caller, out.callee, out.rpcName,
        if out.info.dyeing then UnarySpec.SetDyeingBit(req.messageType) else req.messageType,
        UnarySpec.ClientTransInfo(req.transInfo, out.metaData, out.info.dyeingKey, out.envTransfer))),
      contentType := U32(out.info.serializationType),
      contentEncoding := U32(out.info.compressType))
  }

  // ------------------------------------------------------------------ laws

  /** A written stream frame is cut out whole by the framer and gives its payload and head back. */
  lemma WrittenRoundTrip(h: Head, payload: seq<byte>, max: int, rest: seq<byte>)
    requires Written(h, Some(payload), max).Ok? && max <= MaxUint32
    ensures var frame := Written(h, Some(payload), max).value;
            && Framed(frame + rest, max) == Ok((frame, rest))
            && |frame| >= FrameHeadLen && Payload(frame) == payload
            && ParseHead(frame).frameType == h.frameType
            && ParseHead(frame).streamFrameType == h.streamFrameType
            && ParseHead(frame).streamID == h.streamID
  {
    FramedAfterConstructed(h, [], payload, [], max, rest);
    ConstructedLayout(h, [], payload, [], max);
    var frame := Written(h, Some(payload), max).value;
    assert frame[FrameHeadLen..] == frame[FrameHeadLen..|frame|];
  }

  /**
    A handler that fails on a DATA frame resets the stream, and the reset reaches the
    client as a callee-framework error with the handler's code and message, even code 0.
   */
  lemma ResetReachesClient(pb: StreamPb, h: Head, e: RpcError, md: TransInfo, max: int, rest: seq<byte>)
    requires LawfulStream(pb) && max <= MaxUint32
    requires Written(h, pb.marshalClose(ServerStreamCodec.ClosingMeta(ResetMeta(e), md)), max).Ok?
    ensures var frame := Written(h, pb.marshalClose(ServerStreamCodec.ClosingMeta(ResetMeta(e), md)), max).value;
            && Framed(frame + rest, max) == Ok((frame, rest))
            && |frame| >= FrameHeadLen
            && pb.unmarshalClose(Payload(frame)).Some?
            && CloseError(pb.unmarshalClose(Payload(frame)).value)
               == Some(RpcError(ErrorTypeCalleeFramework, e.code, e.msg))
  {
    var c := ServerStreamCodec.ClosingMeta(ResetMeta(e), md);
    WrittenRoundTrip(h, pb.marshalClose(c).value, max, rest);
  }

  /**
    The INIT answer of a server reaches the client with the server's content types, and with
    the error of the handler as a callee-framework error exactly if its code is not zero.
   */
  lemma InitAnswerReachesClient(pb: StreamPb, h: Head, held: Any, info: CallInfo, err: Option<RpcError>, max: int,
                                rest: seq<byte>)
    requires LawfulStream(pb) && max <= MaxUint32
    requires Written(h, pb.marshalInit(ServerStreamCodec.InitAnswer(held, info, err)), max).Ok?
    ensures var frame := Written(h, pb.marshalInit(ServerStreamCodec.InitAnswer(held, info, err)), max).value;
            && Framed(frame + rest, max) == Ok((frame, rest)) && |frame| >= FrameHeadLen
            && pb.unmarshalInit(Payload(frame)).Some?
            && var init := pb.unmarshalInit(Payload(frame)).value;
            && init.contentType == U32(info.serializationType) && init.contentEncoding == U32(info.compressType)
            && (held.Init? ==> init.request == held.init.request)
            && InitError(init) == (if err.None? || err.value.code == 0 then None
                                   else Some(RpcError(ErrorTypeCalleeFramework, err.value.code, err.value.msg)))
  {
    WrittenRoundTrip(h, pb.marshalInit(ServerStreamCodec.InitAnswer(held, info, err)).value, max, rest);
  }

  /**
    A close reaches the client as it was, with the server's metadata over its own. The
    client sees no error exactly for a close that is no reset and has no code; a reset or a
    framework code is a callee-framework error, which the server's own reading of a close
    agrees with, and else a function code is a business error.
   */
  lemma CloseReachesClient(pb: StreamPb, h: Head, c: CloseMeta, md: TransInfo, max: int, rest: seq<byte>)
    requires LawfulStream(pb) && max <= MaxUint32
    requires Written(h, pb.marshalClose(ServerStreamCodec.ClosingMeta(c, md)), max).Ok?
    ensures var frame := Written(h, pb.marshalClose(ServerStreamCodec.ClosingMeta(c, md)), max).value;
            && Framed(frame + rest, max) == Ok((frame, rest)) && |frame| >= FrameHeadLen
            && pb.unmarshalClose(Payload(frame)).Some?
            && var got := pb.unmarshalClose(Payload(frame)).value;
            && got == c.(transInfo := got.transInfo)
            && (forall k | k in md :: k in got.transInfo && got.transInfo[k] == md[k])
            && (forall k | k in c.transInfo && k !in md :: k in got.transInfo && got.transInfo[k] == c.transInfo[k])
            && (CloseError(got) == None <==> c.closeType != 1 && c.ret == 0 && c.funcRet == 0)
            && (c.closeType == 1 || c.ret != 0 ==> CloseError(got) == Some(RpcError(3, c.ret, c.msg)))
            && (c.closeType != 1 && c.ret == 0 && c.funcRet != 0 ==>
                  CloseError(got) == Some(RpcError(2, c.funcRet, c.msg)))
    ensures ServerStreamCodec.ClosedWith(c, NilError) ==
      (if CloseError(c).Some? && CloseError(c).value.kind == 3 then Trpc(CloseError(c).value) else NilError)
  {
    WrittenRoundTrip(h, pb.marshalClose(ServerStreamCodec.ClosingMeta(c, md)).value, max, rest);
  }

  /** What an INIT says of the stream it opens, in terms of the client's message. */
  lemma InitSays(init: InitMeta, out: UnarySpec.Outgoing)
    requires init.request.Some?
    ensures var sent := ClientInit(init, out);
            && sent.request.Some?
            && var req := sent.request.value;
            && req.caller == out.caller && req.callee == out.callee && req.func == out.rpcName
            && sent.contentType == U32(out.info.serializationType)
            && sent.contentEncoding == U32(out.info.compressType)
            && (req.messageType % 2 == 1 <==> out.info.dyeing || init.request.value.messageType % 2 == 1)
            && UnaryLaws.CarriesMetaData(req.transInfo, out)
            && sent.initWindowSize == init.initWindowSize && sent.response == init.response
  {
    UnaryLaws.MetaDataCarried(
      DefaultRequest.(transInfo := init.request.value.transInfo), 0, 0, out);
  }

  /**
    Opening a stream: client encodeInitFrame, the framer, the server's frame head and Decode.
    The server then knows who calls whom, which method, and the client's content types and
    dyeing, and the stream is open under that method for this client.
   */
  method OpenStream(client: ClientStreamCodec, server: ServerStreamCodec, cm: Msg, sm: Msg, frameHead: FrameHead,
                    processName: string, behind: seq<byte>) returns (r: Outcome)
    requires server.Valid() && client.pb == server.pb && LawfulStream(client.pb)
    requires client.maxFrameSize == server.maxFrameSize <= MaxUint32 && cm != sm
    requires frameHead.frameType == StreamFrame && frameHead.streamFrameType == FrameInit
    requires sm.localAddr.Some? && sm.remoteAddr.Some?
    modifies cm`caller, cm`heads
    modifies server, sm`frameHead, sm`info, sm`heads, sm`serverRPCName, sm`caller, sm`callee, sm`serverMetaData,
      sm`place, sm`serverRspErr
    ensures server.Valid()
    ensures r.Ok? ==>
      && cm.caller.serviceName == (if old(cm.caller.serviceName) == "" then "trpc.app." + processName + ".service"
                                   else old(cm.caller.serviceName))
      && sm.caller.serviceName == cm.caller.serviceName && sm.callee.serviceName == cm.callee.serviceName
      && sm.serverRPCName == cm.clientRPCName
      && sm.info.serializationType == U32(cm.info.serializationType)
      && sm.info.compressType == U32(cm.info.compressType)
      && (cm.info.dyeing ==> sm.info.dyeing)
      && sm.info.streamID == frameHead.streamID
      && NamedFor(server.log, sm.localAddr.value, sm.remoteAddr.value, frameHead.streamID, cm.clientRPCName)
    ensures r.Err? ==> r.error in {NilRequestMeta, MarshalFailed} || r.error.WireFailed?
  {
    ghost var init := ClientStreamCodec.HeldInit(cm.heads.streamFrame);
    ghost var out := UnarySpec.Outgoing(
      ClientStreamCodec.NamedCaller(cm.caller.serviceName, processName), cm.callee.serviceName, cm.clientRPCName,
      cm.info, cm.place.envTransfer, UnaryCodec.MetaDataOf(cm.clientMetaData));
    var frame := client.EncodeInit(cm, frameHead, processName);
    if frame.Err? {
      return frame;
    }
    InitSays(init, out);
    WrittenRoundTrip(frameHead.View(), client.pb.marshalInit(ClientInit(init, out)).value, client.maxFrameSize, behind);
    var cut := Transmit(frame.value, behind, server.maxFrameSize);
    r := AcceptInit(server, sm, cut.value, ClientInit(init, out));
  }

  /** The server's side: the frame head is extracted and stored, then the INIT decoded. */
  method AcceptInit(server: ServerStreamCodec, sm: Msg, frame: seq<byte>, ghost sent: InitMeta) returns (r: Outcome)
    requires server.Valid() && |frame| >= FrameHeadLen
    requires sm.localAddr.Some? && sm.remoteAddr.Some?
    requires ParseHead(frame).frameType == StreamFrame && ParseHead(frame).streamFrameType == FrameInit
    requires server.pb.unmarshalInit(Payload(frame)) == Some(sent) && sent.request.Some?
    modifies server, sm`frameHead, sm`info, sm`heads, sm`serverRPCName, sm`caller, sm`callee, sm`serverMetaData,
      sm`place, sm`serverRspErr
    ensures server.Valid() && r == Ok([])
    ensures sm.caller.serviceName == sent.request.value.caller && sm.callee.serviceName == sent.request.value.callee
    ensures sm.serverRPCName == sent.request.value.func && sm.info.streamID == ParseHead(frame).streamID
    ensures sm.info.serializationType == sent.contentType && sm.info.compressType == sent.contentEncoding
    ensures sm.info.dyeing == (sent.request.value.messageType % 2 == 1)
    ensures NamedFor(server.log, sm.localAddr.value, sm.remoteAddr.value, ParseHead(frame).streamID,
              sent.request.value.func)
  {
    var frameHead := new FrameHead.DefaultUnary();
    frameHead.Extract(frame);
    sm.frameHead := frameHead;
    sm.info := sm.info.(streamID := frameHead.streamID);
    r := server.DecodeInit(sm, frame);
    ghost var k := ServerStreamCodec.KeyOf(sm, frameHead.streamID);
    assert LatestInit(server.log, k, sent, |old(server.log)|);
  }

  /**
    The RPC name a client puts in its INIT is the one the server's cache answers with, for
    every frame of that stream until the close, whatever other streams do meanwhile.
   */
  lemma RpcNameUntilClose(pb: StreamPb, h: Head, init: InitMeta, out: UnarySpec.Outgoing, max: int,
                          before: seq<Event>, k: Key, after: seq<Event>)
    requires LawfulStream(pb) && max <= MaxUint32 && init.request.Some?
    requires Written(h, pb.marshalInit(ClientInit(init, out)), max).Ok?
    requires forall j | 0 <= j < |after| :: after[j].key != k
    ensures var frame := Written(h, pb.marshalInit(ClientInit(init, out)), max).value;
            && |frame| >= FrameHeadLen && pb.unmarshalInit(Payload(frame)).Some?
            && var meta := pb.unmarshalInit(Payload(frame)).value;
               var log := before + [InitStored(k, meta)] + after;
            && k in CacheAfter(log) && CacheAfter(log)[k].request.Some?
            && CacheAfter(log)[k].request.value.func == out.rpcName
  {
    WrittenRoundTrip(h, pb.marshalInit(ClientInit(init, out)).value, max, []);
    var meta := ClientInit(init, out);
    var log := before + [InitStored(k, meta)] + after;
    assert forall j | |before| < j < |log| :: log[j] == after[j - |before| - 1];
    assert LatestInit(log, k, meta, |before|);
    CacheIsLatestInit(log, k, meta);
  }
}
