# tRPC-Go core, modelled and proved in Dafny

A Dafny 4.11 model of the stateful and arithmetic core of tRPC-Go, with proofs of what that
code is there to guarantee. Check everything with `dafny verify dfyconfig.toml`.

Code that updates state is modelled as classes and methods with loops, each proved against a
specification function; the laws are lemmas about those functions.

| file | what it models | main results |
|---|---|---|
| Wire.dfy | the 16-byte frame head, `construct`, `extract`, the framer | printer and parser invert each other; any list of accepted frames is cut back out of the byte stream exactly, and when the configured limit breaks this |
| UnaryCodec.dfy | the unary client and server codecs on messages | a whole call round-trips; when the size fields partition a buffer; what the size fallback does to an attachment; exactly when an error arrives as returned; uniqueness of request ids |
| UnaryExchange.dfy | both ends of a call run against each other | client Encode, framer, server Decode and back, as method calls on two messages, and what each end then knows of the other |
| StreamCodec.dfy | the stream codecs and the per-connection INIT cache | in every run the nested cache is a flat map of the latest open INITs, frames take their RPC name from it, and clients do not disturb each other; opening a stream end to end |
| Message.dfy, RpcNames.dfy | the message object and its names | CopyMsg is an observational copy; the hand-written scanner is the regular expression |
| ClientOptions.dfy | option slices with shared backing arrays | no interleaving of clones and appends lets one RPC see another's appends |
| ClientRegistry.dfy | the registry of backend configurations | two-level lookup equals a backward scan of the registration log; exactly when a failed registration changes what the registry holds |
| HealthCheck.dfy | service statuses and their inverse index | two cardinalities decide the server status |
| FrameworkConfig.dfy | RepairConfig and deduplicate | which value every field gets, exactly when the repair fails, and exactly when a second repair changes nothing |
| RecordWhen.dfy | the record_when predicates | rewrites keep the decision and the number of random draws |
| KeepOrder.dfy | KeepOrderInvoke | safety and progress of every interleaving |
| ConfigLoader.dfy | the business configuration loader | exactly when concurrent callers share one object; the skip-if-same path equals the full path |
| FilterChain.dfy | client and server filter chains | the loop is a right fold; laws of concatenation, noop and nesting |

Where code and documentation disagree, the model follows the code:

- The attachment-size checks of both decoders can never fail, because both subtractions wrap
  modulo 2^32 and cancel (`UnaryLaws.PartitionIff`); an oversized AttachmentSize ends in an
  out-of-range slice instead, modelled as the error `SliceOutOfRange`.
- `construct` compares with DefaultMaxFrameSize in 64 bits, the framer with its low 32 bits, so a
  limit of 2^32 or more lets frames be built that the framer refuses (`Wire.TruncatedMaximumRefuses`).
- The fallback frame of the server encoder carries no attachment but still declares its size
  (`UnaryLaws.FallbackIntactIff`).
- A handler's error reaches the client as it was returned only if the response head the handler can
  reach holds no other code: a framework code left there wins over a business error
  (`UnaryLaws.ErrorReachesClient`, `UnaryLaws.LeftoverCodeWins`).
- Request ids are called unique; they are over any 2^32 successive requests of one codec, and the
  next one repeats (`UnaryLaws.RequestIdsUnique`).
- An INIT frame without request metadata does not become a reset: the server dereferences the
  missing metadata and fails at run time (`StreamCodec.ServerStreamCodec.DecodeOrReset`).
- A failed RegisterClientConfig leaves the registry's maps alone, but for the wildcard it has
  already cleared the names of the config object, which the registry may hold for other callees
  (`ClientRegistry.Registry.RegisterClientConfig`, `ClientRegistry.OfferForWildcard`).
- The stream cache is called per connection; unix sockets whose paths hold underscores can share a
  key (`InitMetaCache.LocalsApartIff`, `InitMetaCache.UnixPathsCollide`).
- RepairConfig is not idempotent in one corner: a server overload builder that returns no
  controller for the server but one for a service by name (`FrameworkConfig.RepairTwice`,
  `FrameworkConfig.SecondRepairCanDiffer`).
- `parse` says a key cannot contain a comma; the code refuses only the two characters ", "
  (`RecordWhen.ParseRoundTrip`).
- CopyMsg says it copies all fields; a nil metadata map becomes an empty one, which the getters
  cannot tell apart by content.
- A config object is called a singleton; two callers share it exactly when its id is watched or no
  watch falls between them (`ConfigSharing.OneObjectPerId`, `ConfigSharing.WatchForgets`).

## Model

| member | source | states |
|---|---|---|
| `Bytes.Uint32OfBigEndian` | codec.go:149-151 | reading back a big-endian 32-bit field gives the value that was put |
| `Outcomes.ItoaRoundTrip` | config.go:731 | strconv.Itoa: decimal digits of the number, no leading zero |
| `Wire.FrameHead.DefaultUnary` | codec.go:108-113 | a default head is a unary head of the current protocol version, all else zero |
| `Wire.FrameHead.Extract` | codec.go:116-124 | the seven fields become those at their offsets in the buffer; the magic number is not looked at |
| `Wire.FrameHead.UpgradeProtocol` | codec.go:173-176 | version and stream id are replaced, the other five fields stay |
| `Wire.FrameHead.FillHead` | codec.go:145-153 | in-place writes leave exactly the sixteen head bytes, with the given lengths |
| `Wire.FrameHead.Construct` | codec.go:127-160 | the size errors in their order, else head, header, body and attachment one after another in a buffer filled in place |
| `Wire.Reader.ReadFull` | codec.go:207-210 | io.ReadFull: the missing bytes arrive and are consumed, or the short stream is consumed and an error reported |
| `Wire.Framer.ReadTotal` | codec.go:207-228 | first read: sixteen bytes consumed, magic and length checked with the limit truncated to 32 bits |
| `Wire.Framer.ReadPayload` | codec.go:230-240 | second read: the frame is the header followed by exactly the announced payload |
| `Wire.Framer.ReadFrame` | codec.go:206-241 | one frame and the rest of the stream as Framed says, and on an error exactly how much was consumed |
| `Wire.Framer.Parse` | codec.go:190-196 | the frame together with the stream id its head carries, or the error and what it consumed |
| `Wire.ParseHeadBytes` | codec.go:116-124 | extract undoes the head construct writes, whatever payload follows |
| `Wire.HeadLayout` | codec.go:83-95 | the head byte for byte: magic 0x0930, kinds, lengths and stream id most significant byte first, version, reserved |
| `Wire.FramedIff` | codec.go:206-228 | when a frame is delivered, byte for byte, and what each refusal means |
| `Wire.ConstructedLayout` | codec.go:127-160 | a constructed frame is as long as its length field says, keeps the head and holds the three parts in order |
| `Wire.ConstructedIff` | codec.go:128-142 | construct succeeds exactly when the header fits 16 bits and the total fits both the limit and 32 bits |
| `Wire.ConstructedErrors` | codec.go:128-142 | which size each error of construct blames |
| `Wire.FramedAfterConstructed` | codec.go:206-241 | a constructed frame followed by anything is read back whole exactly when the truncated limit admits it |
| `Wire.FramedSplits` | codec.go:206-241 | what the framer delivers is a prefix of the stream whose length field is its length |
| `Wire.StreamRoundTrip` | codec.go:206-241 | for every list of accepted frames, any bytes behind them and any limit, repeated reads return that list and leave those bytes exactly when the limit's low 32 bits admit each frame; a limit within 32 bits always does |
| `Wire.TruncatedMaximumRefuses` | codec.go:225-228 | with a limit of 2^32 an accepted frame is refused by the framer |
| `Wire.FramesArePrefixFree` | codec.go:127-160 | no accepted frame is a proper prefix of another, for any limit |
| `UnaryLaws.PartitionIff` | codec.go:291-300 | the attachment-size check never fires; head, body and attachment partition the buffer exactly when 16 + HeaderLen + AttachmentSize fits |
| `UnaryLaws.PartsOfConstructed` | codec.go:621-631 | the decoders find in any constructed frame the very header, body and attachment it was made of, or refuse an empty header |
| `UnaryLaws.EmptyHeadIffDefault` | codec.go:277-279 | a protobuf head takes no bytes exactly when every field has its default |
| `UnaryLaws.RequestRoundTrip` | codec.go:257-301 | client frame, framer and server decoder give back request head, body and attachment, or refuse an all-default head |
| `UnaryLaws.ResponseRoundTrip` | codec.go:591-632 | the same for the response on the encoder's main path, with the stream id kept |
| `UnaryLaws.UnaryCall` | codec.go:462-499 | a whole call over two byte streams: both bodies and attachments, the request id accepted, the routing id of the answer equal to the allocated id, with the exact exception |
| `UnaryLaws.MainPathIff` | codec.go:363-379 | the server encoder's main path is taken exactly within the size limits |
| `UnaryLaws.PartsUnderDeclared` | codec.go:621-631 | a frame without attachment whose head declares one: the tail of the body is taken for it if long enough, else the slice fails |
| `UnaryLaws.DecodeUnderDeclared` | codec.go:591-632 | the same through the whole client decoder |
| `UnaryLaws.FallbackShape` | codec.go:432-450 | the fallback keeps the request id, declares the attachment size and means a callee-framework RetServerEncodeFail |
| `UnaryLaws.FallbackDropsMetaData` | codec.go:370-378 | without naming the fallback: after a size error the head that goes out has no metadata, RetServerEncodeFail and the reason, goes with the body only if the head was too long, and never with an attachment; an attachment beyond 32 bits gets none |
| `UnaryLaws.FallbackIsSent` | codec.go:447-449 | the fallback frame is produced exactly if that head and body fit |
| `UnaryLaws.FallbackTexts` | codec.go:58-71 | the reasons a client reads |
| `UnaryLaws.FallbackReachesClient` | codec.go:370-378 | exactly what the client makes of a fallback frame, for every attachment size |
| `UnaryLaws.FallbackIntactIff` | codec.go:432-450 | every fallback frame reaches the client with its body exactly when the response had no attachment |
| `UnaryLaws.FallbackLost` | codec.go:374-378 | a limit, body and attachment for which the server falls back and the client cannot slice the answer |
| `UnaryLaws.ErrorReachesClient` | codec.go:384-406 | for every stored response head, what the handler returned is what the client sees, mapped by type, exactly when the codes left in that head do not get in the way; a fresh head never does |
| `UnaryLaws.ErrorCrossesWire` | codec.go:683-694 | the same for the frame encoded from any stored head, cut out of the stream and decoded by the client |
| `UnaryLaws.LeftoverCodeWins` | codec.go:399-406 | a framework code left in the head hides a business error behind its own code |
| `UnaryLaws.RequestIdsUnique` | codec.go:479-480 | two requests of one codec have the same id exactly when a multiple of 2^32 lies between them |
| `UnaryLaws.RequestCarries` | codec.go:535-556 | a request head says who calls whom and which method, call type, content types, whole milliseconds, dyeing bit and metadata of the message |
| `UnaryLaws.MillisecondsArrive` | codec.go:547 | the timeout arrives rounded down to milliseconds exactly if it is not negative and 32 bits of them hold it |
| `UnaryLaws.ResponseCarries` | codec.go:420-429 | the response to a request has its id, call type and message type, and the server's content types and metadata |
| `UnaryLaws.StoredHead` | codec.go:384-392 | the response head filled in is the stored one, else one for the stored request, else an empty one |
| `UnaryLaws.SentAnswer` | codec.go:394-415 | what the client takes from an answer: content types, metadata over metadata, and the handler's error |
| `UnaryLaws.PlainErrorReachesClient` | codec/message_impl.go:359-372 | an error that is not the framework's reaches the client as a business error of code 999 with its text |
| `UnaryLaws.ForeignAnswerRefused` | codec.go:696-700 | an answer to another request, or to none, is refused, and so is any for a response head of another type; every other is accepted |
| `UnaryLaws.PbHeadIff` | codec.go:592-612 | what a buffer must be, byte for byte, for its protobuf head to be found, and where it is |
| `UnaryLaws.TransInfoReachesServer` | codec.go:559-587 | request metadata: dyeing key and environment as set, the environment cleared rather than inherited, other keys from message over head |
| `UnaryCodec.ReadRequestAttachment` | codec.go:484-489 | the bytes of the client's attachment, consumed by reading; none without one, an error if reading fails |
| `UnaryCodec.SetResponseAttachment` | internal/attachment/attachment.go:64-68 | a non-empty attachment is recorded only in a message that holds an attachment, its request part untouched |
| `UnaryCodec.Merge` | codec.go:565-567 | the loop over metadata equals map override |
| `UnaryCodec.SetClientTransInfo` | codec.go:559-587 | metadata of the request as ClientTransInfo says, for which TransInfoReachesServer holds |
| `UnaryCodec.LoadOrStoreFrameHead` | codec.go:657-664 | the stored frame head, or a new default one that is stored |
| `UnaryCodec.ReadPbHead` | codec.go:592-612 | the opening checks of both decoders in their order, with the extracted head stored unless the buffer is too short |
| `UnaryCodec.SliceAttachment` | codec.go:291-297 | the attachment slice in wrapping 32-bit arithmetic |
| `UnaryCodec.SliceBody` | codec.go:299-300 | the body slice between protobuf head and attachment, or the out-of-range failure |
| `UnaryCodec.TakeMetaData` | codec.go:671-681 | metadata of an answer override the client metadata, in place if there are any |
| `UnaryCodec.TakeTransInfo` | codec.go:324-335 | the server takes a fresh copy of the metadata, the dyeing key and the environment |
| `UnaryCodec.ClientCodec.Encode` | codec.go:462-499 | next id allocated modulo 2^32 and recorded, the frame as ClientEncoded says under that id, the head recorded; a wrong frame type or head type allocates no id, an unreadable attachment or a failed marshal does |
| `UnaryCodec.ClientCodec.EncodeUnary` | codec.go:471-499 | the unary half of Encode, the failing attachment included |
| `UnaryCodec.ClientCodec.UpdateRequest` | codec.go:535-556 | the request head completed from the message: ids, names, millisecond timeout, dyeing bit, metadata |
| `UnaryCodec.ClientCodec.Decode` | codec.go:591-632 | body or error exactly as ClientDecoded, and the message after either: nothing but heads before updateMsg, error and metadata of the answer from there on, its id and attachment only if accepted |
| `UnaryCodec.ClientCodec.RecordAnswer` | codec.go:668-694 | content types, metadata and error recorded whatever the request id |
| `UnaryCodec.ClientCodec.UpdateMsg` | codec.go:666-710 | accepted exactly when the answer is for the recorded request; what is changed in either case |
| `UnaryCodec.ServerCodec.Decode` | codec.go:257-301 | body or error exactly as ServerDecoded, and the message after either: the request described in full once head and attachment have been read, untouched before |
| `UnaryCodec.ServerCodec.DescribeRequest` | codec.go:303-341 | caller, callee, method, timeout, dyeing and metadata of the request in the message |
| `UnaryCodec.ServerCodec.SetRequestAttachment` | internal/attachment/attachment.go:71-78 | a non-empty attachment is added under its key, with an empty response part, the other entries kept; an empty one changes nothing |
| `UnaryCodec.ServerCodec.Encode` | codec.go:345-380 | the response framed under the request's frame head, or the fallback, exactly as ServerEncoded, with the stored head updated and the attachment consumed |
| `UnaryCodec.ServerCodec.FrameOrFallback` | codec.go:363-380 | the two attempts of Encode |
| `UnaryCodec.ServerCodec.GetAndInitResponse` | codec.go:384-418 | the stored, derived or empty response head with types, error and metadata filled in, in place if it was stored |
| `Wire.Transmit` | codec.go:206-241 | one frame through a framer with more bytes behind it |
| `UnaryExchange.SendRequest` | codec.go:257-301 | client Encode, framer, server Decode: whatever could be encoded arrives, and the server's message then says who calls whom, which method, call and content types, timeout, dyeing, environment and metadata as the client's does |
| `UnaryExchange.DeliverRequest` | codec.go:462-499 | the frame the server gets decodes to a head that says what the client's message says |
| `UnaryExchange.ReceiveRequest` | codec.go:303-341 | what server Decode leaves of a frame known to decode, field by field |
| `UnaryExchange.ReceiveAnswer` | codec.go:591-632 | what client Decode leaves, for a frame that decodes and for an empty head |
| `UnaryExchange.DeliverResponse` | codec.go:345-380 | the frame the client gets decodes to what the server encoded |
| `UnaryExchange.SendResponse` | codec.go:591-632 | server Encode, framer, client Decode: within the limits body, attachment, content types and metadata arrive, and the client records the handler's own error as MappedError says unless codes in the stored head get in the way |
| `InitMetaCache.FlatOfStored` | codec_stream.go:484-496 | storing in the nested map is storing in the flat map, and makes no empty inner map |
| `InitMetaCache.FlatOfDeleted` | codec_stream.go:426-435 | deleting likewise |
| `InitMetaCache.FlatIsFaithful` | codec_stream.go:426-435 | without empty inner maps the flat view determines the nested map |
| `InitMetaCache.StoredKeepsConsistent` | codec_stream.go:484-496 | the nested map stays the cache of the run after an INIT |
| `InitMetaCache.DeletedKeepsConsistent` | codec_stream.go:426-435 | and after a close |
| `InitMetaCache.LookupMeansLatestInit` | codec_stream.go:411-423 | a lookup succeeds exactly when the run holds an INIT with no later close for the key, and names the latest one |
| `InitMetaCache.CacheIsLatestInit` | codec_stream.go:411-423 | for every run, a key is cached with given metadata exactly when its latest event is the INIT that stored them |
| `InitMetaCache.SameKeySameRemote` | internal/addrutil/addrutil.go:10-12 | at one local address two clients share a cache key exactly if their remote addresses are the same text |
| `InitMetaCache.LocalsApartIff` | internal/addrutil/addrutil.go:10-12 | two local addresses never share a key exactly if neither key prefix begins the other |
| `InitMetaCache.KeyTellsParts` | internal/addrutil/addrutil.go:10-12 | without underscores in network and local address a key tells all three parts |
| `InitMetaCache.UnixPathsCollide` | internal/addrutil/addrutil.go:10-12 | unix socket paths with underscores that share a key |
| `InitMetaCache.EventOfOneClient` | codec_stream.go:411-435 | an INIT or close of one client neither opens, closes nor renames a stream of another |
| `StreamCodec.WriteFrame` | codec_stream.go:270-273 | a stream frame has no protobuf head and no attachment |
| `StreamCodec.ServerStreamCodec.StoreInitMeta` | codec_stream.go:484-496 | the cache follows the run with one more INIT |
| `StreamCodec.ServerStreamCodec.DeleteInitMeta` | codec_stream.go:426-435 | the cache follows the run with one more close, dropping an emptied inner map |
| `StreamCodec.ServerStreamCodec.SetInitMeta` | codec_stream.go:411-423 | succeeds exactly for an open stream and takes the RPC name of its latest INIT |
| `StreamCodec.ServerStreamCodec.Decode` | codec_stream.go:377-395 | DATA, CLOSE and FEEDBACK are refused as uninitialized exactly when the stream is not open, and otherwise named by its latest INIT; only an INIT enters the run; streams of clients at other remote addresses stay as they were; what each frame records in the message |
| `StreamCodec.ServerStreamCodec.DecodeInit` | codec_stream.go:472-481 | an INIT with request metadata is stored and recorded; otherwise the run is unchanged |
| `StreamCodec.ServerStreamCodec.DescribeStream` | codec_stream.go:499-525 | names, content types, dyeing, metadata and environment of the INIT in the message |
| `StreamCodec.ServerStreamCodec.DecodeBody` | codec_stream.go:398-469 | payload of DATA, metadata of CLOSE and FEEDBACK; a reset or failing close sets the server error |
| `StreamCodec.ServerStreamCodec.BuildResetFrame` | codec_stream.go:527-535 | the frame head becomes a close in place and the message holds the reset |
| `StreamCodec.ServerStreamCodec.EncodeClose` | codec_stream.go:276-301 | the stream leaves the run whatever happens to the frame, and which key that is in each case |
| `StreamCodec.ServerStreamCodec.Encode` | codec_stream.go:356-373 | every frame kind: what is written, that only closes, failed DATA frames included, leave the run, and that streams of other clients stay as they were |
| `StreamCodec.ServerStreamCodec.EncodeInit` | codec_stream.go:315-330 | the INIT answer carries the message's error or success |
| `StreamCodec.ServerStreamCodec.DecodeOrReset` | codec.go:267-276 | a stream frame that does not decode leaves the run alone and turns into a reset with RetServerDecodeFail, except exactly an INIT without request metadata, for which no reset is built |
| `StreamCodec.ClientStreamCodec.DecodeClose` | codec_stream.go:111-136 | the error of a close, a reset being one whatever its code, and its metadata in the message |
| `StreamCodec.ClientStreamCodec.DecodeInit` | codec_stream.go:171-193 | content types of an INIT answer, and its error for a code other than zero |
| `StreamCodec.ClientStreamCodec.UpdateCloseMeta` | codec_stream.go:138-158 | metadata of the close override those of the client; a recorded response head is updated |
| `StreamCodec.ClientStreamCodec.EncodeInit` | codec_stream.go:203-235 | the INIT names caller, callee and method of the message; metadata held without a request part fail |
| `StreamCodec.WrittenRoundTrip` | codec_stream.go:270-273 | a stream frame is cut out whole and gives back payload, kinds and stream id |
| `StreamCodec.ResetReachesClient` | codec_stream.go:304-312 | a failed handler's error reaches the client as a callee-framework error with its code and message, even code 0 |
| `StreamCodec.InitAnswerReachesClient` | codec_stream.go:315-330 | the INIT answer arrives with the server's content types and, exactly for a non-zero code, the handler's error |
| `StreamCodec.CloseReachesClient` | codec_stream.go:111-136 | a close arrives with the server's metadata over its own; no error exactly without reset and codes; both ends read resets and framework codes alike |
| `StreamCodec.InitSays` | codec_stream.go:203-235 | an INIT says who calls whom, which method, content types, dyeing and metadata of the message |
| `StreamCodec.OpenStream` | codec_stream.go:472-481 | client INIT, framer, server: the server's message says what the client's does and the stream is open under that method for this client |
| `StreamCodec.AcceptInit` | codec_stream.go:499-525 | what the server makes of an INIT, field by field |
| `StreamCodec.RpcNameUntilClose` | codec_stream.go:377-395 | the method a client names in its INIT is what the server's cache answers until that stream is closed, whatever other streams do |
| `RpcNames.ScannerFinds` | codec/message_impl.go:756-783 | every accepted string decomposes as the regular expression demands |
| `RpcNames.MatchPositions` | codec/message_impl.go:756-783 | every matching string has its dot and slashes where the scanner looks |
| `RpcNames.ScannerIsRegex` | codec/message_impl.go:745-783 | the scanner accepts exactly the language of the regular expression |
| `RpcNames.DecompositionUnique` | codec/message_impl.go:740-743 | the decomposition is unique and methodFromRPCName returns its last part |
| `RpcNames.FourSections` | codec/message_impl.go:709-718 | a name of at least four sections splits after the first, the last part keeping further dots |
| `RpcNames.OneSection` | codec/message_impl.go:720-724 | a name without dots is the app |
| `RpcNames.TwoSections` | codec/message_impl.go:725-732 | two sections are app and server |
| `RpcNames.ThreeSections` | codec/message_impl.go:733-737 | three sections are app, server and service |
| `RpcNames.CountAfterDot` | codec/message_impl.go:710-716 | counted dots are found one after another, so the indices of the four-section case are in range |
| `Message.CloneMetaData` | codec/message.go:40-49 | nil stays nil, otherwise a new map with the same entries |
| `Message.CloneCommonMeta` | codec/message.go:55-64 | the same for common metadata |
| `Message.Msg.constructor` | codec/message_impl.go:71-113 | a reset message observes as empty |
| `Message.ServiceNameSets` | codec/message_impl.go:303-315 | a four-section name sets app, server and service to its sections; an unchanged name and the wildcard set none |
| `Message.RpcNameSets` | codec/message_impl.go:261-269 | a name of tRPC form sets the method to its last part, another name only an empty method |
| `Message.Msg.WithServerRPCName` | codec/message_impl.go:238-244 | sets the name and, if it is new, the callee method that follows from it |
| `Message.Msg.WithClientRPCName` | codec/message_impl.go:253-259 | the same for the client name |
| `Message.Msg.UpdateMethodNameUsingRPCName` | codec/message_impl.go:261-269 | a name of tRPC form sets the method to its last part, another name only an empty method |
| `Message.Msg.WithCalleeServiceName` | codec/message_impl.go:303-315 | a new name sets app, server and service too, except the wildcard |
| `Message.Msg.WithCallerServiceName` | codec/message_impl.go:343-355 | the same for the caller |
| `Message.Msg.WithServerMetaData` | codec/message_impl.go:277-282 | a nil map is replaced by an empty one |
| `Message.Msg.WithClientMetaData` | codec/message_impl.go:290-295 | the same for the client |
| `Message.Msg.WithServerRspErr` | codec/message_impl.go:375-377 | what is stored is what ServerRspErr then answers, a nil error included |
| `Message.CopyNamesAndMetaData` | codec/message.go:350-362 | names arrive and metadata are cloned into new objects, while the setters overwrite caller and callee parts |
| `Message.CopyHeads` | codec/message.go:363-372 | errors, heads, addresses and logger of the source as they were |
| `Message.CopyRest` | codec/message.go:373-389 | the overwritten parts and the remaining fields of the source as they were |
| `Message.CopyMsg` | codec/message.go:346-390 | from any destination state, and even onto itself, every getter then answers as the source did, with metadata maps of its own |
| `Message.CopyThenWrite` | codec/message.go:346-390 | later writes to the copy's metadata never show in the source |
| `ClientOptions.Append` | client/options.go:691-696 | Go's append: into the shared array while there is room, else into a new one |
| `ClientOptions.Options.CopyOf` | client/options.go:683-689 | clone shares all slices |
| `ClientOptions.Options.AppendTo` | client/client.go:215-227 | the appended field reads the longer list, the others are untouched, a full slice leaves its array alone |
| `ClientOptions.Options.RebuildField` | client/options.go:697-701 | contents kept, capacity exactly the length |
| `ClientOptions.Options.RebuildSliceCapacity` | client/options.go:696-717 | the four rebuilt fields have no spare capacity, every field reads as before, StreamFilters is not touched |
| `ClientOptions.RebuiltFields` | client/options.go:696-717 | of the appended fields only StreamFilters asks for more than the rebuild gives |
| `ClientOptions.AppendAmong` | client/client.go:111-127 | an append to one of many options objects leaves the slices of the others |
| `ClientOptions.AppendStep` | client/client.go:111-127 | an append to one object is read by that object alone, for every field kept apart |
| `ClientOptions.CloneStep` | client/client.go:111-113 | a clone of full slices stays apart from everything else |
| `ClientOptions.CloneAndRebuildStep` | client/client.go:398-405 | clone and rebuild stays apart from any object, full or not |
| `ClientOptions.Step` | client/client.go:111-127 | one step of any RPC on the shared slices does what private lists would |
| `ClientOptions.Run` | client/options.go:691-717 | for every interleaving of clones and appends every object, the original included, reads exactly its own appends |
| `ClientOptions.AppendTwice` | client/options.go:691-695 | without the rebuild, the first of two appends to copies survives exactly when one does not fit or they agree on the overlap |
| `ClientRegistry.TableIsScan` | client/config.go:360-394 | the two-level table holds exactly what backward scans of the registration log find |
| `ClientRegistry.ScanIsLast` | client/config.go:360-376 | a callee has a value exactly if some registration gives it and no later one concerns the callee |
| `ClientRegistry.PairScanIsLast` | client/config.go:378-394 | the same for a callee under a service name |
| `ClientRegistry.LookupFalls` | client/config.go:360-394 | pair, callee, wildcard, default, each only without the one before |
| `ClientRegistry.ResetVisibility` | client/config.go:396-420 | after a replacement callees in it get their row and all others its wildcard or the default |
| `ClientRegistry.PutVisibility` | client/config.go:423-448 | a registration is seen by lookups of its callee, and of the wildcard only by callees without one |
| `ClientRegistry.SameTables` | client/config.go:396-448 | equal registrations give tables with equal keys on both levels |
| `ClientRegistry.Registry.KeysInStep` | client/config.go:396-448 | options and configs always have equal keys, on both levels |
| `ClientRegistry.Registry.RegisterConfig` | client/config.go:396-420 | replaces both maps, or changes nothing exactly when some config is refused |
| `ClientRegistry.Registry.BuildTables` | client/config.go:397-414 | the loop builds both replacement tables from what the config objects say, in any order of visiting |
| `ClientRegistry.Registry.Install` | client/config.go:415-419 | both maps replaced together keep their keys in step and follow the log |
| `ClientRegistry.Registry.RegisterClientConfig` | client/config.go:423-448 | replaces one callee's entry; refused, it leaves the maps, and leaves what the held config objects say exactly when the callee is not the wildcard, the object is not held, or it had no names |
| `ClientRegistry.Registry.PutEntry` | client/config.go:433-446 | the locked half: one entry in both maps, earlier service names kept |
| `ClientRegistry.OfferForWildcard` | client/config.go:424-432 | a registered config offered for the wildcard and refused has lost its names for its own callee too |
| `ClientRegistry.Registry.GetOptions` | client/config.go:360-376 | the last registration of the callee since the last reset, else of the wildcard, else the default |
| `ClientRegistry.Registry.GetOptionsByCalleeAndServiceName` | client/config.go:378-394 | the last registration of the pair, else as by callee |
| `ClientRegistry.Registry.Config` | client/config.go:326-342 | the very config object registered last for the callee, else for the wildcard, else the default one |
| `HealthCheck.SizesDecide` | healthcheck/health_check.go:107-117 | under the inverse index, equal sizes mean all services serve, and a non-empty set means one is unknown |
| `HealthCheck.StatusIsLatest` | healthcheck/health_check.go:63-93 | after any run a service has a status exactly if some event left it with that, registration with Unknown, and no later event is about it |
| `HealthCheck.DropInverts` | healthcheck/health_check.go:87-93 | removing a name from the index inverts the statuses without it, and only those |
| `HealthCheck.AddInverts` | healthcheck/health_check.go:78-79 | adding it back under a known status restores the inverse |
| `HealthCheck.HealthCheck.Notify` | healthcheck/health_check.go:81-83 | every watcher of the service once, in order |
| `HealthCheck.HealthCheck.Register` | healthcheck/health_check.go:63-74 | refused exactly for a known name, otherwise Unknown, the inverse kept and watchers told |
| `HealthCheck.HealthCheck.Update` | healthcheck/health_check.go:74-84 | a known status is recorded at any time; an unknown one fails and breaks the inverse exactly when the service is registered |
| `HealthCheck.HealthCheck.Unregister` | healthcheck/health_check.go:88-93 | the service leaves both maps |
| `HealthCheck.HealthCheck.CheckService` | healthcheck/health_check.go:96-104 | the status the run left, or the one for unregistered services |
| `HealthCheck.HealthCheck.CheckServer` | healthcheck/health_check.go:107-117 | after any run: Serving exactly if all serve, else Unknown exactly if some is unknown, else NotServing |
| `HealthCheck.HealthCheck.Watch` | healthcheck/health_check.go:120-124 | one more watcher, nothing else |
| `HealthCheck.LateUpdateCounts` | healthcheck/health_check.go:74-84 | an update after Unregister makes the service count again |
| `FirstOccurrences.Deduplicate` | trpc_util.go:377-387 | the first occurrences of both lists together, in order |
| `FirstOccurrences.FirstsElements` | trpc_util.go:375-387 | nothing is lost and nothing added |
| `FirstOccurrences.FirstsNoDuplicates` | trpc_util.go:375-387 | no name twice |
| `FirstOccurrences.FirstsInOrder` | trpc_util.go:375-387 | each name comes from its first position, and those positions increase |
| `FirstOccurrences.DeduplicateAbsorbs` | config.go:813-815 | deduplicating again with the same global list changes nothing |
| `FrameworkConfig.ServiceIPsSettled` | config.go:772-792 | with addresses everywhere the NIC pass asks nothing and changes nothing |
| `FrameworkConfig.ServiceTwice` | config.go:726-762 | a repaired service is filled, and repairing it again is exact about when it changes |
| `FrameworkConfig.BackendTwice` | config.go:794-816 | repairing a backend twice is repairing it once |
| `FrameworkConfig.CompletedIsSettled` | config.go:697-769 | what the repair leaves needs no NIC and no defaults |
| `FrameworkConfig.ServicesTwice` | config.go:726-762 | the same for all services, as an if and only if |
| `FrameworkConfig.SweptAt` | config.go:726-762 | a service loop that ends has repaired every service |
| `FrameworkConfig.SweptEnds` | config.go:726-762 | and ends with the repaired services |
| `FrameworkConfig.SweptStops` | config.go:746-755 | or stops at the first that fails, leaving the later ones alone |
| `FrameworkConfig.CompletedTwice` | config.go:713-769 | the part behind the NIC lookups, run on its own result |
| `FrameworkConfig.RepairTwice` | config.go:697-769 | a second RepairConfig succeeds on every repaired configuration, changes nothing exactly when no inherited overload control would be rebuilt, and every service has IP and address |
| `FrameworkConfig.RepairMeans` | config.go:697-816 | every field that was set keeps its value, and every empty one takes the value of its NIC or the named default of server, client or global section |
| `FrameworkConfig.RepairFailsIff` | config.go:697-792 | the repair fails exactly for a NIC without address where none is configured, or an unknown overload builder of the server or of a service without a controller |
| `FrameworkConfig.RepairedServiceGets` | config.go:726-762 | what becomes of each field of a service, the address being IP, colon and decimal port |
| `FrameworkConfig.RepairedBackendGets` | config.go:794-816 | what becomes of each field of a backend, the client's filters first |
| `FrameworkConfig.ServiceIPsAt` | config.go:773-782 | what the NIC loop gives each service, and the first address as local IP |
| `FrameworkConfig.NicPassTwice` | config.go:698-712 | the second NIC pass finds nothing to do |
| `FrameworkConfig.SecondRepairCanDiffer` | config.go:746-755 | a configuration and builder for which the second repair differs |
| `FrameworkConfig.Store.RepairServiceIPs` | config.go:773-782 | the NIC loop in place, the first address becoming the local IP, or its first error and the services addressed so far |
| `FrameworkConfig.Store.RepairServiceIPWithNic` | config.go:772-792 | services, local IP and admin IP from their NICs, or the error and what it leaves behind |
| `FrameworkConfig.Store.RepairServices` | config.go:726-762 | all services repaired in place, or the first error, the services before it repaired, the failing one half so |
| `FrameworkConfig.Store.RepairService` | config.go:727-761 | one default after another comes to RepairedService, for which ServiceTwice holds |
| `FrameworkConfig.Store.RepairClientConfig` | config.go:794-816 | one backend repaired, for which BackendTwice holds |
| `FrameworkConfig.Store.RepairBackends` | config.go:764-767 | all backends repaired in place |
| `FrameworkConfig.Store.Complete` | config.go:713-768 | overload control, defaults, services and backends in the order of the code, and what an error leaves behind |
| `FrameworkConfig.Store.RepairConfig` | config.go:697-769 | the whole pass in place, with its errors and what they leave behind, as Repaired, for which RepairTwice holds |
| `RecordWhen.ShouldRecord` | config.go:255-286 | the closures with their loops and the shared random source decide, and draw, as Eval says |
| `RecordWhen.DrawFreeMeans` | config.go:255-316 | a tree without sampling decides as its meaning says: all of a non-empty AND, some of an OR, not a NOT |
| `RecordWhen.SamplingShare` | config.go:458-460 | a fraction records exactly for draws below it: never for zero, always for one, and more for more |
| `RecordWhen.ShortCircuits` | config.go:259-283 | behind what decides an AND or OR nothing is drawn |
| `RecordWhen.FlattenPreserves` | config.go:246-267 | merging nested non-empty ANDs keeps decision and number of draws, for every tree, span and draw sequence |
| `RecordWhen.PushPreserves` | config.go:289-316 | pushing NOT through non-empty AND and OR keeps them too |
| `RecordWhen.PushIsPushed` | config.go:289-316 | and leaves NOT only on tests and empty nodes |
| `RecordWhen.EmptyAndIsFalse` | config.go:255-265 | an empty AND is false, so non-emptiness is needed |
| `RecordWhen.ParseRoundTrip` | config.go:343-360 | an attribute parses back to key and value exactly when the key does not hold the delimiter |
| `RecordWhen.ParseIff` | config.go:343-360 | an attribute parses exactly if it is key, delimiter and value in parentheses |
| `KeepOrder.StepKeeps` | client/keeporder_client.go:54-87 | every step of caller, worker, transport and user keeps the invariant |
| `KeepOrder.Safety` | client/keeporder_client.go:64-71 | in every run the worker never blocks, the caller returns the first value on ech, and ch carries one result, that of Invoke |
| `KeepOrder.Progress` | client/keeporder_client.go:78-86 | once Invoke has returned nobody is stuck, and every step brings the end nearer |
| `KeepOrder.Completion` | client/keeporder_client.go:54-87 | every run can then be finished, with Invoke's result received |
| `KeepOrder.ValuesInRun` | client/keeporder_client.go:64-86 | the caller returns the first value the transport reported in the run, or Invoke's error if none, and the user gets what Invoke returned |
| `KeepOrder.InvokedInRun` | client/keeporder_client.go:66-71 | what the worker holds is what Invoke returned in this run |
| `KeepOrder.SilentTransport` | client/keeporder_client.go:67-70 | if the transport never reports, the caller gets the error of Invoke |
| `ConfigLoader.TrpcConfig.Set` | config/trpc_config.go:367-383 | a failed parse keeps the last good value; a success holds the expanded bytes and their parse |
| `ConfigLoader.TrpcConfig.SameData` | config/trpc_config.go:414-422 | compares the expanded bytes with those held |
| `ConfigLoader.TrpcConfig.Load` | config/trpc_config.go:396-412 | the skip-if-same path leaves the entity, and reports the outcome, of a full set; any error keeps the last good value |
| `ConfigLoader.TrpcConfig.Init` | config/trpc_config.go:331-360 | a watched config is read once, another one every time; any error keeps the last good value |
| `ConfigLoader.WatchPartitions` | config/trpc_config.go:220-227 | watched and unwatched items together are all items, each once |
| `Selection.KeptInOrder` | config/trpc_config.go:220-227 | kept and dropped items come from increasing positions |
| `ConfigLoader.ItemSet.Find` | config/trpc_config.go:186-195 | the item with the id, or null exactly when there is none |
| `ConfigLoader.ItemSet.StoreIfAbsent` | config/trpc_config.go:202-212 | the locked half keeps ids unique and appends only a new id |
| `ConfigLoader.ItemSet.GetOrStore` | config/trpc_config.go:197-213 | the stored item of the id, ids staying unique |
| `ConfigLoader.ItemSet.Partition` | config/trpc_config.go:217-228 | kept and dropped items with their order |
| `ConfigLoader.ItemSet.ReloadAll` | config/trpc_config.go:230-233 | every watched item reloaded and notified once, in order |
| `ConfigLoader.ItemSet.Watch` | config/trpc_config.go:216-238 | each item notified exactly once; a watched one that does not parse is told so and keeps its entity, any other holds the new bytes and their parse; the others are dropped untouched |
| `ConfigSharing.StepKeeps` | config/trpc_config.go:197-228 | every critical section keeps ids unique and returns an item of the set |
| `ConfigSharing.RunKeepsUnique` | config/trpc_config.go:197-228 | so does every interleaving |
| `ConfigSharing.StaysThrough` | config/trpc_config.go:215-228 | an item stays unless a watch drops it |
| `ConfigSharing.RunSeparates` | config/trpc_config.go:197-213 | what is in the set is never on its way into it again |
| `ConfigSharing.DroppedForGood` | config/trpc_config.go:215-228 | a watch anywhere in a run drops an unwatched item for good |
| `ConfigSharing.SharedObject` | config/trpc_config.go:197-213 | without a watch in between, or for a watched id, the object is shared |
| `ConfigSharing.ReplacedObject` | config/trpc_config.go:215-228 | with a watch in between, callers for an unwatched id never share it |
| `ConfigSharing.OneObjectPerId` | config/trpc_config.go:197-213 | in every interleaving where each caller brings its own object, two callers for one id get the same object exactly when it is watched or no watch falls between them |
| `ConfigSharing.WatchForgets` | config/trpc_config.go:215-228 | the shortest such run: after a watch the next caller for an unwatched id owns a new object |
| `FilterChain.RunFilter` | filter/filter.go:56-77 | the backward loop over closures equals the right fold of the filters, innermost span included, for filters that decide by request and every answer of next |
| `FilterChain.ApplyErased` | filter/filter.go:73-74 | a filter cannot tell handlers apart that differ in spans only |
| `FilterChain.FilterMeansPlain` | filter/filter.go:100-122 | without spans Filter is each filter around the rest, whatever the names |
| `FilterChain.FilterConcat` | filter/filter.go:56-77 | Filter of a concatenation is Filter of the first chain around Filter of the second, up to spans |
| `FilterChain.NoopIsIdentity` | filter/filter.go:39-47 | a noop filter anywhere makes no difference, up to spans |
| `FilterChain.FilterSpansNest` | filter/filter.go:67-75 | the spans of every chain nest properly, whatever the filters do |
| `FilterChain.OnceChain` | filter/filter.go:56-77 | filters that call next once: all pre-parts in order, the function once, all post-parts in reverse, its answer returned |
| `FilterChain.OnceSpans` | filter/filter.go:65-75 | the same span by span, each span around its own filter |
| `FilterChain.SpanNames` | filter/filter.go:88-94 | each filter runs in the span of its own name, or unknown beyond the names |

## Left out

- Protobuf: the codecs call a record of marshal and unmarshal functions, assumed inverse to each other and, for the unary heads, to write no bytes exactly for the default message. Serialization, compression and their registries are not modelled.
- Protocol heads are values in the model: a head pointer that user code keeps and reads later is not captured, nor is the cached INIT metadata object that a message shares with the cache (encoding an INIT answer writes its response part and content types into it, never the request part that lookups read).
- The scalar fields of a message are grouped into records; Go strings and byte strings of heads are Dafny strings; MetaData values are strings, so sharing of byte slices between a clone and its source is not captured.
- UnaryCodec.ClientCodec.Encode: does not state what reading does to the attachment reader and what the message holds after an attachment that fails to read; UnaryCodec.ReadRequestAttachment does.
- UnaryCodec.ClientCodec.Decode: does not state what a response head that fails to parse is left with; the library may have filled part of it.
- StreamCodec.ServerStreamCodec.Decode: requires both addresses of the message, because the cache key dereferences them, and a buffer of at least sixteen bytes, which its caller has checked.
- The client stream codec is modelled where a law needs it (INIT encoding and decoding, CLOSE decoding); its other frames pass bytes through.
- Locks are taken as atomic critical sections; only the config set is modelled with the interleavings between them.
- ClientOptions: fields of Options other than the appended slices, parseTarget, LoadNodeConfig and node selection; items are opaque, and element types are kept apart by a tag on the array.
- ClientRegistry: genOptions is a function of what the config says at that moment, and the default options are taken as given rather than generated on first use.
- FrameworkConfig: NIC lookup and overload builders are functions of their arguments; pointers that occur twice among the services, deduplicate writing into spare capacity of its first argument, and the global reader size are not captured.
- RecordWhen: decoding of YAML and what the single tests look at; draws are real numbers.
- KeepOrder: the failing submission to the worker pool, and putting the message back.
- HealthCheck: watchers that call back into the health check while it holds its lock.
- ConfigLoader.ItemSet.GetOrStore: runs its two lock sections back to back; ConfigSharing has the interleavings.
- ConfigLoader: providers, codecs, search and typed getters; the printed id is a record of its parts.
- FilterChain.RunFilter: a filter sees its request, which stands for context, request and response target together, and all answers of next, and always comes to an end; span contexts, filters that call next concurrently, and effects other than marks are not modelled. The server chain differs from the client chain in a span name only.
- errs causes, stacks and descriptions; http, admin, log, metrics, rpcz queries, transports, TLS, timeouts and stream flow control.
