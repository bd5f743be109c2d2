# Verification of the Pub/Sub, FX, calculated variable and thread pool components

This project models the parts of the quasar server framework that carry its hardest promises, and proves
those promises for all inputs, all runs and all interleavings. `dafny verify dfyconfig.toml` checks
everything.

**The UADP wire codec** (`Bytes`, `WireFormat`, `WireCodec`, `WireRoundTrip`, `WireLocality`,
`WireTheorems`, `WireLayout`, `LayoutTheorems`, `EncoderLayout`). Pub/Sub NetworkMessages of section
7.2.4 of OPC 10000-14, with the Variant, DataValue and scalar encodings of section 5.2.2 of OPC 10000-6.
`WireFormat` says byte by byte what the encoder writes and what the decoder accepts at each position; the
classes of `WireCodec`, an output buffer and a reader with a position, are proved to do just that. The
theorems are round trip, injectivity, locality, and the normalisation of foreign datagrams. `WireLayout`
writes the layout down a second time, without encoder or decoder, part by part with flags and widths; the
decoder is proved to accept exactly the laid-out datagrams, with the message they stand for, and the
encoder to write the plain ones. Float and Double are bit patterns.

**Publishing and delivery** (`Publishing`, `Delivery`, `UdpReceiver`). What a writer group publishes, how
its timer keeps or loses it, what a subscriber makes of a datagram, and, through the codec, that
published values arrive in the targets of the matching reader.

**The two connection engines** (`PubSubModel`, `PubSubEngine`, `FxModel`, `FxEngine`,
`ConnectionEffects`, `ConnectionSteps`, `Correspondence`, `ConnectionSafety`, `ConnectionTheorems`,
`NetworkAddress`, `FxConfiguration`, `ConfiguredConnections`). The FX engine keeps connection endpoints
(EstablishConnections and CloseConnections of sections 6.2.4 and 6.2.5 of OPC 10000-81) over dynamic
writer groups, readers and reference-counted receivers. The classes are the engines as they run one call
at a time. `ConnectionSteps` is the interleaving of a caller that holds the FX lock with the io thread,
where sockets and nodes may fail; every theorem about it is for all reachable worlds, and the classes'
calls are shown to be runs of it. Three facts deserve attention. Owner tags are unambiguous only for
certain entity names, and configuration validation does not see to that: for every accepted configuration
it is proved that endpoints and containers always agree if and only if no two entity names collide, and
where they do, whether the entities publish or subscribe, a run leaves a live connection with nothing
under its tag. The callback for first data must only try the lock. And when endpoint nodes cannot be
created, the name is poisoned and nothing else is left behind.

**The JSON subset codec** (`Decimal`, `JsonFormat`, `JsonGrammar`, `JsonCodec`, `JsonTheorems`,
`JsonSerialization`, `JsonCharacters`). Sections 4, 6 and 7 of RFC 8259 without arrays, surrogate escapes
and duplicate names, with limits on size and depth. A declarative grammar with derivation trees is proved
equivalent to the position-advancing parser, and serialising followed by parsing to be the identity.
`JsonCharacters` fixes what escapes stand for by a reading of UTF-8 of its own (section 3 of RFC 3629).

**Calculated variables** (`CalculatedModel`, `CalculatedEngine`, `LockDomains`). A push-based evaluator
over a graph that grows by registration, with formulas as uninterpreted functions, and the depth-first
search that divides the graph into lock domains.

**The thread pool** (`ThreadPool`, `SourceRequests`). Jobs with mutexes, workers, shutdown, and the
source-variable requests answered through it. The mutex of a job is given back in the worker loop
(Common/src/QuasarThreadPool.cpp:140) and once more when the duty's own lock is destroyed
(Common/include/QuasarThreadPool.h:87). The comment at line 138 says that one release under the access
lock is intended. The model has both variants: with one release exclusion holds; with two it holds
exactly when there is at most one worker or the pool accepts nothing. In the model the second release
frees the mutex for whoever tries next; the C++ standard leaves it undefined.

**The content order** of configurations (`ContentOrder`). The validating loop against the operations that
decorate a configuration.

Where the code differs from its own comments the code is followed: the second release of a job's mutex is
the one place where that matters.

## Model

| member | source | states |
|---|---|---|
| LayoutTheorems.DecoderMeetsLayout | PubSub/src/PubSubWire.cpp:670-829 | a datagram is accepted as a message, read up to a position, iff it begins with a layout of that length that stands for the message; a layout lists every part with its flag and its width, independently of the decoder |
| LayoutTheorems.LayoutIsRead | PubSub/src/PubSubWire.cpp:670-829 | every datagram that begins with a layout is accepted, and the message is the one that the layout stands for, optional parts and DataValue fields included |
| LayoutTheorems.MessageWasLaidOut | PubSub/src/PubSubWire.cpp:670-829 | every accepted datagram begins with a layout of the message that was decoded, as long as what was read |
| LayoutTheorems.OptionalPartsCarryNothing | PubSub/src/PubSubWire.cpp:426-461 | class id, group version, message number, timestamps, picoseconds, status codes, versions and promoted fields make no difference to the message that is received |
| LayoutTheorems.DataSetIsRead | PubSub/src/PubSubWire.cpp:437-496 | a DataSetMessage with any of its flags: sequence number, timestamp, picoseconds, status and versions at their widths, then keep-alive or fields in either encoding |
| LayoutTheorems.FieldIsRead | PubSub/src/PubSubWire.cpp:420-435 | a DataValue field is its value, or Null if it has none, whatever status, timestamps and picoseconds of 4, 8, 8, 2 and 2 bytes follow |
| LayoutTheorems.ScalarIsRead | PubSub/src/PubSubWire.cpp:312-418 | the scalars by their type codes 0 to 13, in two's complement with the sign in the top bit; any Boolean byte but 0 is true, a negative length is empty |
| LayoutTheorems.NothingSentIsZero | PubSub/include/PubSubWire.h:108-115 | received into a fresh object, an absent publisher id is 0 of two bytes, absent group numbers are 0, and without a payload header there is one message, of writer 0 |
| EncoderLayout.EncoderMeetsLayout | PubSub/src/PubSubWire.cpp:601-668 | what is written for a well-formed message is its plain layout: valid bit set, nothing optional, extended flags only for longer publisher ids, Booleans 0 or 1, and the k-th size that of the k-th DataSetMessage |
| EncoderLayout.SizesSplitThePayload | PubSub/src/PubSubWire.cpp:655-665 | for every encoded message with several DataSetMessages, the k-th two-byte number after the header is the length of the k-th body, the distance between where the decoder starts on it and where it stops |
| EncoderLayout.AlikeMessagesEncodeAlike | PubSub/src/PubSubWire.cpp:601-668 | numbers that are switched off, the keep-alive mark and whatever wrapping to a type's width loses make no difference to the datagram |
| EncoderLayout.NumbersWrap | PubSub/src/PubSubWire.cpp:128-186 | a number out of the range of its type is written as the number of that range that it wraps to |
| WireTheorems.EncoderSucceeds | PubSub/src/PubSubWire.cpp:601-668 | the encoder throws on exactly the messages that have no or more than 255 DataSetMessages, a value that cannot be encoded, or, with several messages, a body over 65535 bytes |
| WireTheorems.VariantEncodable | PubSub/src/PubSubWire.cpp:108-126 | a value is encodable iff it is a supported scalar, or an array of at most 0xFFFFFF supported scalars of its own type |
| WireTheorems.WireRoundTrips | PubSub/src/PubSubWire.cpp:601-829 | every well-formed message whose bodies fit is encoded, and decoding gives it back and consumes every byte |
| WireTheorems.EncodingIsInjective | PubSub/src/PubSubWire.cpp:601-668 | no two well-formed messages have the same encoding |
| WireTheorems.DecoderIgnoresTail | PubSub/src/PubSubWire.cpp:670-829 | what is accepted after n bytes is accepted with the same result for every datagram that begins with those n bytes |
| WireTheorems.DecoderRefusesPrefixes | PubSub/src/PubSubWire.cpp:670-829 | every datagram shorter than what an accepted one consumes is refused |
| WireTheorems.EncodingHasNoAcceptedPrefix | PubSub/src/PubSubWire.cpp:601-829 | every strict prefix of an encoding is refused |
| WireLocality.MessageLocal | PubSub/src/PubSubWire.cpp:201-270 | every read stays within the buffer and depends only on the bytes it consumes, from the single reads up to the whole message |
| WireTheorems.Normalisation | PubSub/src/PubSubWire.cpp:670-829 | every datagram of at most 65535 bytes that is accepted without a keep-alive re-encodes, and decoding that gives the same message |
| WireTheorems.NormalisationIsFaithful | PubSub/src/PubSubWire.cpp:437-496 | with keep-alives, re-encoding still succeeds, and gives the same message back if and only if the datagram carried none |
| WireTheorems.DataSetNormalises | PubSub/src/PubSubWire.cpp:420-496 | no DataSetMessage body grows by re-encoding, whatever optional fields, DataValue fields or negative lengths it used |
| WireTheorems.VariantNormalises | PubSub/src/PubSubWire.cpp:274-310 | every accepted variant is well formed and its canonical encoding is no longer than what was read |
| WireTheorems.EqualToItself | PubSub/src/PubSubWire.cpp:570-599 | a value equals itself under the source's comparison iff it holds no NaN |
| WireTheorems.FieldComesBackEqual | PubSub/src/PubSubWire.cpp:570-599 | a well-formed field that is encoded and decoded compares equal to what was sent iff it holds no NaN |
| WireRoundTrip.VariantRoundTrip | PubSub/src/PubSubWire.cpp:108-310 | a well-formed value is read back from its encoding wherever that stands in a datagram, up to its last byte |
| WireRoundTrip.DataSetRoundTrip | PubSub/src/PubSubWire.cpp:188-496 | so is a DataSetMessage, under the writer id that the payload header announces |
| WireRoundTrip.MessageRoundTrip | PubSub/src/PubSubWire.cpp:601-829 | so is a NetworkMessage at the start of a datagram, whatever follows it and whatever the output object held before, apart from numbers that are switched off |
| WireCodec.EncodeNetworkMessage | PubSub/src/PubSubWire.cpp:601-668 | the encoder, over its output buffer: it succeeds and writes exactly as `EncMessage` says; a well-formed message comes out as its plain layout, and with several DataSetMessages their sizes split the payload |
| WireCodec.ByteBuffer.PutU16 | PubSub/src/PubSubWire.cpp:82-86 | appends the little-endian bytes and nothing else |
| WireCodec.ByteBuffer.EncodeVariant | PubSub/src/PubSubWire.cpp:108-126 | appends the encoding of a value, or reports the failure on exactly the values without one |
| WireCodec.ByteBuffer.EncodeScalarBody | PubSub/src/PubSubWire.cpp:128-186 | appends a scalar body, truncated to the width of its type |
| WireCodec.ByteBuffer.EncodeDataSetMessage | PubSub/src/PubSubWire.cpp:188-199 | appends flags, sequence number, field count and fields |
| WireCodec.DecodeNetworkMessage | PubSub/src/PubSubWire.cpp:670-829 | the decoder: it accepts exactly the datagrams that begin with a layout, and gives the one message that it stands for, which is what `RdMessage` gives |
| WireCodec.Reader.U32 | PubSub/src/PubSubWire.cpp:221-229 | reads four bytes and advances, or refuses without a read past the end |
| WireCodec.Reader.Str | PubSub/src/PubSubWire.cpp:241-255 | reads a length-prefixed string; a negative length is an empty one |
| WireCodec.Reader.DecodeVariant | PubSub/src/PubSubWire.cpp:274-310 | reads a variant or refuses, as specified for the position |
| WireCodec.Reader.DecodeScalarBody | PubSub/src/PubSubWire.cpp:312-418 | likewise for a scalar body |
| WireCodec.Reader.DecodeDataValueField | PubSub/src/PubSubWire.cpp:420-435 | likewise for a DataValue field, whose status and timestamps are skipped; `FieldIsRead` says what the field is |
| WireCodec.Reader.DecodeDataSetMessage | PubSub/src/PubSubWire.cpp:437-496 | likewise for a DataSetMessage with its optional parts and both field encodings |
| WireCodec.Reader.DecodeFlags | PubSub/src/PubSubWire.cpp:678-718 | likewise for the flag bytes; other versions, chunks and other message types are refused |
| WireCodec.Reader.DecodeGroupHeader | PubSub/src/PubSubWire.cpp:763-780 | likewise for the group header |
| WireCodec.Reader.DecodePayloadHeader | PubSub/src/PubSubWire.cpp:783-792 | likewise for the payload header; zero messages are refused |
| WireCodec.Reader.SkipExtended | PubSub/src/PubSubWire.cpp:794-808 | likewise for timestamp, picoseconds and promoted fields; a secured message is refused |
| Bytes.LittleEndianRoundTrip | PubSub/src/PubSubWire.cpp:82-98 | the bytes of an integer below 256^n give it back |
| Bytes.TwosComplement | PubSub/src/PubSubWire.cpp:128-186 | signed integers survive their unsigned representation at every width |
| Publishing.WriterGroupRuntime.PublishGroup | PubSub/src/PubSubEngine.cpp:793-833 | the next message of a group: every number advanced by one in 16 bits, one DataSetMessage per writer, Null for what cannot be encoded |
| Delivery.Subscriber.HandleDatagram | PubSub/src/PubSubEngine.cpp:835-886 | a datagram changes nothing if it cannot be decoded; otherwise its messages are applied in order, each to the reader with its key |
| Delivery.Subscriber.ApplyFields | PubSub/src/PubSubEngine.cpp:856-877 | every target takes the field at its position if that can be converted and the target accepts it; surplus fields and targets are left alone; data is seen iff there is any position in common, even if nothing was accepted |
| Delivery.PublishedIsDelivered | PubSub/src/PubSubEngine.cpp:793-886 | end to end: what a group publishes is encoded and decoded, and the targets of each matching reader then hold the sampled values wherever they accept them, while other readers are untouched |
| Delivery.OthersUntouched | PubSub/src/PubSubEngine.cpp:849-857 | no reader is touched that no message names |
| Delivery.AddressedApplied | PubSub/src/PubSubEngine.cpp:849-877 | with distinct writers, a reader holds what its own message brought, whatever the others are |
| Delivery.TargetAfterMessage | PubSub/src/PubSubEngine.cpp:845-875 | a target changes only for a message to its reader that is no keep-alive and has a field for it, of a type that reaches variables, which the variable accepts; it then holds the field |
| Delivery.ConvertibleByType | PubSub/src/PubSubEngine.cpp:243-385 | all single values but Null, Int8 and DateTime reach a variable, and arrays of all types from Boolean to String, Int8 included |
| Delivery.DataSeenAfterMessage | PubSub/src/PubSubEngine.cpp:845-884 | a reader has seen data iff it had before, or the message is for it, no keep-alive, and has a field for one of its targets |
| Delivery.SamplesStand | PubSub/src/PubSubEngine.cpp:793-833 | every receiver decodes a group's datagram to the group's numbers and the samples, writer by writer and field by field, with Null for each value that cannot be published |
| PublishTimers.LiveGroupWaitsOnce | PubSub/src/PubSubEngine.cpp:778-791 | between handlers, every group of a running engine has exactly one outstanding wait, and it is not aborted |
| PublishTimers.LiveGroupPublishesNext | PubSub/src/PubSubEngine.cpp:778-791 | a live group can always publish once more |
| PublishTimers.PublicationsAreNumbered | PubSub/src/PubSubEngine.cpp:793-810 | the k-th publication of a group carries k modulo 65536 as the group's and every writer's sequence number |
| PublishTimers.StoppedStaysSilent | PubSub/src/PubSubEngine.cpp:778-791 | in every run a stopped group publishes nothing and waits for nothing new |
| PublishTimers.NoZombie | PubSub/src/PubSubEngine.cpp:625-641 | a removed group never publishes or waits again, also if its completion was queued when its timer was cancelled |
| PublishTimers.QueuedCompletionSurvives | PubSub/include/PubSubEngine.h:150-154 | cancelling does not take back a queued completion: it still arrives as a success, so that the stop mark is needed |
| UdpReceiver.OpenIsArmedOnce | PubSub/src/PubSubUdp.cpp:97-121 | in every run an open receiver has exactly one receive outstanding |
| UdpReceiver.NothingAfterStop | PubSub/src/PubSubUdp.cpp:91-121 | after stop nothing is delivered or armed, whatever was queued |
| PubSubEngine.Engine.AcquireReceiver | PubSub/src/PubSubEngine.cpp:475-492 | one more user of a receiver, or a refusal that changes nothing if a new one cannot be bound |
| PubSubEngine.Engine.ReleaseReceiver | PubSub/src/PubSubEngine.cpp:494-504 | one user less; with the last one the receiver goes |
| PubSubEngine.Engine.BuildRuntimes | PubSub/src/PubSubEngine.cpp:732-776 | a start succeeds iff every group can be set up (socket, timer, variables), the targets of every reader can be resolved, no two readers have the same key and every receiver needed can be bound; the containers are then exactly the configured ones, each receiver counted once per reader |
| PubSubEngine.StartableExactly | PubSub/src/PubSubEngine.cpp:732-776 | a start succeeds iff every group, every reader and every receiver with a reader can be set up, and no two readers of the whole configuration have the same key |
| PubSubEngine.StartedReaders | PubSub/src/PubSubEngine.cpp:732-776 | after a start every configured reader is there under its key, at its connection's address, with no owner and no data |
| PubSubEngine.StartedGroups | PubSub/src/PubSubEngine.cpp:732-776 | after a start the groups stand in the order of the configuration |
| PubSubEngine.Engine.AddDynamicWriterGroup | PubSub/src/PubSubEngine.cpp:506-568 | adds one group, or refuses and changes nothing: not running, no fields, a key in use, or no socket |
| PubSubEngine.Engine.AddDynamicReader | PubSub/src/PubSubEngine.cpp:570-617 | adds one reader and a user of its receiver, or refuses and changes nothing |
| PubSubEngine.Engine.EraseGroups | PubSub/src/PubSubEngine.cpp:629-641 | erases in place exactly the groups under a tag, keeping the order of the others |
| PubSubEngine.Engine.EraseReaders | PubSub/src/PubSubEngine.cpp:642-654 | erases exactly the readers under a tag and releases a receiver for each |
| PubSubEngine.Engine.RemoveDynamic | PubSub/src/PubSubEngine.cpp:619-662 | both, and the receivers left are exactly those that the other readers need |
| PubSubEngine.Engine.ReaderDataSeen | PubSub/src/PubSubEngine.cpp:664-681 | whether any reader under the tag has applied data; false when not running |
| PubSubEngine.Engine.Shutdown | PubSub/src/PubSubEngine.cpp:683-715 | nothing is left and the engine does not run |
| PubSubModel.UsageAfterAdd | PubSub/src/PubSubEngine.cpp:475-492 | with a new reader the receivers in use are the old ones with one more user at its place |
| PubSubModel.UsageAfterRemove | PubSub/src/PubSubEngine.cpp:494-504 | without a reader they are the old ones with one release at its place |
| PubSubModel.AddReaderKeepsConsistent | PubSub/src/PubSubEngine.cpp:578-611 | adding a reader keeps receivers and readers in agreement |
| PubSubModel.RemoveKeepsConsistent | PubSub/src/PubSubEngine.cpp:619-662 | so does removal, which also keeps the keys of dynamic groups unique |
| PubSubModel.AddGroupUndone | PubSub/src/PubSubEngine.cpp:520-641 | adding a group under a new tag and removing the tag gives the engine back as it was |
| PubSubModel.AddReaderUndone | PubSub/src/PubSubEngine.cpp:578-654 | so it does for a reader, to the last receiver |
| PubSubModel.RemoveAllStep | PubSub/src/PubSubEngine.cpp:619-662 | removing one tag after the other is removing them all, in any order |
| NetworkAddress.ParseNetworkAddress | PubSub/src/PubSubConfiguration.cpp:62-87 | accepts exactly the addresses of the form scheme, host, colon, port from 1 to 65535, slashes, and returns host and port |
| NetworkAddress.ParsePort | PubSub/src/PubSubConfiguration.cpp:74-86 | accepts exactly the digit strings, leading zeros included, that mean 1 to 65535 |
| NetworkAddress.ReadingIsUnique | PubSub/src/PubSubConfiguration.cpp:62-87 | an address can be read in one way at most, although a host may hold colons |
| NetworkAddress.SchemeSpelled | PubSub/src/PubSubConfiguration.cpp:62-66 | the scheme is opc.udp://, and slash and colon are those of ASCII |
| FxEngine.Engine.EndpointCountOf | Fx/src/FxEngine.cpp:468-476 | the number of endpoints of an entity |
| FxEngine.Engine.ActiveConnectionFor | Fx/src/FxEngine.cpp:457-466 | whether an endpoint is active for an entity, a role and a dataset |
| FxEngine.Engine.FirstFreeAutoName | Fx/src/FxEngine.cpp:478-510 | below the ceiling of 64 endpoints the first of cep-1, cep-2, … that can be taken is found; at the ceiling the entity's first closed endpoint in the order of names; every name returned is valid and passes the later checks; it fails exactly when the entity has 64 endpoints and all are active |
| FxEngine.Engine.FirstClosed | Fx/src/FxEngine.cpp:500-506 | the entity's first closed endpoint in the order of names, if it has one |
| ConnectionEffects.AutoNameSpelled | Fx/src/FxEngine.cpp:488-489 | automatic names are cep- and a decimal number |
| Bytes.LessByFirstDifference | Fx/src/FxEngine.cpp:502-505 | the order of names: a proper prefix comes first, otherwise the first byte that differs decides |
| FxModel.Pigeonhole | Fx/src/FxEngine.cpp:480-500 | among the first n automatic names, n more than are unavailable, one is available |
| FxModel.AutoNameValid | Fx/src/FxEngine.cpp:488-489 | every automatic name passes the check of connection names |
| FxEngine.Engine.Plan | Fx/src/FxEngine.cpp:563-770 | a plan is made iff the engine is started, the role allows the members that are given, entity and dataset are known, the name is free and the dataset not connected; it then says exactly what the request asks for: entity, dataset, tag, and the dataset's writer group or the peer at the requested address |
| FxEngine.Engine.CheckName | Fx/src/FxEngine.cpp:596-616 | the name checks against poisoned names and the endpoint table |
| FxEngine.Engine.EstablishConnections | Fx/src/FxEngine.cpp:557-790 | succeeds iff the request is acceptable, each member named, and the nodes of a new endpoint can be created; a publisher's writer group is then added under the configured publisher id, or the peer's reader at the requested address, with one user more there, and the endpoint stored under the tag; refused, it changes nothing but for a name lost with its nodes |
| FxEngine.EstablishedAnswers | Fx/src/FxEngine.cpp:557-790 | the same of the function that the interleaved model is compared with |
| ConnectionEffects.AnsweredExactly | Fx/src/FxEngine.cpp:557-790 | a call succeeds iff under the name given, or the automatic one, the request is acceptable and new nodes can be created |
| FxEngine.RequestedIsFound | Fx/src/FxEngine.cpp:579-648 | entity and dataset are the first of the requested names, among the outputs for a publisher and the inputs for a subscriber |
| FxEngine.TagSpelled | Fx/src/FxEngine.cpp:634 | the owner tag is fx:component/entity/name |
| FxEngine.RemoveAllClears | PubSub/src/PubSubEngine.cpp:619-662 | a removal leaves exactly the groups and readers under other tags, the groups in order, and the receivers that those readers need, each with their number |
| FxEngine.Engine.CloseConnections | Fx/src/FxEngine.cpp:792-834 | succeeds iff the named endpoint is active on a started engine; exactly that endpoint is then inactive and shows Initial, and exactly what is under its tag is gone, idle receivers included |
| FxEngine.Engine.Shutdown | Fx/src/FxEngine.cpp:192-215 | every active endpoint, and no other, becomes inactive and shows Initial, exactly what is under their tags is gone, and the engine is stopped |
| FxEngine.RefusedEstablishIsNoOp | Fx/src/FxEngine.cpp:638-750 | a refused call leaves endpoints and containers as they were, but for at most one poisoned name, which is no endpoint |
| FxModel.TagsCollideExactly | Fx/src/FxEngine.cpp:634 | valid connection names can give two entities the same owner tag iff one entity name extends the other past a slash, by a part short and clean enough to stand in a connection name |
| FxModel.TagsInjective | Fx/src/FxEngine.cpp:634 | in a tag-safe configuration an owner tag names one entity and one connection |
| FxModel.NoSlashIsTagSafe | Fx/src/FxEngine.cpp:634 | entity names without a slash make a configuration tag-safe |
| FxConfiguration.FinalizeAndValidate | Fx/src/FxConfiguration.cpp:75-139 | accepts, with field names defaulted, exactly the configurations that are valid then: names unique at every level, writer groups unique across the component, publisher id within its type and 2^53 |
| FxConfiguration.FinalizeFields | Fx/src/FxConfiguration.cpp:53-71 | defaults empty field names to the leaf of the address, and accepts exactly non-empty lists with addresses and unique names |
| FxConfiguration.FinalizeOutputs | Fx/src/FxConfiguration.cpp:103-126 | likewise for the output datasets of an entity, given the writer groups used so far |
| FxConfiguration.LeafOf | Fx/src/FxConfiguration.cpp:47-51 | the leaf has no dot, ends the address, and follows a dot unless it is the whole address |
| ConfiguredConnections.OutputGroupsDiffer | Fx/src/FxConfiguration.cpp:108-117 | different output datasets of an accepted configuration have different writer groups |
| ConfiguredConnections.OutputPublishes | Fx/src/FxConfiguration.cpp:103-126 | every output dataset of an accepted configuration is found by its name and can be published under its own key |
| ConfiguredConnections.InputSubscribes | Fx/src/FxConfiguration.cpp:128-134 | every input dataset of an accepted configuration is found by its name and can be subscribed to |
| ConfiguredConnections.ValidNamesMayCollide | Fx/src/FxConfiguration.cpp:96-101 | with accepted entity names that collide, whatever datasets the entities have, a world is reachable in which a connection is active with neither a writer group nor a reader |
| ConfiguredConnections.CorrespondenceExactly | Fx/src/FxEngine.cpp:634 | for an accepted configuration, endpoints and containers agree in every reachable world without a call in progress if and only if no entity name extends another past a slash by a part that valid connection names can make up |
| ConfiguredConnections.NamesWithoutSlashAreEnough | Fx/src/FxEngine.cpp:634 | accepted entity names without a slash are enough for that |
| ConnectionSafety.SafeAdd | PubSub/src/PubSubEngine.cpp:506-617 | the posted task that brings a data plane up, or fails, keeps the invariant |
| ConnectionSafety.SafeBuild | Fx/src/FxEngine.cpp:726-753 | creating nodes, or failing to, and storing the endpoint keeps it |
| ConnectionSafety.SafeUndo | Fx/src/FxEngine.cpp:739-749 | undoing a half-made connection and poisoning its name keeps it |
| ConnectionSafety.SafeReconcile | Fx/src/FxEngine.cpp:755-761 | asking for data seen meanwhile keeps it: Operational is reported only if data has been applied |
| ConnectionSafety.SafeRemoveNow | Fx/src/FxEngine.cpp:820 | the posted removal keeps it |
| ConnectionSafety.SafeMarkClosed | Fx/src/FxEngine.cpp:821-822 | so does marking the endpoint closed |
| ConnectionSafety.SafeDeliver | PubSub/src/PubSubEngine.cpp:876-884 | applying a message to a reader keeps it |
| ConnectionSafety.SafeSignal | Fx/src/FxEngine.cpp:541-555 | the first-data callback, which only tries the lock, keeps it |
| ConnectionSafety.SafeStep | Fx/src/FxEngine.cpp:557-834 | every action of either thread keeps the invariant |
| ConnectionSafety.EveryRunIsSafe | Fx/src/FxEngine.cpp:557-834 | the invariant holds after every run from a started engine |
| ConnectionTheorems.EndpointsMatchContainers | Fx/src/FxEngine.cpp:557-834 | whenever no call is in progress: an active publisher has exactly one writer group under its tag, an active subscriber exactly one reader, a closed endpoint neither; every dynamic group and reader belongs to an active endpoint; one endpoint at most is active per entity, role and dataset; 64 endpoints at most per entity; poisoned names are no endpoints |
| ConnectionTheorems.ReceiversMatchReaders | PubSub/src/PubSubEngine.cpp:475-504 | at every moment a receiver exists iff a reader listens there, its use count is the number of such readers, and keys of dynamic groups are unique |
| ConnectionTheorems.FirstDataHandshake | Fx/src/FxEngine.cpp:541-555 | at every moment, for every dynamic reader: its connection is a live subscription under its tag; if that endpoint shows Operational the reader has applied data, and if the reader has signalled the endpoint shows Operational |
| ConnectionTheorems.OperationalHasData | Fx/src/FxEngine.cpp:752-761 | at every moment a subscriber that shows Operational has a reader that has applied data, unless it is just being closed and its reader has gone already |
| ConnectionTheorems.NextMessageSignals | PubSub/src/PubSubEngine.cpp:876-884 | when no call is in progress, one more message is enough for a reader's endpoint to show Operational |
| ConnectionTheorems.CallerCanMove | PubSub/src/PubSubEngine.cpp:459-473 | no deadlock: while the FX lock is held, some step that brings the call closer to its end is always possible, without a further datagram and with either outcome of what may fail |
| ConnectionTheorems.EveryStepCounts | Fx/src/FxEngine.cpp:557-834 | whatever step is taken while the lock is held, and whatever fails, the bound on the steps left falls; only a datagram can raise it, by one |
| ConnectionTheorems.LockIsReleased | Fx/src/FxEngine.cpp:557-834 | every run, however scheduled and whatever fails, finds the lock free within a number of steps fixed by the state it starts from and two more for every datagram that arrives on the way |
| ConnectionTheorems.OnlyTheSignalCanHappen | Fx/src/FxEngine.cpp:541-549 | while first data is being signalled and a call waits for the io thread, nothing else can happen: a callback that waited for the lock would stop both |
| ConnectionTheorems.EstablishMayMeetASignal | Fx/src/FxEngine.cpp:541-549 | every subscriber connection can come to that point |
| ConnectionTheorems.EstablishedIsARun | Fx/src/FxEngine.cpp:557-790 | a whole establish call is a run of the interleaved model |
| ConnectionTheorems.ClosedIsARun | Fx/src/FxEngine.cpp:792-834 | so is a close call |
| ConnectionTheorems.ShutdownIsARun | Fx/src/FxEngine.cpp:192-215 | so is a shutdown |
| ConnectionTheorems.SafeMeansCallable | Fx/src/FxEngine.cpp:478-510 | the invariant gives what the methods of the FX engine ask of its table |
| ConnectionTheorems.CallsKeepSafe | Fx/src/FxEngine.cpp:192-215 | whole calls lead from safe to safe |
| ConnectionTheorems.RefusalLeavesNothing | Fx/src/FxEngine.cpp:596-750 | in every reachable world a refused establish is a no-op but for at most one poisoned name |
| ConnectionTheorems.CloseUndoesEstablish | Fx/src/FxEngine.cpp:792-834 | in every reachable world, closing what was just established gives the Pub/Sub engine back as it was |
| ConnectionTheorems.CollisionLosesAConnection | Fx/src/FxEngine.cpp:634 | tag safety is needed, whether the two entities publish or subscribe: with colliding names there is a run of three successful calls, two establishing and one closing, after which the other endpoint is active with neither a writer group nor a reader |
| Correspondence.CorrespondsAddGroup | PubSub/src/PubSubEngine.cpp:520-562 | adding a group under a fresh tag keeps groups, readers and connections in correspondence |
| Correspondence.CorrespondsRemove | PubSub/src/PubSubEngine.cpp:619-662 | removing a connection's tag keeps the rest in correspondence |
| JsonGrammar.ParserMeetsGrammar | Fx/src/FxJson.cpp:48-334 | a text is accepted with a value iff it has at most 65536 bytes and the grammar, with its rules on depth, names and escapes, derives it with that value |
| JsonGrammar.GrammarIsUnambiguous | Fx/src/FxJson.cpp:48-334 | however a text of any size is derived, it denotes one value |
| JsonGrammar.GrammarIsAccepted | Fx/src/FxJson.cpp:53-63 | every derivation within the size limit is accepted |
| JsonGrammar.AcceptedIsGrammar | Fx/src/FxJson.cpp:53-63 | every accepted text has a derivation that denotes the value returned |
| JsonGrammar.CharsComplete | Fx/src/FxJson.cpp:226-276 | the characters of a string, in any of their spellings, are read as what they denote |
| JsonGrammar.NumeralComplete | Fx/src/FxJson.cpp:278-313 | a numeral is read to its end and no further |
| JsonCharacters.EscapeIsUtf8 | Fx/src/FxJson.cpp:209-224 | an escaped code point becomes its UTF-8 form: the lead byte of its length, continuation bytes after it, not overlong, and the code point in their bits |
| JsonCharacters.Utf8IsUnique | Fx/src/FxJson.cpp:209-224 | no other bytes are the UTF-8 form of the code point |
| JsonCharacters.HexEscapesExactly | Fx/src/FxJson.cpp:183-267 | a hex escape is legal and stands for some bytes iff its four digits write a number that is no surrogate and the bytes are the UTF-8 form of that number |
| JsonCharacters.HexDigitsExactly | Fx/src/FxJson.cpp:190-203 | the hex digits and their values, in either case |
| JsonCharacters.ShortEscapesExactly | Fx/src/FxJson.cpp:253-262 | the eight one-letter escapes and what each stands for; there are no others |
| JsonCharacters.EscapeIsShortest | Fx/src/FxJson.cpp:336-363 | the serialiser escapes a byte iff it must, and never at greater length than any other spelling of it |
| JsonCharacters.RawExactly | Fx/src/FxJson.cpp:236-248 | a byte stands for itself iff it is no control character, quote or backslash |
| JsonCharacters.Spelling | Fx/src/FxJson.cpp:71-181 | words, punctuation and white space are those of JSON |
| JsonCharacters.ScalarsSpelled | Fx/src/FxJson.cpp:365-407 | null, true, false and the decimal digits with a minus for negative integers |
| JsonCharacters.DigitsArePositional | Fx/src/FxJson.cpp:278-300 | each further digit multiplies by ten and adds its value |
| JsonTheorems.JsonRoundTrip | Fx/src/FxJson.cpp:336-429 | every object nested at most 16 deep whose text is short enough is parsed back from its serialisation, provided that the streams read back what they print for numbers other than integers up to 2^53 |
| JsonTheorems.LimitsAreExact | Fx/src/FxJson.cpp:94-97 | within the other limits an object is parsed back iff its nesting is at most 16 and its text at most 65536 bytes |
| JsonSerialization.SerializationIsInjective | Fx/src/FxJson.cpp:396-429 | different values have different serialisations, at any depth and size, on the same condition |
| JsonSerialization.TreeShrinks | Fx/src/FxJson.cpp:336-429 | serialising never takes more bytes than a text that denotes the value and writes its numbers as integers up to 2^53 |
| JsonSerialization.PlainTextIsStable | Fx/src/FxJson.cpp:557-563 | for every accepted text that writes its numbers as integers up to 2^53, the value serialises to no more bytes, and parsing that gives the same value |
| JsonTheorems.ParsedIsStable | Fx/src/FxJson.cpp:557-563 | every parsed request is a canonical object of depth at most 16; on the same condition, and if its serialisation has at most 65536 bytes, parsing that gives it back |
| JsonTheorems.SetMemberKeepsSorted | Fx/src/FxJson.cpp:540-543 | setting a member keeps the members in the order of their names |
| JsonTheorems.SetMemberUpdates | Fx/src/FxJson.cpp:540-543 | setting a member gives it the value, whatever it had, and changes no other |
| JsonCodec.ParseJsonObject | Fx/src/FxJson.cpp:557-563 | the parser accepts a text with a value iff the text has at most 65536 bytes and the grammar derives it with that value |
| JsonCodec.Parser.ParseObject | Fx/src/FxJson.cpp:94-134 | an object at the position, or a refusal; the depth is restored |
| JsonCodec.Parser.ParseString | Fx/src/FxJson.cpp:226-276 | a string at the position, with its escapes read as `HexEscapesExactly` and `ShortEscapesExactly` say, or a refusal |
| JsonCodec.Parser.ParseNumber | Fx/src/FxJson.cpp:278-329 | a number at the position, or a refusal |
| JsonCodec.Parser.ParseHexQuad | Fx/src/FxJson.cpp:183-207 | four hexadecimal digits of either case |
| JsonCodec.Output.AppendEscaped | Fx/src/FxJson.cpp:336-363 | appends the quoted, escaped text |
| JsonCodec.Output.SerializeValue | Fx/src/FxJson.cpp:396-429 | appends the canonical text of a value |
| JsonCodec.Serialize | Fx/src/FxJson.cpp:550-555 | the canonical text of a value |
| Decimal.DigitsRoundTrip | Fx/src/FxJson.cpp:371-377 | the digits of a number give it back |
| CalculatedModel.PropagationIsCorrect | CalculatedVariables/src/CalculatedVariable.cpp:81-131 | after a variable is set, every other automatically updated variable that was consistent before, or has an input that was set on the way, equals what its formula gives for the final values |
| CalculatedModel.SetKeepsConsistent | AddressSpace/src/ChangeNotifyingVariable.cpp:52-64 | the same, by whether the variable is notified on the way |
| CalculatedModel.InputSetNotifies | CalculatedVariables/src/ParserVariable.cpp:65-74 | whoever has an input that is set is notified |
| CalculatedModel.CalculatedIsConsistent | CalculatedVariables/src/CalculatedVariable.cpp:81-131 | a variable that has just calculated and set itself is consistent, although its own dependents run before it returns |
| CalculatedModel.SetFrame | CalculatedVariables/src/CalculatedVariablesEngine.cpp:75-104 | setting a variable leaves all variables registered before it alone |
| CalculatedModel.SettledIsUnique | CalculatedVariables/src/CalculatedVariable.cpp:92-131 | when everything calculated is consistent, the sources determine it all |
| CalculatedModel.SetSettles | CalculatedVariables/src/ParserVariable.cpp:65-74 | setting a source of a settled graph settles it again |
| CalculatedModel.NotificationOrderIrrelevant | CalculatedVariables/src/ParserVariable.cpp:65-74 | graphs that differ only in the order of notification end with the same values |
| CalculatedModel.GoodExactlyWhen | CalculatedVariables/src/CalculatedVariablesChangeListener.cpp:36-76 | a settled variable is Good iff all its value inputs are and its status formula, if any, does not evaluate to zero |
| CalculatedModel.SeenByFormulas | CalculatedVariables/src/CalculatedVariablesChangeListener.cpp:36-76 | formulas see a number as itself and a flag as 0 or 1 unless the status is bad; waiting for initial data is told apart from bad, and all else is bad |
| CalculatedModel.CalculateShows | CalculatedVariables/src/CalculatedVariable.cpp:92-131 | for the first value input that is not good nothing is published, with the reason; otherwise the formula's value for the arguments, the k-th being the value of the k-th input, and Good unless the status formula gives zero for its own |
| CalculatedModel.ThinningIsInvisible | CalculatedVariables/src/CalculatedVariablesEngine.cpp:334-360 | dropping parser variables that notify nothing cannot be noticed in what is published |
| CalculatedEngine.Engine.RegisterVariable | CalculatedVariables/src/CalculatedVariablesEngine.cpp:58-67 | puts a variable at the end of the list, and nothing else |
| CalculatedEngine.Engine.RequestVariable | CalculatedVariables/src/CalculatedVariablesEngine.cpp:75-104 | the first parser variable with a name, if there is one |
| CalculatedEngine.Engine.RequestInputs | CalculatedVariables/src/CalculatedVariablesEngine.cpp:75-104 | each variable that a formula names is looked up, the first of its name, and gets the requestor on its list at once, up to the first unknown name |
| CalculatedEngine.Engine.Distinct | CalculatedVariables/src/CalculatedVariable.cpp:175-187 | the requested variables without repetitions, in the order in which each is first mentioned |
| CalculatedEngine.FoundByName | CalculatedVariables/src/CalculatedVariablesEngine.cpp:75-104 | the k-th input is then the first variable with the k-th of the formula's names, in the order of their first mention |
| CalculatedEngine.RequestsCount | CalculatedVariables/src/ParserVariable.cpp:81-86 | a requestor is put on the list of a variable once for each of its requests |
| CalculatedEngine.Engine.InstantiateCalculatedVariable | CalculatedVariables/src/CalculatedVariablesEngine.cpp:260-315 | adds a variable whose value inputs are, in order of first mention, the first variables with the names in its value formula, and whose status inputs are those of its status formula, puts it on their lists, and sets or calculates it; or refuses, for an unknown name, an error in a formula or a node that cannot be added, and then exactly the requests made before that stay on the lists, which are unchanged iff there were none |
| CalculatedEngine.Dangling | CalculatedVariables/src/CalculatedVariablesEngine.cpp:83-103 | requests left by a refusal, if there are any, make the lists name a variable that does not exist |
| CalculatedEngine.ExtendedIsWellFormed | CalculatedVariables/src/CalculatedVariablesEngine.cpp:75-104 | registration keeps the graph well formed: formulas name earlier, registered variables, which notify exactly those that name them |
| CalculatedEngine.RegistrationKeepsConsistent | CalculatedVariables/src/CalculatedVariablesEngine.cpp:260-315 | registering and setting a new variable leaves every earlier one consistent |
| CalculatedEngine.Engine.CalculateNow | CalculatedVariables/src/CalculatedVariable.cpp:92-131 | what the formulas give now, as `CalculateShows` says; the first value input that is not good decides |
| CalculatedEngine.Engine.SetValue | CalculatedVariables/src/ParserVariable.cpp:65-74 | stores the value and pushes it, by nested calls, through all that depends on it, exactly as specified; it terminates because formulas name only earlier variables |
| CalculatedEngine.Engine.Optimize | CalculatedVariables/src/CalculatedVariablesEngine.cpp:334-360 | drops exactly the parser variables without dependents whose variables nobody else listens to |
| CalculatedEngine.Engine.DfsAndSetSynchronizer | CalculatedVariables/src/CalculatedVariablesEngine.cpp:362-388 | gives the synchroniser to the variable and to connected variables without one, so that no neighbour is left out |
| CalculatedEngine.Engine.SetupSynchronization | CalculatedVariables/src/CalculatedVariablesEngine.cpp:390-418 | afterwards synchronisers divide the variables by connection; exactly the varying parser variables that a formula names, or that name one, have a synchroniser; and the numbers in use are exactly those counted |
| LockDomains.DomainsAreComponents | CalculatedVariables/src/CalculatedVariablesEngine.cpp:362-418 | two variables with synchronisers share one iff they are connected through calculated variables that still have parser variables |
| LockDomains.ChangeStaysInDomain | CalculatedVariables/src/ParserVariable.cpp:56-79 | setting a variable of one lock domain changes no parser variable of another |
| LockDomains.UnlinkedConnectsNothing | CalculatedVariables/src/CalculatedVariablesEngine.cpp:341-350 | a calculated variable whose parser variable has been dropped connects nothing: with any other formula, or none, the same variables are connected |
| LockDomains.UnlinkedInputsStayApart | CalculatedVariables/src/CalculatedVariablesEngine.cpp:341-350 | with every calculated variable unlinked, each variable is connected to itself alone |
| ThreadPool.Pool.FindSomeDuty | Common/src/QuasarThreadPool.cpp:70-103 | takes the first job that is not blocked by a held mutex, holds its mutex, and leaves the others in order; if there is none, nothing changes |
| ThreadPool.Pool.AddJob | Common/src/QuasarThreadPool.cpp:146-162 | appends a job unless the list is full |
| ThreadPool.Pool.Finish | Common/src/QuasarThreadPool.cpp:136-142 | gives back the mutex of the job and no other |
| ThreadPool.FirstRunnable | Common/src/QuasarThreadPool.cpp:73-102 | every job before the one taken has its mutex held |
| ThreadPool.ExclusionExactly | Common/src/QuasarThreadPool.cpp:105-144 | no reachable state has two workers busy under one mutex iff a mutex is given back once, or there is at most one worker, or no job is ever accepted |
| ThreadPool.SecondReleaseBreaksExclusion | Common/include/QuasarThreadPool.h:84-89 | with the second release by the duty's own lock, two workers and room for one job are enough to run two jobs under one mutex |
| ThreadPool.LocksKept | Common/src/QuasarThreadPool.cpp:105-144 | with one release the locked mutexes are exactly those that some worker runs under |
| ThreadPool.StartsInOrder | Common/src/QuasarThreadPool.cpp:70-103 | jobs of one mutex start in the order of acceptance; the list never exceeds its limit |
| ThreadPool.PassedOverOnlyWhileHeld | Common/src/QuasarThreadPool.cpp:83-93 | a job is passed over only while a worker holds its mutex |
| ThreadPool.JobsAreConserved | Common/src/QuasarThreadPool.cpp:44-59 | an accepted job is in exactly one place, once: waiting, with a worker, executed, or dropped at destruction |
| SourceRequests.AnsweredExactlyOnce | AddressSpace/include/ASSourceVariable.h:147-272 | in every run a request is answered exactly once, unless its job is still waiting, with a worker, or dropped, and then not at all |
| SourceRequests.SubmitKept | AddressSpace/include/ASSourceVariable.h:147-210 | refused, synchronous and accepted requests each keep that account |
| ContentOrder.ValidateContentOrder | Configuration/Configurator.h:72-100 | the loop accepts iff the indices recorded for the type are a permutation of the indices of its children |
| ContentOrder.Parent.PushBack | Configuration/include/ConfigurationDecorationUtils.h:49-55 | adds the child and its entry; if the order fitted the children of every type before, it does afterwards |
| ContentOrder.Parent.Clear | Configuration/include/ConfigurationDecorationUtils.h:57-69 | removes the children of a type and exactly their entries; if the order fitted every type before, it does afterwards |
| ContentOrder.PushBackKeepsOrdered | Configuration/include/ConfigurationDecorationUtils.h:49-55 | adding a child keeps the order fitting for every type |
| ContentOrder.ClearKeepsOrdered | Configuration/include/ConfigurationDecorationUtils.h:57-69 | clearing a type keeps it fitting for every type |

## Left out

- Diagnostics: exception and log texts, and the JSON detail that a call returns, are not modelled; a failure is a refusal.
- Time: publishing intervals, expiry times and time-to-live appear only as valid or not; sockets and timers only as "may fail" and "a completion may already be queued".
- Liveness under load: an endless stream of datagrams ahead of posted tasks is not excluded; `ConnectionTheorems.LockIsReleased` counts what each datagram can cost.
- The JSON members of FX requests are extracted by code that is not modelled: a request is what they contain, each optional member absent, malformed or given. Unknown members and missing or ill-typed required ones are refusals before anything is changed and are left out.
- Two DataSetMessages of one datagram: between them the interleaved model lets other tasks run, which the io thread does not; it has more runs than the code. Callers that wait for the FX lock are represented by the one that holds it.
- Creation of the address-space nodes of an endpoint is one step that may fail; address and dataset variables of an endpoint are not modelled. That removal of a data plane throws is not modelled.
- Conversion between wire values and the SDK's variants: a target holds the wire value that was written to it. Strings with zero bytes, which the conversion cuts short, are not distinguished.
- Delivery.Subscriber.ApplyFields: the targets of different readers are different variables; whether a variable accepts a value is a parameter.
- WireTheorems.EqualToItself: floating-point values are bit patterns; that signalling NaNs may be quieted on their way through a double is not modelled.
- WireCodec.EncodeNetworkMessage: values built with a storage that does not belong to their type cannot be expressed.
- JsonTheorems.JsonRoundTrip: number streams are a parameter; that they read back what they print, a legal numeral, is a hypothesis for numbers that are not integers up to 2^53. Negative zero is not distinguished from zero.
- JsonTheorems.ParsedIsStable: a number written with a short exponent, such as 1e15, can serialise to more bytes than it came from, so that the size limit is a hypothesis there; `JsonSerialization.PlainTextIsStable` needs none.
- JsonCodec.Parser.ParseNumber: a conversion of the stream to a double is the parameter `Streams` for numerals that are not such integers.
- FxEngine.Engine.FirstFreeAutoName: asks that the number of names fits in 64 bits, as the source's counter does.
- FxEngine.Engine.Shutdown: the source closes in the order of names; the model in any order, with the same result.
- PubSubEngine.Engine.BuildRuntimes: a failed start leaves partly filled containers that the model does not describe.
- ConnectionSteps: the Pub/Sub engine is shut down only after the FX engine, as the server does (Server/src/BaseQuasarServer.cpp, lines 605 and 606), and is not started again.
- CalculatedEngine.Engine.InstantiateCalculatedVariable: after a refusal that leaves requests behind, which ends the start-up, nothing more is modelled; the source's lists then hold the address of the refused variable. Formula texts, constants and their elaboration are left out: a formula is the names it asks for, whether it has an error after them, and a function.
- CalculatedModel.PropagationIsCorrect: one writer at a time; numbers are reals, so that NaN is not distinguished.
- CalculatedModel.GoodExactlyWhen: a boolean published by a formula is taken to convert to 0 or 1.
- CalculatedEngine.Engine.SetValue: the recursive lock taken around it is not modelled as a step; `LockDomains` says what it protects.
- ThreadPool.ExclusionExactly: mutexes are used by the pool only. Synchronous source-variable requests, which lock them directly, are answered in one step.
- ThreadPool.Pool.Finish: the wake-up of idle workers, by notification or every 100 milliseconds, is left out.
- ContentOrder.ValidateContentOrder: the variant for optional children (0 or 1) is left out.
- FxConfiguration.FinalizeOutputs: whether an interval is positive and at most a day is a flag, since it is decided on doubles.
- FxConfiguration.FinalizeAndValidate: returns the configuration with its names defaulted, where the source changes it in place.
- ThreadPool.Pool: the worker loop itself is the step relation of `ThreadPool`, not a method.
- SDK glue, server start-up, command line, code generation, project installation and XML bindings are left out.
- FxEngine.Engine.EstablishConnections: the publisher's own destination address, interval and time-to-live are checked but not kept in the modelled writer group.
- FxEngine.Engine.FirstClosed: looks at the endpoints in any order and keeps the least; the source takes the first of a sorted map.
