# bigio (Node.js) — a Dafny model of membership, gossip and the wire codecs

bigio is a peer-to-peer messaging bus. Each process is a *member*, named by
the key `ip:gossipPort:dataPort`. Members learn of each other by multicast
announcements and by gossip snapshots. They subscribe to `topic(partition)`
strings and send each other *envelopes* on TCP data connections. This project
models the process-wide state and the rules that change it:

- the member database (`member-database.js`): registrations, interceptors,
  templates, local listeners, and the member table with its active/dead
  partition;
- gossip reconciliation and delivery selection (`bigio.js`, and `cluster.js`,
  an earlier revision of the same module);
- the local member (`me-member.js`, `me.js`): equality, decode-on-send,
  shutdown, and the reassembly of envelope frames from a TCP stream;
- multicast discovery (`mcdiscovery.js`): the announcement and the receive
  handler;
- the three wire codecs (gossip, envelope, generic) and the string helpers of
  `utils.js`.

How it is modelled:

- MessagePack is a parameter: `MsgPack.Codec` holds a pack and an unpack
  function. Every decoder relies on `MsgPack.Consumes`: a successful read
  consumes input, and a nested binary is shorter than its buffer. The
  byte-level round trips also rely on `MsgPack.RoundTrips`: unpacking a
  packed value gives it back, for the values MessagePack carries unchanged
  (`MsgPack.Packable`). `MsgPack.Sound` is the two together, and
  `TaggedCodec.Tagged` is a codec that has it (`TaggedCodec.TaggedSound`).
- JavaScript values are `Js.Value`.
- Objects whose key order matters (tags, the registration map) are
  insertion-ordered entry lists. Integer-like keys are not moved to the
  front (see "## Left out").
- The member database is the class `MemberDatabase.Database`.
- The front end of `bigio.js` is the class `Cluster.Node`.
- The local member is `LocalMember.Me`.
- The discovery module's local state is `Discovery.Local`.
- Each imperative operation is a method proved against a function. Lemmas
  then state the source's promises about that function: the liveness
  partition kept by every status update and every gossip snapshot, and
  idempotence of reconciliation. Round trips are proved for the codecs.

Modules: `Wrappers`, `Js`, `Text`, `MsgPack`, `MemberKey`, `Utils`,
`Framing`, `GenericCodec`, `GossipCodec`, `EnvelopeCodec`, `MemberDatabase`,
`Cluster`, `GossipLaws`, `LocalMember`, `Discovery`, `TaggedCodec`.

## Model

| member | source | states |
|---|---|---|
| Utils.TopicString | bigio/utils.js:56-58 | the event name is the topic, `(`, the partition, `)`, in that order and nothing else |
| Utils.NotifyTopicString | bigio/utils.js:60-62 | the notify name is the topic immediately followed by the partition |
| Utils.GetTopic | bigio/utils.js:64-69 | the topic is a prefix of the string, and is the whole string when it holds no `(` |
| Utils.GetPartition | bigio/utils.js:71-80 | without a `(` the partition is `.*` (`ALL_PARTITIONS`) |
| Utils.GetTopicLiteral | bigio/utils.js:65-67 | the split is on the literal two characters backslash-`(`: `t` + that pair + `p` gives back `t`, and `p` as partition when `p` holds no backslash |
| Utils.TopicStringNotInverted | bigio/utils.js:64-80 | for backslash-free `t`, `p`, `GetTopic(TopicString(t, p))` is the whole `t(p)` and the partition is `.*`: the helpers do not invert `getTopicString` |
| Utils.Key | bigio/utils.js:96 | the key's length is the three parts plus two separators |
| Utils.KeyParts | bigio/utils.js:96 | splitting a key of colon-free parts on `:` gives back exactly the three parts |
| Utils.KeyInjective | bigio/utils.js:94-101 | two colon-free (ip, gossipPort, dataPort) triples give the same key iff they are equal |
| Utils.GetKey | bigio/utils.js:94-101 | the result is `""` iff an address argument lacks a truthy ip, gossipPort or dataPort; otherwise it is `ip:gossipPort:dataPort` of the member or address |
| Text.ParseIntToString | bigio/codec/gossip-codec.js:124-129 | `parseInt` of an integer's decimal text gives the integer back |
| Text.CanonicalRoundTrip | bigio/codec/gossip-codec.js:124-129 | canonical decimal text parses to its value and prints back to the same text |
| Text.JoinSplit | bigio/codec/gossip-codec.js:117 | joining the pieces of `split(sep)` with `sep` gives back the string |
| Text.SplitThree | bigio/bigio.js:305-308 | `key.split(":")` of three colon-free parts gives exactly those parts |
| Text.FindFirst | bigio/utils.js:66 | the separator is found at its first occurrence |
| Text.FreeNoOccurrence | bigio/utils.js:66 | a prefix that lacks the separator's first character holds no occurrence of the separator |
| Js.ParseIntOfInt | bigio/codec/envelope-codec.js:135-136 | `parseInt` leaves an integer unchanged |
| Js.Floor | bigio/codec/gossip-codec.js:147 | `Math.floor` of an integer is that integer; of a fractional number, its floor |
| Js.Trunc | bigio/codec/envelope-codec.js:135-136 | `parseInt` of a plain number truncates toward zero, on both sides of zero |
| Js.AssignKeys | bigio/mcdiscovery.js:90-92 | assigning a property keeps the key order, and appends the key when it is new |
| Js.Assign | bigio/mcdiscovery.js:91 | after `o[k] = v`, `k` reads `v` and every other key reads as before |
| Text.StringToNumber | bigio/member/member-database.js:237-241 | `Number(s)` of an empty or blank string is 0; the reading of numerals is stated by `Text.NumeralAtDigits` and `Js.NumberOfShownInt` |
| Js.NumberOfShownInt | bigio/bigio.js:137-144 | `Number(String(i))` is `i` for every integer, so an offset given as integer text, such as the default `'0'`, is compared as that integer |
| Js.NumeralStrings | bigio/member/member-database.js:237-241 | "1.5" is 1.5, "007" is 7, " 5 " is 5 and "-2e2" is −200, as JavaScript converts them |
| MsgPack.PackAll | bigio/codec/gossip-codec.js:172-176 | the encoding loop yields the packed values concatenated in order |
| MsgPack.UnpackAll | bigio/codec/gossip-codec.js:56-64 | the decoding loop collects the values unpacked one after another until the buffer ends or a value is malformed |
| MsgPack.UnpacksJoin | bigio/codec/gossip-codec.js:56-64 | unpacking packed values followed by anything gives those values, then whatever the rest unpacks to |
| MsgPack.UnpacksJoinAll | bigio/codec/gossip-codec.js:56-64 | unpacking the concatenated encodings gives the values back, in order |
| MemberKey.KeyRoundTrip | bigio/codec/gossip-codec.js:120-132 | a canonical key is written as six integers, and rebuilding `a.b.c.d:g:p` from them gives the same key |
| MemberKey.OctetsRoundTrip | bigio/codec/gossip-codec.js:117 | a canonical dotted-quad ip written as four `parseInt` octets reads back as the same ip |
| MemberKey.KeyShape | bigio/codec/gossip-codec.js:120-123 | a canonical key is its four octets joined by `.`, then `:gossipPort:dataPort` |
| MemberKey.IpShape | bigio/codec/gossip-codec.js:68 | joining the four pieces of `ip.split('.')` with `.` gives the ip back |
| Framing.FrameLength | bigio/member/me-member.js:215 | the big-endian length `hi * 256 + lo` is below 65536 |
| Framing.U16BE | bigio/codec/gossip-codec.js:178-180 | `writeUInt16BE` of a length below 65536 gives two bytes that read back as that length |
| Framing.U16BEOfLength | bigio/member/me-member.js:215 | any two prefix bytes are what `writeUInt16BE` writes for the length they encode |
| Framing.Framed | bigio/codec/envelope-codec.js:146-148 | a framed payload is two length bytes equal to the payload length, followed by the payload |
| Framing.PendingChunk.constructor | bigio/member/me-member.js:218 | the one process-wide `chunk` starts with no bytes |
| Framing.FrameReassembler.constructor | bigio/member/me-member.js:185 | a connection declares its own `waitingOn`, at 0, and uses the shared `chunk` cell it is given |
| Framing.FrameReassembler.OnData | bigio/member/me-member.js:195-232 | one `'data'` event delivers the frames and leaves the connection's `waitingOn` and the shared `chunk` as the handler as written computes them (`Receive`) from their old values |
| Framing.ScanLoop | bigio/member/me-member.js:214-231 | the `while (offset < buff.length)` loop computes `Scan` from the given offset and state |
| Framing.CompleteFrames | bigio/member/me-member.js:214-231 | a read made of complete frames delivers every payload, in order, and leaves `waitingOn` 0 |
| Framing.TrailingPartial | bigio/member/me-member.js:217-220 | a trailing incomplete frame is kept as the chunk, with `waitingOn` = size − bytes available |
| Framing.Continuation | bigio/member/me-member.js:200-212 | when the read starts with exactly `waitingOn` bytes, chunk plus those bytes is delivered first and parsing resumes at `waitingOn` |
| Framing.StaleContinuation | bigio/member/me-member.js:200-212 | a read no longer than `waitingOn` delivers chunk plus the read as a frame and leaves `waitingOn` and chunk unchanged |
| Framing.StaleContinuationExample | bigio/member/me-member.js:200-212 | frames [1,2],[3] read as [0,2,1],[2],[0,1,3] deliver [1,2] and then [1,0]; frame [3] is lost |
| Framing.SharedChunkExample | bigio/member/me-member.js:195-232 | connection a reads [0,2,1], connection b reads [0,2,9], then a reads [2]: the shared `chunk` now holds b's byte, so a delivers [9,2] and its own frame [1,2] is lost |
| Framing.SharedChunkTrace | bigio/member/me-member.js:195-232 | the same reads through two handler objects that share one `chunk` deliver [9,2] to connection a |
| Framing.Frames | bigio/member/me-member.js:214-231 | the unconsumed bytes are never longer than the input |
| Framing.FramesOfStream | bigio/member/me-member.js:214-231 | parsing a written stream of frames gives back exactly those frames and no rest |
| Framing.FeedIsFrames | bigio/member/me-member.js:195-232 | feeding reads one at a time to the corrected reassembler is the same as parsing their concatenation |
| Framing.DeliversEveryFrame | bigio/member/me-member.js:195-232 | however the written stream is cut into reads, the corrected reassembler delivers every frame once, in order, with nothing left over |
| Framing.ScanFrames | bigio/member/me-member.js:214-231 | the scan loop returns the complete frames at the head of the buffer and the bytes after them |
| Framing.StreamReassembler.constructor | bigio/member/me-member.js:185 | a connection starts with no pending bytes |
| Framing.StreamReassembler.OnData | bigio/member/me-member.js:195-232 | a read returns the frames completed by pending bytes plus the read, and keeps exactly the bytes not yet consumed |
| GenericCodec.EncodeMessage | bigio/codec/generic-codec.js:72-78 | the key loop gives the packed field values concatenated in key order, with no names and no length prefix |
| GenericCodec.DecodeMessage | bigio/codec/generic-codec.js:43-64 | the decoding loop computes `Decode`: values unpacked in order, byte buffers decoded recursively |
| GenericCodec.RoundTrip | bigio/codec/generic-codec.js:43-78 | decoding an encoded record whose fields are not buffers gives the list of its field values, in field order |
| GenericCodec.NestedField | bigio/codec/generic-codec.js:50-52 | a buffer field comes back as the list its bytes decode to, at the same position |
| GenericCodec.DecodeEmpty | bigio/codec/generic-codec.js:45-63 | decoding empty input gives the empty list |
| GenericCodec.DecodeJoin | bigio/codec/generic-codec.js:47-61 | decoding packed values followed by more bytes gives their lifted values, then the decoding of the rest |
| GenericCodec.DecodeStopsAtError | bigio/codec/generic-codec.js:56-60 | on a malformed value, the values decoded so far are returned and nothing is thrown |
| GenericCodec.DecodeMalformed | bigio/codec/generic-codec.js:56-60 | input whose first value is malformed decodes to the empty list |
| GossipCodec.ToPackHead | bigio/codec/gossip-codec.js:139-169 | the tuple starts with the 4 ip octets, gossipPort, dataPort, timestamp and the key flag, which is true iff a public key is defined |
| GossipCodec.ToPackTail | bigio/codec/gossip-codec.js:139-169 | the key follows the flag only when defined; then tags, member lists, clock and eventListeners, in that order |
| MsgPack.PackedFrame | bigio/codec/gossip-codec.js:172-180 | `encode` of both codecs (also bigio/codec/envelope-codec.js:144-148): a 2-byte big-endian length equal to the payload length, then the packed fields, which a reader of the stream gets back as exactly one frame; no frame (`None`) when the packed fields take 65536 bytes or more, where `writeUInt16BE` throws a RangeError |
| GossipCodec.EncodeMessage | bigio/codec/gossip-codec.js:115-183 | the encoding routine, with its member loop and pack loop, computes `Encode`, and gives no frame where the length prefix would throw |
| GossipCodec.DecodeMember | bigio/codec/gossip-codec.js:84-90 | a member entry fails to decode iff it is `undefined` or `null` |
| GossipCodec.DecodeMembers | bigio/codec/gossip-codec.js:84-90 | the member list fails iff one of its entries is `undefined` or `null` |
| GossipCodec.DecodeMemberList | bigio/codec/gossip-codec.js:84-90 | the member loop computes `DecodeMembers` |
| GossipCodec.SkipPrefix | bigio/codec/gossip-codec.js:53 | decode drops exactly the first two bytes |
| GossipCodec.DecodeMessage | bigio/codec/gossip-codec.js:49-106 | decode skips the prefix, unpacks until the end or an error, then walks the values (`Decode`) |
| GossipCodec.IndexWalk | bigio/codec/gossip-codec.js:66-103 | the `index++` walk computes `FromFields`: the key is read iff the flag is truthy |
| GossipCodec.WalkFails | bigio/codec/gossip-codec.js:84-90 | the walk fails iff an entry of the members field is `undefined` or `null` |
| GossipCodec.MemberKeyRoundTrip | bigio/codec/gossip-codec.js:84-90 | the six integers written for a canonical key decode to the same key |
| GossipCodec.FieldsRoundTrip | bigio/codec/gossip-codec.js:66-169 | walking the packed fields of a well-formed snapshot gives the snapshot back |
| GossipCodec.RoundTrip | bigio/codec/gossip-codec.js:49-183 | a well-formed snapshot whose packed fields take fewer than 65536 bytes encodes, and decoding the encoding gives back the same ip, ports, timestamp, key, tags, members, clock and eventListeners |
| GossipCodec.DecodeStopsAtError | bigio/codec/gossip-codec.js:56-64 | a malformed value stops unpacking; decode walks the values read before it and does not throw |
| EnvelopeCodec.ToPackHead | bigio/codec/envelope-codec.js:109-141 | the tuple starts with the 4 sender octets, both ports and the encrypted flag |
| EnvelopeCodec.ToPackTail | bigio/codec/envelope-codec.js:109-141 | the key follows the flag only when encrypted; then executeTime, timestamp, topic, partition, type and payload, and nothing after the payload |
| EnvelopeCodec.TimesWrittenAsIntegers | bigio/codec/envelope-codec.js:135-136 | an unencrypted envelope writes `parseInt` of executeTime and timestamp, so plain numbers are truncated to integers |
| EnvelopeCodec.SenderKeyRoundTrip | bigio/codec/envelope-codec.js:106-107 | the sender key is split into 4 octets and 2 ports, and rejoined as the same `ip:gossipPort:dataPort` |
| EnvelopeCodec.ToBuffer | bigio/codec/envelope-codec.js:87-92 | the payload converts iff it is a buffer or a string, and a buffer converts to itself |
| EnvelopeCodec.DecodeEnvelope | bigio/codec/envelope-codec.js:49-95 | decode unpacks the buffer as given (no prefix skipped) until the end or an error, then walks the values (`Decode`) |
| EnvelopeCodec.WalkFails | bigio/codec/envelope-codec.js:87-92 | decode returns undefined iff the payload field is neither a buffer nor a string |
| EnvelopeCodec.FieldsRoundTrip | bigio/codec/envelope-codec.js:68-141 | walking the packed fields of an unencrypted envelope gives it back: flag false, no key, not yet decoded |
| EnvelopeCodec.RoundTrip | bigio/codec/envelope-codec.js:49-151 | an unencrypted envelope whose packed fields take fewer than 65536 bytes encodes, and decoding the encoding with its prefix stripped keeps senderKey, executeTime, timestamp, topic, partition and type |
| EnvelopeCodec.EncryptedMisread | bigio/codec/envelope-codec.js:77-80 | an encrypted envelope under the frame limit encodes; the boolean flag written for an encrypted envelope never equals `"true"`, so the key is not read and every later field is read one place early |
| EnvelopeCodec.DecodeStopsAtError | bigio/codec/envelope-codec.js:56-64 | a malformed value stops unpacking; decode walks the values read before it and does not throw |
| MemberDatabase.WithTopic | bigio/member/member-database.js:165-167 | the kept registrations are exactly those whose topic equals the one asked for |
| MemberDatabase.RegisterBuckets | bigio/member/member-database.js:182-212 | registering changes only the member's bucket for that topic, which gains the registration unless an identical one is there |
| MemberDatabase.RegisterKeyed | bigio/member/member-database.js:186-192 | registrations stay filed under their own member's key and topic |
| MemberDatabase.PruneRegs | bigio/member/member-database.js:119-123 | after removal, the registrations are the old ones minus those removed, in order |
| MemberDatabase.PruneKeyed | bigio/member/member-database.js:124-130 | removal keeps every registration filed under its own key and topic |
| MemberDatabase.UpdateStatus | bigio/member/member-database.js:282-302 | the member is stored under its key |
| MemberDatabase.UpdateStatusPartitioned | bigio/member/member-database.js:282-302 | every known key stays in exactly one of active or dead; the member's key ends in active iff it is Alive; no other key moves |
| MemberDatabase.UpdateStatusIdempotent | bigio/member/member-database.js:282-302 | recording the same member twice is the same as recording it once |
| MemberDatabase.InterceptInOrder | bigio/member/member-database.js:221-225 | the envelope passes through the topic's interceptors in registration order, each output feeding the next |
| MemberDatabase.FillMapsKeys | bigio/member/member-database.js:227-235 | with a template, the template's i-th key maps to `message[i]`, and no other key is set |
| MemberDatabase.Schedule | bigio/member/member-database.js:237-243 | executeTime > 0 defers, executeTime = 0 emits on `topic(partition)` at once, anything else (negative, not a number) delivers nothing |
| MemberDatabase.ScheduleNumeralText | bigio/member/member-database.js:237-243 | a string executeTime is compared as the number it spells: "1.5", "007" and " 5 " are deferred, "-2e2" is dropped |
| MemberDatabase.RegisterWithin | bigio/member/member-database.js:182-212 | registering loses no registration, and a registration whose partition the bucket lacks is afterwards among all registrations |
| MemberDatabase.RunInterceptors | bigio/member/member-database.js:221-225 | the interceptor loop computes `Intercept` |
| MemberDatabase.Convert | bigio/member/member-database.js:227-235 | the template loop computes `Reshape` |
| MemberDatabase.MatchesInBucket | bigio/member/member-database.js:163-168 | the innermost loop keeps exactly the bucket's registrations for the topic |
| MemberDatabase.MatchesInTopics | bigio/member/member-database.js:162-169 | the middle loop keeps exactly the member's registrations for the topic |
| MemberDatabase.FindRegistration | bigio/member/member-database.js:194-203 | the scan finds a registration iff the bucket already holds one for the partition |
| MemberDatabase.Database.constructor | bigio/member/member-database.js:42-49 | the database starts with no interceptors, listeners, templates, registrations or members |
| MemberDatabase.Database.AddInterceptor | bigio/member/member-database.js:57-62 | the interceptor is appended to the topic's list, which is created on first use; other topics are untouched |
| MemberDatabase.Database.AddLocalListener | bigio/member/member-database.js:89-97 | the listener is bound under `topic(partition)`; a topic's first template is kept, never replaced |
| MemberDatabase.Database.RegisterMemberForTopic | bigio/member/member-database.js:182-212 | the registry becomes `Register`, which adds no duplicate triple; the partition stays |
| MemberDatabase.Database.RemoveRegistrations | bigio/member/member-database.js:119-130 | the given registrations are removed and all others are kept, in order |
| MemberDatabase.Database.GetAllRegistrations | bigio/member/member-database.js:137-149 | the result is every registration, member by member and topic by topic |
| MemberDatabase.Database.GetRegisteredMembers | bigio/member/member-database.js:158-173 | the result is exactly the registrations whose topic equals the one asked for, across all members |
| MemberDatabase.Database.GetActiveMembers | bigio/member/member-database.js:266-272 | the result lists the active members in order, each Alive and not dead |
| MemberDatabase.Database.GetDeadMembers | bigio/member/member-database.js:274-280 | the result lists the dead members in order, each not Alive and not active |
| MemberDatabase.Database.UpdateMemberStatus | bigio/member/member-database.js:282-302 | the member table becomes `UpdateStatus` of the old one, and the partition invariant holds |
| MemberDatabase.Database.Send | bigio/member/member-database.js:220-244 | the outcome of interceptors, template and executeTime rule is recorded: deferred in the pending queue, emitted in the emit log, or dropped; it throws iff the pipeline throws |
| MemberDatabase.Database.GetMember | bigio/member/member-database.js:256-258 | a member is found iff its key is known, and it is the stored member |
| Cluster.Outgoing | bigio/bigio.js:139-153 | the envelope carries the local member's key as senderKey, the topic and the executeTime |
| Cluster.ExecuteTime | bigio/bigio.js:137-146 | no offset gives `'0'`, an undefined offset gives 0, any other offset is used as it is |
| Cluster.PayloadFor | bigio/bigio.js:171-177 | the local member gets the message itself, marked decoded; others get its generic encoding, not decoded |
| Cluster.Addressed | bigio/bigio.js:171-179 | the envelope sent to one member differs from the common one only in payload and decoded flag |
| Cluster.Fanout | bigio/bigio.js:209-212 | broadcast sends the same envelope once to every registered member, in order |
| Cluster.Draw | bigio/bigio.js:184 | a random draw picks a valid index |
| Cluster.Discovered | bigio/bigio.js:296-314 | a member learnt from gossip is Alive, with sequence 0 and no tags |
| Cluster.StringClocksCompareAsNumbers | bigio/bigio.js:318-326 | a clock that arrives as the text of an integer is read as that integer, and is newer than a sequence exactly when that integer is above it; this is a numeric comparison, where the program compares two string clocks as text (see "## Left out") |
| Cluster.TagKeys | bigio/bigio.js:365-368 | the refreshed tags are the sender's tag names, as an array |
| Cluster.IsRegistered | bigio/bigio.js:348-353 | the scan finds a registration iff the member holds one for the topic |
| Cluster.BroadcastTo | bigio/bigio.js:209-212 | the broadcast loop computes `Fanout` |
| Cluster.SubscribeOne | bigio/bigio.js:345-357 | one declared topic string registers the member for its topic and partition unless it already holds that topic |
| Cluster.SubscribeTopics | bigio/bigio.js:344-358 | the topic loop registers the declared topic strings in order (`SubscribeAll`) |
| Cluster.Listeners | bigio/bigio.js:327-330 | `topics` is the snapshot's value for the key, and `[]` when that is absent or `undefined`; it is never `undefined` |
| Cluster.ListenersDeclared | bigio/bigio.js:327-344 | the topic loop visits the elements of `topics`: an array's items, an object's values, a string's characters, and nothing for `null`, a number or a boolean |
| Cluster.VisitEntry | bigio/bigio.js:292-358 | one snapshot entry updates the database as `Visit` says: when the stale-registration scan throws its TypeError, the member's status is recorded and its sequence advanced, and no topic is registered |
| Cluster.WalkEntries | bigio/bigio.js:291-359 | the entry loop updates the database as `Walk` says, stopping at an entry that throws |
| Cluster.WalkFrom | bigio/bigio.js:291-359 | the loop from entry `i` on finishes the walk started at entry 0 |
| Cluster.RefreshTags | bigio/bigio.js:363-369 | the sender's tags become `TagKeys` of the snapshot's tags |
| Cluster.WalkNext | bigio/bigio.js:291 | the walk visits the entries one after another, each in the state the previous left |
| Cluster.WalkThrownStep | bigio/bigio.js:309-310 | a walk that has thrown is not changed by one more entry |
| Cluster.WalkStops | bigio/bigio.js:309-310 | once an entry throws, the rest of the snapshot is not visited |
| Cluster.Node.constructor | bigio/bigio.js:45-48 | no delivery types, no round-robin cursors, nothing sent, not shutting down |
| Cluster.Node.SetDeliveryType | bigio/bigio.js:245-250 | the type is recorded; the round-robin cursor is reset to 0 iff the type is ROUND_ROBIN |
| Cluster.Node.AddListener | bigio/bigio.js:216-223 | the local member is registered for (topic, partition) and the listener bound; the partition defaults to `.*` |
| Cluster.Delivered | bigio/bigio.js:161-213 | every send goes to a registered member; round robin and random make one send (none without registrations), broadcast one per registration in order; only round robin moves the cursor, to (cursor + 1) mod N; earlier sends are kept |
| Cluster.Node.Send | bigio/bigio.js:132-214 | an unset delivery type becomes BROADCAST; the new cursor and outbox are `Delivered` of the old ones for the topic's registered members and the envelope built from the call |
| Cluster.Node.Deliver | bigio/bigio.js:161-213 | the new cursor and outbox are `Delivered` of the old ones |
| Cluster.Node.SendRoundRobin | bigio/bigio.js:161-180 | with no registered member nothing changes; otherwise the cursor moves to (cursor + 1) mod N and that member receives the envelope |
| Cluster.Node.HandleGossipMessage | bigio/bigio.js:281-370 | while shutting down nothing changes; otherwise the database becomes `Gossip` of its old state |
| GossipLaws.DiscoveredKey | bigio/bigio.js:305-308 | a member created from a three-part key has that key |
| GossipLaws.SubscribeJoins | bigio/bigio.js:355-357 | a member not yet registered for the topic afterwards holds the declared partition |
| GossipLaws.SubscribeAllGrows | bigio/bigio.js:344-358 | subscribing never removes or reorders a registration |
| GossipLaws.SubscribeRegisters | bigio/bigio.js:345-357 | after one declared topic string the member is registered for its topic, no registration is lost, and the map stays filed by key with the member's buckets holding only the member |
| GossipLaws.SubscribeAllRegisters | bigio/bigio.js:344-358 | after the topic loop the member is registered for the topic of every declared topic string |
| GossipLaws.VisitStamps | bigio/bigio.js:292-358 | an entry that does not throw stores its member under its key; when the entry's clock is newer (compared as a number), the sequence becomes the clock's number and then either the stale-registration scan throws (the member holds a registration and the snapshot's `topics` for it is not an object) with the registrations unchanged, or the declared topics are subscribed; otherwise member and registrations stay as they were and nothing throws |
| GossipLaws.VisitRegisters | bigio/bigio.js:321-358 | when the entry's clock is newer and the stale-registration scan does not throw, the member ends registered for the topic of every topic string it declares |
| GossipLaws.StoredUpdate | bigio/bigio.js:316 | recording a stored member's status again changes nothing |
| GossipLaws.VisitStale | bigio/bigio.js:318-321 | a known member whose clock is not strictly newer keeps its sequence, registrations and tags, and the tag flag is not set |
| GossipLaws.VisitKeyed | bigio/bigio.js:292-358 | an entry throws iff either its member is unknown and the snapshot has a key (and then nothing changes), or its clock is newer, the member holds a registration and the snapshot's `topics` for it is not an object (the TypeError of `name in topics`); an entry that does not throw at once stores its member; the tag flag is set only for the sender's own entry; after the entry its clock is no longer newer |
| GossipLaws.VisitPartitioned | bigio/bigio.js:296-316 | an entry keeps the active/dead partition, and a member created from it is active |
| GossipLaws.VisitKeeps | bigio/bigio.js:316-326 | an entry never removes a member, changes its address or status, or lowers its sequence |
| GossipLaws.VisitRegs | bigio/bigio.js:344-358 | an entry never removes a registration |
| GossipLaws.WalkPartitioned | bigio/bigio.js:291-359 | the whole walk keeps the active/dead partition |
| GossipLaws.WalkKeeps | bigio/bigio.js:291-359 | the walk keeps every known member, its address and status, and never lowers its sequence |
| GossipLaws.WalkRegs | bigio/bigio.js:291-359 | the walk never removes a registration |
| GossipLaws.WalkSender | bigio/bigio.js:322-324 | the tag flag is set only if the sender's key is among the entries visited |
| GossipLaws.WalkSettles | bigio/bigio.js:318-326 | after a walk that does not throw, no visited entry is newer than its member's sequence |
| GossipLaws.WalkThrows | bigio/bigio.js:309-310 | a walk that throws stops at an entry with the entries before it settled, whose key is unknown on a snapshot with a key, or whose `topics` is not an object |
| GossipLaws.Settle | bigio/bigio.js:318-321 | walking settled entries changes nothing and sets no flag |
| GossipLaws.RetaggedKeeps | bigio/bigio.js:363-369 | the tag refresh changes only the sender's tags |
| GossipLaws.GossipPartitioned | bigio/bigio.js:281-370 | applying a snapshot keeps every known key in exactly one of active or dead |
| GossipLaws.GossipKeeps | bigio/bigio.js:281-370 | a known member stays known, with the same address and status, a sequence never lower, and its tags unchanged unless it is the sender |
| GossipLaws.GossipRegs | bigio/bigio.js:281-370 | applying a snapshot never removes a registration |
| GossipLaws.ThrownAgain | bigio/cluster.js:224-313 | a snapshot that throws, and whose `topics` values are all objects, changes nothing when applied again |
| GossipLaws.SettledAgain | bigio/cluster.js:264-269 | a snapshot that does not throw changes nothing when applied again, since no clock is now strictly newer |
| GossipLaws.ScanThrowRepeated | bigio/bigio.js:326-340 | when the stale-registration scan of the first entry throws, the first pass never adds the unknown member of the second entry, and a second pass, finding the first entry's sequence advanced, adds it: applying the snapshot twice differs from applying it once |
| GossipLaws.GossipIdempotent | bigio/cluster.js:224-313 | for a snapshot whose `topics` values are all objects, applying it twice in a row is the same as applying it once |
| LocalMember.Equals | bigio/member/me-member.js:120-127 | true iff the other member is defined and has the same ip, gossipPort and dataPort |
| LocalMember.EqualsByKey | bigio/member/me.js:110-114 | for colon-free addresses, equality is equality of member keys |
| LocalMember.PayloadBytes | bigio/member/me-member.js:312 | a buffer payload is decoded as it is |
| LocalMember.Prepared | bigio/member/me-member.js:305-315 | after preparation the envelope is decoded; an already decoded one is unchanged; otherwise only message and decoded change, and the message is a positional list |
| LocalMember.PreparedOnce | bigio/member/me.js:308-317 | decoding happens only once: preparing twice is preparing once |
| LocalMember.ReceivesPositionalList | bigio/member/me-member.js:305-315 | a received, generic-encoded message reaches local listeners as the list of its field values |
| LocalMember.AfterExtends | bigio/member/member-database.js:237-243 | a delivery appends at most one entry to the emit log or the pending queue, and none iff it throws or is dropped |
| LocalMember.HandleStops | bigio/member/me-member.js:221-230 | once a frame throws, later frames of the read are not handled |
| LocalMember.HandleAppend | bigio/member/me-member.js:214-231 | handling two runs of frames is handling the first, then the second from where it left off |
| LocalMember.HandleExtends | bigio/member/me-member.js:214-231 | handling frames only ever appends to the emit log and the pending queue |
| LocalMember.SessionIsFeed | bigio/member/me-member.js:195-232 | handling reads one by one is handling the frames the corrected reassembler yields for them |
| LocalMember.ReadBoundaries | bigio/member/me-member.js:195-232 | however the written frames are cut into reads, the member handles exactly those frames, in order |
| LocalMember.Me.constructor | bigio/member/me-member.js:77-91 | a local member starts with an empty reassembler and no shutdown callback run |
| LocalMember.Me.Send | bigio/member/me-member.js:305-318 | the envelope is prepared, then forwarded to the database once: the logs grow by the outcome of its pipeline |
| LocalMember.Me.Shutdown | bigio/member/me-member.js:133-142 | the callback runs once when one is given, and nothing happens otherwise |
| LocalMember.Me.OnFrame | bigio/member/me-member.js:221-230 | a frame is decoded; an envelope that decodes is sent not-yet-decoded, and one that does not is skipped |
| LocalMember.Me.OnData | bigio/member/me.js:191-228 | a read hands every frame it completes to `OnFrame`, in order, and keeps the unconsumed bytes |
| Discovery.MergedLookup | bigio/mcdiscovery.js:90-92 | after the merge, a key in the message reads the message's value and every other key reads the old value |
| Discovery.MergeTags | bigio/mcdiscovery.js:90-92 | the tag loop computes `Merged` |
| Discovery.CopiedTags | bigio/mcdiscovery.js:139-141 | the announcement carries every local tag with its value |
| Discovery.AnnouncementShape | bigio/mcdiscovery.js:131-146 | the announcement's key is the local key, its members are exactly that key, its only clock entry is the sequence, eventListeners is empty, and the public key and tags are the local ones |
| Discovery.Local.constructor | bigio/member/me-member.js:77-91 | the local member starts at sequence 0 with its address, tags and key |
| Discovery.Local.Announce | bigio/mcdiscovery.js:129-152 | the sequence goes up by exactly 1, and the message built carries the new value as its clock |
| Discovery.HearFacts | bigio/mcdiscovery.js:62-95 | the partition holds; an unknown sender is added Alive with its public key when present; a known sender keeps its status and all but its tags; tags are merged key by key; no other member changes |
| Discovery.OnMessage | bigio/mcdiscovery.js:66-94 | the member table becomes `Hear` of the old one |
| Discovery.OnDatagram | bigio/mcdiscovery.js:62-95 | the handler throws iff the datagram does not decode, and then changes nothing; otherwise the table becomes `Hear` of the decoded announcement |

## Left out

- Sockets, servers and timers:
  - `net`/`dgram` setup, bind, listen, connect and close are not modelled.
  - `initialize`/`connect`/`shutdown` of the front end are not modelled.
  - `setupNetworking` in `mcdiscovery.js` is not modelled.
  - A scheduled delivery is recorded in a pending queue and never fired. As written, the timer callback would call `this.reactor` on the wrong `this`.
  - The EventEmitter is a table of listener lists plus a log of emitted events.
- `you.js`, `remote-member.js` and `MeMember.java` are not part of this model. A remote member's `send` is a record in `Cluster.Node`'s outbox.
- Environment-dependent code is not modelled: `getIp`, `getFreePort`, `nextPort`, `currentOS` and `getMillisecondsSinceMidnight`. The time of day is a parameter (`now`).
- The MessagePack byte format and the buffer libraries are not modelled. Decoders assume only `MsgPack.Consumes` of them. The byte-level round trips also assume `MsgPack.RoundTrips`, and hold only for `MsgPack.Packable` values: no `undefined`, no fractional numbers, integers within ±(2^53 − 1), and objects with distinct keys, at every depth.
- Js.AssignKeys: appends a new key at the end. JavaScript's `for-in` lists integer-like keys ("0", "42") first, in ascending order, so `Discovery.Merged`, `Cluster.TagKeys` and `MemberDatabase.Database.GetAllRegistrations` differ from the program when such keys occur.
- Js.Value: numbers are an unbounded `Int` and an exact real `Float`, not IEEE doubles. Sequences, clocks and timestamps never lose precision in the model; beyond 2^53 the program would round them.
- Js.ToNumber: strings are read as decimal numerals with optional sign, fraction and exponent, inside white space. Radix prefixes (`0x`, `0o`, `0b`), `Infinity` and rounding to a double are not modelled; such strings are NaN in the model. Arrays also convert to NaN, where JavaScript gives 0 for `[]` and `Number(x)` for `[x]`.
- MemberDatabase.Schedule: follows `Js.ToNumber`, so it drops an executeTime of "Infinity" or "0x10" that the program defers.
- Js.Show: fractional numbers, buffers and arrays become the fixed texts "[number]", "[buffer]" and "[array]", not JavaScript's digits, buffer text and comma-joined items. Keys and topic strings built from such values differ from the program's.
- Discovery.Local.Announce: bumps a sequence kept in `Discovery.Local`. In the program `me` is the same object the member database holds under the local key, so the bump is also seen by gossip, which may restamp it; the model does not capture this aliasing.
- EnvelopeCodec.ToBuffer: converts only buffers and strings, and gives `undefined` otherwise. This is the model's choice: `bops.from` is not part of this model, and Node's Buffer constructor also accepts arrays of bytes.
- `GossipLaws.SubscribeAllRegisters` and `GossipLaws.VisitRegisters` require that every registration filed under the member's key is the member's own (`GossipLaws.OwnBuckets`). Keys are not injective for parts containing `:`, and a registration of another address under the same key would make `registerMemberForTopic` skip the partition.
- Encryption and SSL are stubs in the program and are left out. An encrypted envelope keeps its `key` field on the wire.
- `toString` printers and logging are left out.
- `removeAllLocalListeners` is not modelled. It reads a module `me` that is never set, and calls `.size()`/`.clear()` on plain arrays.
- `getAllMembers` is not modelled. It returns an empty array, because the result of `concat` is discarded.
- Cluster.Visit: stores the clock's number (`Js.ToNumber`) as the member's sequence, and `Cluster.Newer` compares numbers, so two string clocks compare numerically where the program compares them as text: after "5", a clock "10" is newer in the model but not in the program (`"10" > "5"` is false). `Cluster.StringClocksCompareAsNumbers` states the numeric reading. A clock that reads as NaN is never newer, in the model as in the program. The clocks the program writes itself are integers (`Discovery.Local.Announce`), on which both comparisons agree.
- Cluster.Visit: models the stale-registration pass only for its TypeError: when the member holds a registration and the snapshot's `topics` for it is not an object, `name in topics` throws (`Cluster.StaleScanThrows`). Otherwise the pass changes nothing: its `name in topics` test looks at array indices, and `removeRegistrations`, as written, deletes nothing. So the model does not claim that stale registrations are removed.
- GossipLaws.GossipIdempotent: stated, like `GossipLaws.ThrownAgain`, for snapshots whose `topics` values are all objects (`GossipLaws.ListenersAreObjects`). A stale-registration scan that throws has already advanced its member's sequence, so a second pass gets past that entry and can change more (`GossipLaws.ScanThrowRepeated`).
- `MemberDatabase.Database.RemoveRegistrations` follows its doc comment and removes the given registrations. As written, it deletes a property named after the array itself, which changes nothing.
- Round-robin delivery:
  - `Cluster.Node.Send` and `Cluster.Node.SendRoundRobin` model the intended `(cursor + 1) mod N`. As written, the program calls `.get`/`.size()` on a plain object and array.
- Broadcast delivery: `Cluster.Node.Send` keeps the broadcast as written. `me.equals(member)` is evaluated before `member` is assigned, so every receiver, local or not, gets the generic encoding.
- RANDOM delivery: the random number is a parameter `pick` in [0, 1). `Cluster.Draw` models the intended index, the floor of `pick * N`. As written, the program calls `.isEmpty()`/`.size()`/`.get` on a plain array and indexes with an unfloored float.
- Tag sharing:
  - `Cluster.RefreshTags` keeps the tag refresh as written: the sender's tags become an array of tag names.
  - Tags shared through the prototype are given to each member separately.
- Unknown gossip members and aliasing:
  - An unknown member on a snapshot that carries a public key throws (`setPublicKey`/`getPublicKey` are not defined). The model records the throw and stops the walk.
  - `MemberDatabase.UpdateStatus` stores the record it is given under the member's key. The program leaves a known key's stored object in place and relies on callers passing that same object.
- `GossipCodec.RoundTrip` is stated for snapshots with canonical dotted-decimal ips, integer ports and timestamp, and a key that is not `null`, which is what the program's own encode/decode promises.
- `EnvelopeCodec.RoundTrip` is stated for unencrypted envelopes only. The encrypted flag is compared with the string `"true"`, so no round trip holds for encrypted ones (`EnvelopeCodec.EncryptedMisread`).
- `Cluster.WalkEntries` models the snapshot's `for` loop as the tail-recursive method `Cluster.WalkFrom`, one entry per call.
- `LocalMember.Me.Gossip` does nothing, as in the program, and states nothing.
- `LocalMember.Me.OnData` uses the corrected reassembler, whose pending bytes belong to one connection. The handler as written is `Framing.FrameReassembler.OnData`, with one `chunk` shared by all connections; see Findings.
- The `udp`/`tcp` protocol switch only picks a socket type, so it is left out.

## Findings

| source | as written | input that shows it | evidently intended | confidence | as-written member | corrected member |
|---|---|---|---|---|---|---|
| bigio/member/me-member.js:200-212 | after delivering `chunk` plus the first `waitingOn` bytes, `waitingOn` is not reset; a read no longer than `waitingOn` leaves it set, and the same stale chunk is combined again on the next read | frames [1,2] and [3], written as 0,2,1,2,0,1,3 and read as [0,2,1], [2], [0,1,3]: the handler delivers [1,2], then [1,0], and loses [3] | every written frame is delivered once, in order, however the stream is cut into reads | not executed | Framing.StaleContinuationExample | Framing.DeliversEveryFrame |
| bigio/member/me-member.js:195-232 | `chunk` is assigned without a declaration, so it is one global cell shared by every connection's handler (and by `me.js`); a partial frame held for one connection is overwritten by another connection's | connection a reads [0,2,1] and connection b reads [0,2,9]; when a then reads [2] it delivers [9,2], b's bytes, and a's frame [1,2] is lost | each connection keeps its own pending bytes, so every frame written to it is delivered once, in order | not executed | Framing.SharedChunkExample | Framing.DeliversEveryFrame |
