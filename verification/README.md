# NDN extensions, verified

A Dafny model of five clusters of logic in the NDN forwarder's extension crates,
with the properties they promise proved for every input, every run and every
interleaving of their threads.

* **Links** (`Tlv`, `Messages`, `Meaning`, `ControlStream`, `ControlSession`, `PresenceBound`,
  `PresenceAlive`, `Scope`, `Gate`).
  The TLV link messages of a QUIC face, read a byte at a time; the coalescing outbox
  and the peer it converges on; scoped links with their token buckets, one of them
  shared, and their memory of fragment verdicts; the handshake gate and its two-step
  permits.
* **Serial framing** (`Cobs`). The in-place encoder, the decoder and the frame codec
  over a stream cut anywhere.
* **Security chains** (`FileStore`, `Chain`, `Signing`, `SecurityChains`). The append-only chain
  of signed Data packets, its file store with crashes at any step, tamper evidence,
  and the two entry types.
* **Span trees** (`SpanTree`). Flattening a trace with untrusted parent pointers.
* **Ownership and jobs** (`Umem`, `Thunk`, `Jobs`, `ServiceText`). UMEM frames between
  an io thread and the kernel; background jobs that start once; and the service
  listing that one crate prints and another parses.

Objects whose methods update fields are classes, and each method is proved against a
step function of the state; state-machine theorems are lemmas over arbitrary runs of
those step functions. `Common` holds the shared types and `Order` the sorting of the
standard library. `dafny verify dfyconfig.toml` checks everything.

Where code and documentation disagree, or where a promise holds only on a condition:

* `cobs.rs` says the overhead is at most one byte per 254 input bytes; it is that plus
  one (`Cobs.EncodedLength`).
* Cutting a COBS stream is harmless exactly for a limit of at least 1
  (`Cobs.CuttingIsHarmlessIff`).
* The codec answers "need more" for a block that is no frame, so a framed reader leaves
  what is behind it to the next read (`Cobs.JunkHoldsFramesBack`); exactly when is
  `Cobs.FeedLeavesNoBlockIff`.
* The 256 namespaces of presence count those ever put (`PresenceBound.AlwaysUpIff`). Of
  those alive at a time a link bears exactly 128 (`PresenceAlive.BearsAliveIff`).
* "Transmit anything still queued" never holds of a payload larger than a frame. Of the
  others it holds on cancel exactly when there is a free frame for each
  (`Umem.IoState.Flush`); what the flush discards is told by `Umem.DrainLosesNothingIff`.
* `verify` of a chain does not look at the chain's root (`Chain.OtherRootGoesUnnoticed`);
  what tells a chain of the root is `Chain.OfRootIff`.
* "Each call runs as its own job" is said of opaque calls and holds between any jobs for
  different nonces (`Jobs.OpaqueCallRunsItself`). Calls without a nonce, or with the same
  one, can share a run across jobs: of different prefixes exactly as in
  `Jobs.SharedRunsIff`, which needs one nested in the other's thunk namespace and
  argument types that fit; of one prefix always (`Jobs.OnePrefixSharesAll`). A call whose
  first argument is `thunk` never reaches its job (`Jobs.CallsReachTheirJob`).
* The threshold of refusals starts a cooldown exactly when no sweep of the gate's map
  comes in between that takes the source (`Gate.ThresholdCoolsIff`, `Gate.SweepForgets`).
* A hello or verdict over the message limit is written but never read
  (`ControlStream.HelloArrives`).
* A service record is read back only if its node does not contain `"  node="`
  (`ServiceText.ListingRoundTrip`).

## Model

| member | source | states |
|---|---|---|
| `Cobs.CobsEncode` | crates/faces/ndn-face-serial/src/cobs.rs:37-63 | The in-place encoder appends exactly the encoding of its input; every reserved code byte is patched and fits a byte. |
| `Cobs.CobsDecode` | crates/faces/ndn-face-serial/src/cobs.rs:66-92 | Succeeds exactly on well-formed input and then appends what it stands for; on error the output only grew. |
| `Cobs.RoundTrip` | crates/faces/ndn-face-serial/src/cobs.rs:37-92 | For every byte string decoding undoes encoding, and no encoding contains a zero byte or is empty. |
| `Cobs.EncodingIsInjective` | crates/faces/ndn-face-serial/src/cobs.rs:37-63 | Two payloads never share an encoding. |
| `Cobs.EncodedLength` | crates/faces/ndn-face-serial/src/cobs.rs:37-63 | The length is len + 1 + number of 0xFF blocks, at most len + len/254 + 1, with equality for zero-free input. |
| `Cobs.CobsCodec.Decode` | crates/faces/ndn-face-serial/src/cobs.rs:98-130 | One call answers and consumes up to the first delimiter; without one it answers nothing and clears only an overlong buffer. |
| `Cobs.CobsCodec.Encode` | crates/faces/ndn-face-serial/src/cobs.rs:135-139 | Appends the encoding and one delimiter. |
| `Cobs.CobsCodec.Drain` | crates/faces/ndn-face-serial/src/cobs.rs:98-130 | Calling `decode` until it answers no frame gives the frames and remainder the specification names. |
| `Cobs.StepResynchronizes` | crates/faces/ndn-face-serial/src/cobs.rs:98-130 | A call consumes exactly through the first delimiter, whatever junk precedes it. |
| `Cobs.StepOnWhole` | crates/faces/ndn-face-serial/src/cobs.rs:98-130 | From the bytes before the first delimiter: a frame if they decode within the limit, the error if beyond it, no frame and no error if they are empty or malformed; all of it consumed. |
| `Cobs.StepOnPart` | crates/faces/ndn-face-serial/src/cobs.rs:98-107 | Without a delimiter there is no answer, and only a buffer over twice the limit is cleared. |
| `Cobs.StepOnFrame` | crates/faces/ndn-face-serial/src/cobs.rs:98-130 | A whole frame at the head is answered if it is within the limit, and is an error if it is not. |
| `Cobs.ChunkedRoundTrip` | crates/faces/ndn-face-serial/src/cobs.rs:98-139 | For a limit of at least 1, any fitting payloads in any cutting into chunks come out in order, each once, with nothing left over; the overflow clear never fires. |
| `Cobs.FramesBehindJunk` | crates/faces/ndn-face-serial/src/cobs.rs:98-130 | Junk ended by a delimiter costs one call; all frames behind it are then answered. |
| `Cobs.DrainLeavesNoBlockIff` | crates/faces/ndn-face-serial/src/cobs.rs:98-130 | A reader that calls `decode` until it answers no frame keeps no whole block exactly when every block but the last is a frame within the limit. |
| `Cobs.FeedLeavesNoBlockIff` | crates/faces/ndn-face-serial/src/cobs.rs:98-130 | The same over any chunks: after the latest one a whole block waits for the next read exactly when, of the blocks then buffered, one before the last is no frame. |
| `Cobs.JunkHoldsFramesBack` | crates/faces/ndn-face-serial/src/cobs.rs:120-130 | Any frames arriving in one read behind a block that is no frame are all held back until the next read, which may be empty, and then all come out. |
| `Cobs.StrayDelimiterHoldsBack` | crates/faces/ndn-face-serial/src/cobs.rs:115-117 | One stray delimiter in front of the frames is enough for that. |
| `Cobs.CuttingIsHarmlessIff` | crates/faces/ndn-face-serial/src/cobs.rs:98-130 | Cutting is harmless for all payloads and chunks exactly when the limit is at least 1. |
| `Cobs.LimitZeroLosesAFrame` | crates/faces/ndn-face-serial/src/cobs.rs:103-106 | With limit 0 a cut before the delimiter of an empty payload loses that frame. |
| `SpanTree.SpanTreeRows` | crates/dashboard/ndn-viz/src/observe.rs:347-398 | For every trace, with cycles, self-parents and duplicate ids: each span is listed once; each row at depth d > 0 has as nearest earlier row at depth d - 1 one carrying its parent's id; roots and siblings are in id order; the rest in trace order. |
| `SpanTree.Walk.PushSpanTreeRow` | crates/dashboard/ndn-viz/src/observe.rs:442-473 | One recursive call terminates on the unvisited spans and lists its span and what hangs off it, directly below the parent row. |
| `SpanTree.IndexSpans` | crates/dashboard/ndn-viz/src/observe.rs:348-353 | The index holds exactly the ids of the trace. |
| `SpanTree.GroupSpans` | crates/dashboard/ndn-viz/src/observe.rs:354-364 | Every span is a root or in the child list of its parent's id, once, never both. |
| `SpanTree.DepthIsPathLength` | crates/dashboard/ndn-viz/src/observe.rs:347-398 | With unique ids, a span reached from a root stands at the depth of its path from that root. |
| `SpanTree.DepthCountsAncestors` | crates/dashboard/ndn-viz/src/observe.rs:347-398 | With unique ids, a span with no parent cycle at or above it stands at the depth that is the number of its ancestors. |
| `SpanTree.AcyclicReached` | crates/dashboard/ndn-viz/src/observe.rs:384-396 | A span with no parent cycle at or above it is reached from a root, so the leftover loop does not start at it. |
| `SpanTree.ReachedIff` | crates/dashboard/ndn-viz/src/observe.rs:384-396 | With unique ids exactly the spans with no parent cycle at or above them are reached from a root. |
| `SpanTree.TopLevelRows` | crates/dashboard/ndn-viz/src/observe.rs:373-397 | Roots (orphans included) are at depth 0, and only they of the reached spans and of those with no parent cycle at or above them. |
| `Tlv.VarRoundTrip` | crates/faces/ndn-face-quic/src/message.rs:442-451 | A VAR-NUMBER below 2^64 is read back with its width (section "TLV Encoding" of the NDN Packet Format Specification). |
| `Tlv.VarReadIff` | crates/faces/ndn-face-quic/src/message.rs:442-451 | A number is read from one byte below 253, or from 253, 254 or 255 and 2, 4 or 8 bytes, each only for the numbers that need them. |
| `Tlv.VarCanonical` | crates/faces/ndn-face-quic/src/message.rs:442-451 | Only the shortest form of a number is read. |
| `Tlv.SplitRoundTrip` | crates/faces/ndn-face-quic/src/message.rs:442-451 | `split_tlv` finds the type and exactly the value of a TLV at the head of a buffer. |
| `Tlv.SplitCanonical` | crates/faces/ndn-face-quic/src/message.rs:442-451 | What it splits off is the one encoding of that type and value; the split makes progress. |
| `Tlv.HeaderIsPrefixFree` | crates/faces/ndn-face-quic/src/link.rs:601-605 | A header is complete exactly from its last byte on. |
| `Tlv.RunFields` | crates/faces/ndn-face-quic/src/message.rs:110-158 | The decode loop terminates on arbitrary bytes and computes the fold over the fields. |
| `Tlv.FoldIgnores` | crates/faces/ndn-face-quic/src/message.rs:436-440 | A field the decoder passes over may stand anywhere between other fields. |
| `Tlv.FoldRefuses` | crates/faces/ndn-face-quic/src/message.rs:436-440 | A field the decoder refuses fails the message wherever it stands. |
| `Messages.MembershipRoundTrip` | crates/faces/ndn-face-quic/src/membership.rs:142-185 | A membership is read back from its encoding exactly when it is well-formed. |
| `Messages.DecodedMembershipIsWellFormed` | crates/faces/ndn-face-quic/src/membership.rs:160-185 | What decodes has a certificate, only whole Data TLVs for certificates, and a binding. |
| `Messages.MembershipReadsBack` | crates/faces/ndn-face-quic/src/membership.rs:142-156 | A membership written on its own is one TLV at the head of what follows, read back exactly when well-formed. |
| `Messages.HelloRoundTrip` | crates/faces/ndn-face-quic/src/message.rs:92-158 | A hello is read back from its encoding exactly when it is well-formed (certificates single Data TLVs, memberships well-formed, session of eight bytes). |
| `Messages.DecodedHelloIsWellFormed` | crates/faces/ndn-face-quic/src/message.rs:110-158 | Every hello accepted from the peer is well-formed. |
| `Messages.HelloUnknownField` | crates/faces/ndn-face-quic/src/message.rs:110-158 | An unknown even type above 31 between top-level fields changes nothing; any other unknown type refuses the hello. |
| `Messages.MembershipUnknownField` | crates/faces/ndn-face-quic/src/membership.rs:160-190 | The same of a membership. |
| `Messages.DecodeHello` | crates/faces/ndn-face-quic/src/message.rs:110-158 | The loop computes the hello the specification names, on any bytes. |
| `Messages.VerdictRoundTrip` | crates/faces/ndn-face-quic/src/message.rs:173-223 | A verdict is read back exactly when it lists no namespaces at all or a nonempty list of well-formed ones. |
| `Messages.DecodedVerdictIsWellFormed` | crates/faces/ndn-face-quic/src/message.rs:188-223 | Every verdict accepted from the peer is like that. |
| `Messages.VerdictUnknownField` | crates/faces/ndn-face-quic/src/message.rs:188-223 | An unknown even type above 31 changes nothing; any other unknown type refuses the verdict. |
| `Messages.DecodeVerdict` | crates/faces/ndn-face-quic/src/message.rs:188-223 | The loop computes the verdict the specification names, on any bytes. |
| `Messages.ReachabilityRoundTrip` | crates/faces/ndn-face-quic/src/message.rs:254-302 | A reachability message is read back exactly when its wake token is within its limit. |
| `Messages.ReachabilityUnknownField` | crates/faces/ndn-face-quic/src/message.rs:268-302 | An unknown even type above 31 changes nothing; any other unknown type refuses the message. |
| `Messages.DecodeReachability` | crates/faces/ndn-face-quic/src/message.rs:268-302 | The loop computes the message the specification names, on any bytes; what it accepts is well-formed. |
| `Messages.PresenceRoundTrip` | crates/faces/ndn-face-quic/src/message.rs:325-396 | A presence message is read back exactly when its names and key digests are well-formed. |
| `Messages.PresenceUnknownField` | crates/faces/ndn-face-quic/src/message.rs:340-365 | An unknown even type above 31 changes nothing; any other unknown type refuses the message. |
| `Messages.DeviceUnknownField` | crates/faces/ndn-face-quic/src/message.rs:368-395 | The same of a device. |
| `Messages.DecodePresence` | crates/faces/ndn-face-quic/src/message.rs:340-396 | The loop computes the message the specification names, on any bytes; what it accepts is well-formed. |
| `Messages.AddressRoundTrip` | crates/faces/ndn-face-quic/src/message.rs:405-431 | An address is read back as it was, or, if it is ten zero bytes and two of 255 before an IPv4 address, as that one. |
| `Meaning.AcceptedMessages` | crates/faces/ndn-face-quic/src/message.rs:110-365 | Whatever a decoder accepts is a list of whole fields with nothing left over, so the characterisations below tell all that is accepted. |
| `Meaning.HelloMeans` | crates/faces/ndn-face-quic/src/message.rs:110-158 | Which lists of fields are a hello, and which: the last version is 1, each known field is good, no unknown one is critical; certificates and memberships in order, the last direct path. No version and another version are the two errors the source names. |
| `Meaning.MembershipMeans` | crates/faces/ndn-face-quic/src/membership.rs:160-190 | Which lists of fields are a membership, and which: at least one certificate, a last binding, none of them empty. |
| `Meaning.VerdictMeans` | crates/faces/ndn-face-quic/src/message.rs:188-223 | Which lists of fields are a verdict, and which: the last enrollment list counts, and each has a name. |
| `Meaning.NameListMeans` | crates/faces/ndn-face-quic/src/message.rs:188-223 | An enrollment list is names and nothing else, in order. |
| `Meaning.ReachabilityMeans` | crates/faces/ndn-face-quic/src/message.rs:268-302 | Which lists of fields are a reachability message, and which: Interests are held if a field says so, the last token counts, of 1 to 1024 bytes. |
| `Meaning.PresenceMeans` | crates/faces/ndn-face-quic/src/message.rs:340-365 | Which lists of fields are a presence message, and which: the last name, all devices in order. |
| `Meaning.DeviceMeans` | crates/faces/ndn-face-quic/src/message.rs:368-395 | Which lists of fields are a device, and which: the last name and the last digest, of 32 bytes, both there. |
| `Meaning.NameReadIff` | crates/faces/ndn-face-quic/src/message.rs:398-402 | A name is read from exactly the bytes it is written as, and its component types are from 1 to 65535. |
| `Meaning.HelloBytes` | crates/faces/ndn-face-quic/src/message.rs:92-106 | The bytes of a hello with a direct path. |
| `Meaning.VerdictBytes` | crates/faces/ndn-face-quic/src/message.rs:173-186 | The bytes of a verdict with one name. |
| `Meaning.ReachabilityBytes` | crates/faces/ndn-face-quic/src/message.rs:254-266 | The bytes of a reachability message. |
| `Meaning.PresenceBytes` | crates/faces/ndn-face-quic/src/message.rs:325-338 | The bytes of a presence message with one device. |
| `Meaning.AddressBytes` | crates/faces/ndn-face-quic/src/message.rs:228-233 | The bytes of an observed address, one for an IPv4 address and its mapped form. |
| `Meaning.MembershipBytes` | crates/faces/ndn-face-quic/src/membership.rs:142-158 | The bytes of a membership. |
| `ControlStream.ReadTlv` | crates/faces/ndn-face-quic/src/link.rs:383-429 | Reading a byte at a time answers, and leaves unread, what the one-step specification names: end of stream, a message, too long, unreadable. |
| `ControlStream.ReadAgreesWithSplit` | crates/faces/ndn-face-quic/src/link.rs:383-429 | It answers a message exactly when `split_tlv` on the whole stream finds it within the size limit, with the same type and value, consuming exactly those bytes. |
| `ControlStream.ReadWritten` | crates/faces/ndn-face-quic/src/link.rs:383-429 | A written message within the limit is read whole and the next one starts where it ends; the header guard does not fire. |
| `ControlStream.ReadOverlong` | crates/faces/ndn-face-quic/src/link.rs:404-416 | A message over the limit is refused at its header, with its value left unread. |
| `ControlStream.HelloArrives` | crates/faces/ndn-face-quic/src/link.rs:189-224 | From encoder through the byte-wise reader to decoder, a hello arrives exactly when it is well-formed and its value within the message limit, which the encoder does not check. |
| `ControlStream.VerdictArrives` | crates/faces/ndn-face-quic/src/link.rs:362-379 | Likewise a verdict. |
| `ControlStream.ReadAllWritten` | crates/faces/ndn-face-quic/src/link.rs:383-429 | Any list of messages within the limit comes off the stream as it was written, in order. |
| `ControlSession.Outbox.PutReachability` | crates/faces/ndn-face-quic/src/link.rs:455-461 | The last reachability put is the one queued. |
| `ControlSession.Outbox.PutPresence` | crates/faces/ndn-face-quic/src/link.rs:463-471 | Replaces the wire of its namespace in place, or queues it last. |
| `ControlSession.Outbox.Take` | crates/faces/ndn-face-quic/src/link.rs:473-480 | Gives reachability first, then the presence wires in first-queued order, and empties the outbox. |
| `ControlSession.Heard.Take` | crates/faces/ndn-face-quic/src/link.rs:493-541 | One message updates what is held of the peer; a fault leaves all of it unchanged. |
| `ControlSession.UnknownMessageMeans` | crates/faces/ndn-face-quic/src/link.rs:532-538 | A message of an unknown type changes nothing if the type is even and above 31, and is an error if not. |
| `ControlSession.FaultClosesForGood` | crates/faces/ndn-face-quic/src/link.rs:493-541 | What the peer cannot read or must not take closes the link at once and for good; what it heard before stays. |
| `ControlSession.PresenceIsQueuedIff` | crates/faces/ndn-face-quic/src/link.rs:723-738 | Presence is queued unless its message is over 65536 bytes; then nothing changes. |
| `ControlSession.LinkRefinesTalk` | crates/faces/ndn-face-quic/src/link.rs:549-598 | For any interleaving of puts, flushes and hearing, the byte-level link goes exactly the way of the link over whole messages. |
| `ControlSession.StaysOnCourse` | crates/faces/ndn-face-quic/src/link.rs:437-541 | Over at most 256 distinct namespaces, what the peer will hold once everything is heard is always this side's last word; the outbox holds one message a namespace. |
| `ControlSession.Converges` | crates/faces/ndn-face-quic/src/link.rs:437-598 | Whenever the outbox and the stream are empty, the peer holds the last put per namespace (empty lists removed), the last reachability and the last address; its list never has duplicates or empty entries, and the link stays up. |
| `ControlSession.OutboxIsDistinct` | crates/faces/ndn-face-quic/src/link.rs:463-541 | Over any run the outbox never holds two wires for one namespace, and the peer's list never two entries for one or an empty one. |
| `PresenceBound.AlwaysUpIff` | crates/faces/ndn-face-quic/src/link.rs:437-531 | No run over at most n distinct namespaces makes the peer close the link, exactly for n up to 256. |
| `PresenceAlive.AliveIsLastWord` | crates/faces/ndn-face-quic/src/link.rs:723-740 | The namespaces counted as alive are those whose last list put has a device in it. |
| `PresenceAlive.TooManyAlive` | crates/faces/ndn-face-quic/src/link.rs:463-531 | For any number over 128 (up to 256) there is a run, never with more namespaces alive, that makes the peer close the link. |
| `PresenceAlive.BearsAliveIff` | crates/faces/ndn-face-quic/src/link.rs:437-531 | No run with at most n namespaces alive at any time makes the peer close the link, exactly for n up to 128: half of the 256, because replacing in the first-queued position can put all new lists before all removals. |
| `PresenceAlive.NeverMoreAtAnyTime` | crates/faces/ndn-face-quic/src/link.rs:723-740 | What "at any time" means there: after any number of the run's events no more than n namespaces are alive. |
| `Scope.HeadIff` | crates/faces/ndn-face-quic/src/scope.rs:380-401 | The head of a packet is exactly an Interest's (type 5) or a Data packet's (type 6): a type, a length, and a whole name. |
| `Scope.BareFrameMeans` | crates/faces/ndn-face-quic/src/scope.rs:338-350 | A frame that is no NDNLPv2 packet is judged by its own head, may go into a Nack whole, and is unreadable without a head. |
| `Scope.LpFrameMeans` | crates/faces/ndn-face-quic/src/scope.rs:351-377 | An NDNLPv2 frame is an acknowledgement without a fragment, shows the head of a whole or first fragment (a Nack if it carries the Nack field), is told by its base if a later one, and is unreadable otherwise. |
| `Scope.FirstFragmentShowsTheName` | crates/faces/ndn-face-quic/src/scope.rs:337-401 | The kind and name a scope judges a fragmented packet by are those of the reassembled packet, whatever the later fragments add. |
| `Scope.Bucket.Take` | crates/faces/ndn-face-quic/src/scope.rs:145-157 | One take refills for the time since the last one, capped at the burst, and grants exactly when burst and tokens with the refill make a whole one. |
| `Scope.GrantBound` | crates/faces/ndn-face-quic/src/scope.rs:131-158 | Over any interval at most burst + per_sec * length takes are granted, from any reachable bucket. |
| `Scope.TakeGrantedIff` | crates/faces/ndn-face-quic/src/scope.rs:131-158 | After any takes, granted or not, one is granted exactly when it and those granted before it are within the tokens at hand, the burst and the refill over every stretch. |
| `Scope.FullBucketGrantsIff` | crates/faces/ndn-face-quic/src/scope.rs:131-158 | From a full bucket all takes are granted exactly when any stretch of n of them has n at most burst + per_sec * its length. |
| `Scope.ScopeState.Received` | crates/faces/ndn-face-quic/src/scope.rs:197-215 | A received frame asks the own bucket, then the shared one, then is judged; acknowledgements ask neither. |
| `Scope.ScopeState.Sending` | crates/faces/ndn-face-quic/src/scope.rs:217-220 | A frame to send is judged without a token. |
| `Scope.ScopeState.Judge` | crates/faces/ndn-face-quic/src/scope.rs:229-288 | The verdict, the Interest to Nack, the remembered bases and the counters after one frame; the buckets stay as they were. |
| `Scope.FragmentsShareTheirBase` | crates/faces/ndn-face-quic/src/scope.rs:338-375 | All fragments of one packet are told by the sequence of its first, the first one exactly when it shows a head. |
| `Scope.HeadCrossesIff` | crates/faces/ndn-face-quic/src/scope.rs:197-288 | A whole packet or first fragment passes if and only if the buckets grant it and its kind and name are in scope (Interests only, anything but Interests, or everything); a Nack is due exactly for a whole Interest the scope itself refused. |
| `Scope.ReceivedHeadCrossesIff` | crates/faces/ndn-face-quic/src/scope.rs:197-288 | After any run, a head received crosses if and only if it is in scope and what was granted before leaves room for it in the limit of the link and in that of its pool, if it has one. |
| `Scope.SpacedHeadsAllCrossIff` | crates/faces/ndn-face-quic/src/scope.rs:131-215 | On a link of its own limit with a full bucket, all heads in scope that are received cross exactly when they are spaced as the limit says. |
| `Scope.UnreadableIsDropped` | crates/faces/ndn-face-quic/src/scope.rs:229-245 | A frame that cannot be read never crosses, either way, and asks for no Nack. |
| `Scope.LinkKeepsAccount` | crates/faces/ndn-face-quic/src/scope.rs:260-300 | Over any run a link counts each frame it drops, and keeps the time of the last packet, no acknowledgement, that it passed. |
| `Scope.LinkRateBound` | crates/faces/ndn-face-quic/src/scope.rs:131-215 | In every run with a non-decreasing clock, and over every interval of it, one link passes at most burst + per_sec * length network frames. |
| `Scope.SharedRateBound` | crates/faces/ndn-face-quic/src/scope.rs:64-83 | The same bound holds for all links sharing a rate together. |
| `Scope.RunMatches` | crates/faces/ndn-face-quic/src/scope.rs:131-158 | Tokens stay between 0 and the burst in every reachable state. |
| `Scope.LinkOnlyIsFree` | crates/faces/ndn-face-quic/src/scope.rs:197-215 | An acknowledgement passes and changes no state. |
| `Scope.RemembersLast32` | crates/faces/ndn-face-quic/src/scope.rs:113-129 | A link remembers exactly the last 32 first fragments it passed, per direction. |
| `Scope.LaterFragmentFollowsFirst` | crates/faces/ndn-face-quic/src/scope.rs:197-251 | Over any run a later fragment passes if and only if the buckets grant it and its base is among those 32. |
| `Scope.OnlyInScopePacketsReassemble` | crates/faces/ndn-face-quic/src/scope.rs:229-288 | A later fragment passes only behind a first fragment whose kind and name were in scope. |
| `Scope.DroppedFirstDropsRest` | crates/faces/ndn-face-quic/src/scope.rs:197-288 | A first fragment dropped, by name or by rate, drops all its later fragments while its base is not reused. |
| `Gate.Gate.Admit` | crates/faces/ndn-face-quic/src/endpoint.rs:251-271 | Sweep, entry, cooldown, per-source cap and total cap, in that order, with the entry left as the source leaves it on each refusal. |
| `Gate.Gate.Admitted` | crates/faces/ndn-face-quic/src/endpoint.rs:270-275 | The two increments of a successful admit. |
| `Gate.Gate.Refused` | crates/faces/ndn-face-quic/src/endpoint.rs:226-249 | One refusal counted, in a fresh window or the current one, and the cooldown at the threshold. |
| `Gate.Gate.StartDrop` | crates/faces/ndn-face-quic/src/endpoint.rs:200 | The atomic decrement, outside the lock. |
| `Gate.Gate.EndDrop` | crates/faces/ndn-face-quic/src/endpoint.rs:201-211 | The source's decrement under the lock, and the removal of an entry that says nothing more. |
| `Gate.EveryRunKeepsGate` | crates/faces/ndn-face-quic/src/endpoint.rs:191-281 | In every interleaving the atomic count is the number of permits whose drop has not begun, each source's count that of its permits whose drop has not finished, both within their caps; stored refusals stay below the threshold. |
| `Gate.DropsNeverUnderflow` | crates/faces/ndn-face-quic/src/endpoint.rs:198-213 | The wrapping and the saturating subtraction never meet zero. |
| `Gate.PermitKeepsSource` | crates/faces/ndn-face-quic/src/endpoint.rs:206-256 | No source with a permit out is ever evicted. |
| `Gate.DropForgetsNothing` | crates/faces/ndn-face-quic/src/endpoint.rs:206-211 | A finished drop takes one off its source's count and forgets nothing else, even when the entry is removed. |
| `Gate.AdmitsExactlyWhenRoom` | crates/faces/ndn-face-quic/src/endpoint.rs:251-271 | An attempt is let in exactly when its source is not cooling and the permits out leave room, whatever was swept. |
| `Gate.WhatAnAttemptIsTold` | crates/faces/ndn-face-quic/src/endpoint.rs:251-271 | After any run an attempt is told that it is cooling exactly while a cooldown lasts that one of its source's refusals started; else that its source has its fill of permits out, else that the gate has; else it is let in. |
| `Gate.AdmittedLeavesNoTrace` | crates/faces/ndn-face-quic/src/endpoint.rs:191-281 | An attempt let in and over without a refusal leaves every count as it was, and no entry but one with refusals counted or other permits out. |
| `Gate.QuietGateIsEmpty` | crates/faces/ndn-face-quic/src/endpoint.rs:198-213 | Once all permits have finished dropping nothing is counted as in flight. |
| `Gate.NoAdmitWhileCooling` | crates/faces/ndn-face-quic/src/endpoint.rs:251-263 | From the refusal that starts a cooldown, whatever else happens, no attempt of that source passes before the cooldown ends. |
| `Gate.CooldownIsEarned` | crates/faces/ndn-face-quic/src/endpoint.rs:226-249 | A cooldown starts only with a refusal that is at least the threshold-th of its source within one window of that window's first. |
| `Gate.ThresholdCoolsIff` | crates/faces/ndn-face-quic/src/endpoint.rs:224-256 | In any run and for any threshold above 1, the threshold-th refusal of a source in the window that its first one began starts a cooldown exactly when no sweep in between took that source out of the map. |
| `Gate.KeptBySizeOrPermit` | crates/faces/ndn-face-quic/src/endpoint.rs:254-256 | No sweep does that while the map holds at most 4096 sources, or while a permit of that source is out or dropping. |
| `Gate.SweepForgets` | crates/faces/ndn-face-quic/src/endpoint.rs:254-256 | With the default limits: after seven refused attempts, and one each of 4096 other addresses at the same moment, an address's eighth refused attempt starts no cooldown. |
| `Umem.MaskIsBase` | crates/faces/ndn-face-afxdp/src/af_xdp.rs:329 | `addr & !(FRAME_SIZE - 1)` is the frame base, for every 64-bit address. |
| `Umem.IoState.constructor` | crates/faces/ndn-face-afxdp/src/af_xdp.rs:273-301 | Primes the FILL ring with the first half of the UMEM and the free pool with the second. |
| `Umem.IoState.ReadDescriptor` | crates/faces/ndn-face-afxdp/src/af_xdp.rs:319-330 | One descriptor read: filter, strip the header, pass on, recycle the frame. |
| `Umem.IoState.RefillOne` | crates/faces/ndn-face-afxdp/src/af_xdp.rs:333-335 | One recycled frame inserted into the FILL ring. |
| `Umem.IoState.Receive` | crates/faces/ndn-face-afxdp/src/af_xdp.rs:312-336 | Everything available is read in order, so all that arrived before; its NDN payloads are passed on in order, and every frame read goes back to the FILL ring, with the kernel moving between any two steps. |
| `Umem.EthertypeDecides` | crates/faces/ndn-face-afxdp/src/af_xdp.rs:322-327 | Of a frame with Ethernet addresses and a type, the payload is passed on exactly if the type is 0x8624 and the payload is not empty. |
| `Umem.FramesCarry` | crates/faces/ndn-face-afxdp/src/af_xdp.rs:364-394 | The frames submitted for any payloads carry, for whoever reads them, those that fit a frame and are not empty, in order. |
| `Umem.FaceToFace` | crates/faces/ndn-face-afxdp/src/af_xdp.rs:312-394 | In any two reachable states, a face that received only what is on another one's wire offers nothing but payloads that one submitted, none more often; all of them in order, if they arrived so and were read. |
| `Umem.IoState.ReclaimTx` | crates/faces/ndn-face-afxdp/src/af_xdp.rs:354-360 | The pool grows by the frames of the completions on entry, in ring order, and then those of any the kernel added. |
| `Umem.IoState.Transmit` | crates/faces/ndn-face-afxdp/src/af_xdp.rs:375-388 | Header and payload written into the popped frame and its descriptor queued. |
| `Umem.IoState.DrainTx` | crates/faces/ndn-face-afxdp/src/af_xdp.rs:364-394 | What is submitted, lost and left, and the pool after it, as the one-step specification names. All that fits a frame is submitted exactly when there is a free frame for each; no payload is discarded for want of a frame exactly when the queue is empty or the frames for all but its last payload are fewer than the free ones. |
| `Umem.DrainDone` | crates/faces/ndn-face-afxdp/src/af_xdp.rs:366-389 | A drain submits a front of the queue, oversize payloads skipped, loses at most the next one and only with the pool used up, and leaves the rest. |
| `Umem.DrainSendsAllIff` | crates/faces/ndn-face-afxdp/src/af_xdp.rs:366-373 | All that fits a frame is submitted exactly when the frames for it are no more than the free ones. |
| `Umem.DrainLosesNothingIff` | crates/faces/ndn-face-afxdp/src/af_xdp.rs:366-369 | The condition for discarding nothing, on queue and pool before the drain, is exact. A payload over the frame size counts as discarded here when it meets an empty pool, and as skipped when it does not. |
| `Umem.EmptyPoolLosesOne` | crates/faces/ndn-face-afxdp/src/af_xdp.rs:367-369 | With an empty pool the first payload is lost, nothing sent, the rest left. |
| `Umem.FullPoolLosesThe2049th` | crates/faces/ndn-face-afxdp/src/af_xdp.rs:367-369 | From a full pool, a queue of 2049 empty payloads loses its last. |
| `Umem.IoState.Flush` | crates/faces/ndn-face-afxdp/src/af_xdp.rs:346-350 | The flush after cancel transmits, in order, everything still queued that fits a frame exactly when the pool then has a free frame for each; and the account of what it discards. |
| `Umem.IoState.Turn` | crates/faces/ndn-face-afxdp/src/af_xdp.rs:311-344 | One turn reads all that arrived before it, reclaims all frames completed by then, and keeps account of its batch; it submits all of it that fits when the pool at its start has a frame for each, and discards nothing when there is one more than those before the last payload need. |
| `Umem.IoState.Run` | crates/faces/ndn-face-afxdp/src/af_xdp.rs:304-351 | Over any number of turns and the flush, every payload that fits is submitted, lost (at most one a drain) or still queued, none twice. If the pool has a frame for each of them from the start all are submitted, in order, however late the kernel completes. |
| `Umem.StepKeepsNic` | crates/faces/ndn-face-afxdp/src/af_xdp.rs:304-394 | Every step of either side keeps: one owner a frame, reads in arrival order, frames in flight unaltered. |
| `Umem.EachFrameHasOneOwner` | crates/faces/ndn-face-afxdp/src/af_xdp.rs:220-300 | In every interleaving each UMEM frame has exactly one owner, the first half on the receiving side, the second on the sending side. |
| `Umem.InsertsHaveSlots` | crates/faces/ndn-face-afxdp/src/af_xdp.rs:333-387 | FILL and TX inserts always find a slot, so no frame is lost. |
| `Umem.SubmitApart` | crates/faces/ndn-face-afxdp/src/af_xdp.rs:367-379 | The frame written for transmission is inside the UMEM and no pending descriptor of any ring points into it. |
| `Umem.SentIntact` | crates/faces/ndn-face-afxdp/src/af_xdp.rs:367-394 | The kernel sends only submitted frames, no more often than submitted, unaltered; with empty rings all of them. |
| `FileStore.EntryFilesInOrder` | crates/dashboard/ndn-dashboard-core/src/signed_data_chain.rs:421-441 | Zero-padded file names sort as the sequence numbers do, and differ. |
| `FileStore.OnlyFinalNamesCount` | crates/dashboard/ndn-dashboard-core/src/signed_data_chain.rs:437-456 | Entry files have the extension that is loaded, temporary files do not. |
| `FileStore.LoadsInOrder` | crates/dashboard/ndn-dashboard-core/src/signed_data_chain.rs:427-449 | Whatever order the directory lists its files in, the wires are loaded in sequence order. |
| `FileStore.FileStore.LoadAll` | crates/dashboard/ndn-dashboard-core/src/signed_data_chain.rs:427-449 | Loads exactly the wires held. |
| `FileStore.FileStore.Append` | crates/dashboard/ndn-dashboard-core/src/signed_data_chain.rs:451-477 | The files after an append that finishes, fails or crashes at any of its steps. |
| `FileStore.AppendIsAtomic` | crates/dashboard/ndn-dashboard-core/src/signed_data_chain.rs:451-477 | A stop at any step, the temporary file torn in any way, leaves the old chain or the old chain and the new wire. |
| `FileStore.RunsKeepTheChain` | crates/dashboard/ndn-dashboard-core/src/signed_data_chain.rs:421-477 | After any sequence of appends, failures, crashes and reopens, the old wires and those whose rename happened are loaded, in order. |
| `Chain.NniRoundTrip` | crates/dashboard/ndn-dashboard-core/src/signed_data_chain.rs:327-351 | Every u64 is read back from its NonNegativeInteger. |
| `Chain.NniIsShortest` | crates/dashboard/ndn-dashboard-core/src/signed_data_chain.rs:323-350 | No fewer bytes than the encoder writes tell the number. |
| `Chain.BuiltDataDecodes` | crates/dashboard/ndn-dashboard-core/src/signed_data_chain.rs:157-176 | A built packet decodes to the name and content it was built from. |
| `Chain.DataReadIff` | crates/dashboard/ndn-dashboard-core/src/signed_data_chain.rs:107-120 | A packet is read from exactly one Data TLV with a whole name first; its content is that of its first Content element, if it has one. |
| `Chain.HeaderReadsBack` | crates/dashboard/ndn-dashboard-core/src/signed_data_chain.rs:268-319 | The reserved fields are read back and the reader is left at the payload. |
| `Chain.HeaderReadIff` | crates/dashboard/ndn-dashboard-core/src/signed_data_chain.rs:268-319 | A header is read from exactly three TLVs: a version of 16 bits in 1, 2, 4 or 8 bytes, no key or one of 32 bytes, a digest; what follows is left. |
| `Chain.LinksIff` | crates/dashboard/ndn-dashboard-core/src/signed_data_chain.rs:188-238 | An entry passes exactly if its name ends in its number, its content begins with the version and the digest of the entry before it, and the verifier vouches for it. |
| `Chain.NewEntrySucceedsIff` | crates/dashboard/ndn-dashboard-core/src/signed_data_chain.rs:142-177 | Building an entry succeeds exactly when the signer signs and the packet is below 2^64 bytes; decoding it again never fails. |
| `Chain.NewEntryIsGood` | crates/dashboard/ndn-dashboard-core/src/signed_data_chain.rs:142-177 | The packet appended carries its place, the link to the head and the payload. |
| `Chain.AppendKeepsVerified` | crates/dashboard/ndn-dashboard-core/src/signed_data_chain.rs:142-184 | An append from an accepted signer keeps the chain verified, and the new entry decodes to its payload. |
| `Chain.EveryRunVerifies` | crates/dashboard/ndn-dashboard-core/src/signed_data_chain.rs:142-251 | After any appends, whichever failed, the chain verifies and entry i decodes to the i-th payload accepted. |
| `Signing.SignedPartIsWhatPrecedes` | crates/dashboard/ndn-dashboard-core/src/signed_data_chain.rs:160-175 | A packet built is its signed part, then the signature, in one Data TLV. |
| `Signing.SignedReadsBack` | crates/dashboard/ndn-dashboard-core/src/signed_data_chain.rs:160-175 | From the wire a reader gets exactly the bytes the signer was given, and the signature. |
| `Signing.SignedPartsAreThere` | crates/dashboard/ndn-dashboard-core/src/signed_data_chain.rs:160-175 | Of any packet, what a reader takes for signed part and signature is the front of one Data TLV. |
| `Signing.SignedPartTellsAll` | crates/dashboard/ndn-dashboard-core/src/signed_data_chain.rs:160-175 | The signed part tells name, content and SignatureInfo: packets that differ in one of them are signed differently. |
| `Signing.AppendedIsSigned` | crates/dashboard/ndn-dashboard-core/src/signed_data_chain.rs:142-177 | The packet an append makes carries what was signed, and the signer's signature on it. |
| `Signing.HonouredIsTrusted` | crates/dashboard/ndn-dashboard-core/src/signed_data_chain.rs:142-177 | A verifier that accepts what the signers of a run sign accepts all they append. |
| `Signing.SignedRunVerifies` | crates/dashboard/ndn-dashboard-core/src/signed_data_chain.rs:142-239 | With such a verifier, and no other hypothesis on it, any run of appends leaves a chain that verifies and tells the payloads accepted. |
| `Signing.OnlySignedEntriesPass` | crates/dashboard/ndn-dashboard-core/src/signed_data_chain.rs:188-239 | If a verifier accepts only what was signed for some entries, each packet it accepts has the name and the content of one of them. |
| `Chain.PrefixVerifies` | crates/dashboard/ndn-dashboard-core/src/signed_data_chain.rs:188-239 | Every prefix of a verified chain verifies. |
| `Chain.TamperEvidence` | crates/dashboard/ndn-dashboard-core/src/signed_data_chain.rs:139-239 | Two verified chains with one head hash are identical, or exhibit two packets with one digest or a packet with digest zero. |
| `Chain.MemoryStore.Append` | crates/dashboard/ndn-dashboard-core/src/signed_data_chain.rs:384-393 | Accepts exactly the next sequence number; otherwise nothing changes. |
| `Chain.Backing.Append` | crates/dashboard/ndn-dashboard-core/src/signed_data_chain.rs:87-93 | Either backend, on success, holds one more wire; on failure what it held. |
| `Chain.SignedDataChainStore.Open` | crates/dashboard/ndn-dashboard-core/src/signed_data_chain.rs:107-120 | Succeeds exactly when every persisted wire decodes; memory then equals the backend. |
| `Chain.SignedDataChainStore.Head` | crates/dashboard/ndn-dashboard-core/src/signed_data_chain.rs:139-144 | The digest of the last entry, zero for an empty chain. |
| `Chain.SignedDataChainStore.Append` | crates/dashboard/ndn-dashboard-core/src/signed_data_chain.rs:147-184 | On success memory and backend both grow by the new entry and its digest is returned; on a failed sign, self-decode or backend append the entries are unchanged. |
| `Chain.SignedDataChainStore.Verify` | crates/dashboard/ndn-dashboard-core/src/signed_data_chain.rs:188-239 | Accepts exactly the chains all of whose links are good; otherwise names the first bad entry. |
| `Chain.ReopensTheSame` | crates/dashboard/ndn-dashboard-core/src/signed_data_chain.rs:107-120 | Reopening what the backend of a valid store holds gives the same entries. |
| `Chain.OfRootIff` | crates/dashboard/ndn-dashboard-core/src/signed_data_chain.rs:188-216 | A chain that verifies carries a root's own names exactly when every name has that root before its last component and the sequence number in shortest form. |
| `Chain.OtherRootGoesUnnoticed` | crates/dashboard/ndn-dashboard-core/src/signed_data_chain.rs:107-239 | A chain grown under one root opens in a store of another, is continued there and verifies, though it is not of that root if it grew at all. |
| `Chain.GrowsIff` | crates/dashboard/ndn-dashboard-core/src/signed_data_chain.rs:142-177 | From nothing, a run of appends leaves a chain that is not empty exactly if one of them is stored that succeeds as the first. |
| `Chain.OtherRootExample` | crates/dashboard/ndn-dashboard-core/src/signed_data_chain.rs:107-239 | Such a chain: for any entry type, one entry under the empty name verifies in a store of any other root and is not of it. |
| `Chain.AppendOnDisk` | crates/dashboard/ndn-dashboard-core/src/signed_data_chain.rs:147-184 | One append to a chain on disk, whatever goes wrong, and the chain opened again if the process ended: what is open is the chain with or without the entry, as its file is in place or not. |
| `Chain.RunOnDisk` | crates/dashboard/ndn-dashboard-core/src/signed_data_chain.rs:107-251 | After any appends to a chain on disk, some failing, some crashing and reopened, opening succeeds, the chain verifies, and its entries decode to the payloads whose files were put in place, in order. |
| `SecurityChains.FieldsReadBack` | crates/dashboard/ndn-dashboard-core/src/security_chains.rs:63-111 | The four payload fields are read back from their encoding. |
| `SecurityChains.FieldsReadIff` | crates/dashboard/ndn-dashboard-core/src/security_chains.rs:66-110 | The four fields are read from exactly four TLVs in order: a number, one byte that is a known code, two texts. |
| `SecurityChains.AuditReadIff` | crates/dashboard/ndn-dashboard-core/src/security_chains.rs:36-110 | An audit entry is read from exactly such fields, with the codes 0 to 3 for its outcomes and no others. |
| `SecurityChains.JournalReadIff` | crates/dashboard/ndn-dashboard-core/src/security_chains.rs:140-215 | A journal entry is read from exactly such fields, with the codes 0 to 3 for its kinds and no others. |
| `SecurityChains.Utf8Iff` | crates/dashboard/ndn-dashboard-core/src/security_chains.rs:66-110 | A text is exactly the UTF-8 of some Unicode scalar values. |
| `SecurityChains.VersionBytes` | crates/dashboard/ndn-dashboard-core/src/security_chains.rs:64-168 | Entries of both types begin with the version 1. |
| `SecurityChains.AuditLogIsLawful` | crates/dashboard/ndn-dashboard-core/src/security_chains.rs:60-111 | Decoding an encoded audit entry gives the entry back. |
| `SecurityChains.SchemaJournalIsLawful` | crates/dashboard/ndn-dashboard-core/src/security_chains.rs:164-215 | Decoding an encoded journal entry gives the entry back. |
| `SecurityChains.AuditChainTellsAll` | crates/dashboard/ndn-dashboard-core/src/security_chains.rs:113-119 | An audit chain grown from nothing verifies and its entries decode to exactly the payloads accepted, in order. |
| `SecurityChains.SchemaJournalTellsAll` | crates/dashboard/ndn-dashboard-core/src/security_chains.rs:217-223 | Likewise a schema journal. |
| `Thunk.ThunkRoundTrip` | crates/compute/ndn-compute/src/thunk.rs:30-69 | A thunk is read back as sent, its estimate as the 64 bits sent, and its content is known for a thunk. |
| `Thunk.ThunkMeans` | crates/compute/ndn-compute/src/thunk.rs:44-65 | Which lists of fields are a thunk, and which: the last name field, which has to be a whole name, the last estimate, and nothing else. |
| `Thunk.NameOfIff` | crates/compute/ndn-compute/src/thunk.rs:44-65 | A whole Name TLV and nothing behind it is read as its name. |
| `Thunk.ThunkIsToldBy` | crates/compute/ndn-compute/src/thunk.rs:67-74 | Content is taken for a thunk exactly if it begins with the bytes FD C9 10. |
| `Thunk.NoOtherThunk` | crates/compute/ndn-compute/src/thunk.rs:44-74 | Only such content is read as one. |
| `Thunk.Decode` | crates/compute/ndn-compute/src/thunk.rs:44-69 | The decode loop computes the thunk the specification names, or none, on any bytes. |
| `Jobs.JobStore.Invoke` | crates/compute/ndn-compute/src/service.rs:856-897 | An acceptable call starts a run unless its thunk name has a state, and is answered with a thunk either way; a bad one changes nothing. |
| `Jobs.JobStore.Finish` | crates/compute/ndn-compute/src/service.rs:883-889 | The end of a run stores its outcome. |
| `Jobs.JobStore.Poll` | crates/compute/ndn-compute/src/service.rs:908-924 | Answers the result, the failure, an updated thunk, or not found. |
| `Jobs.EveryRunStartsOnce` | crates/compute/ndn-compute/src/service.rs:849-925 | In every interleaving a run starts under a thunk name exactly if it was called, and once; it ends at most once; the state is Pending until then and the outcome ever after. |
| `Jobs.FinishedPollsAgree` | crates/compute/ndn-compute/src/service.rs:907-925 | A finished poll answers with the outcome of that one run, and so does every later one. |
| `Jobs.CallsNeverShare` | crates/compute/ndn-compute/src/service.rs:861-866 | A thunk name tells which call of its job it stands for, nonce included. |
| `Jobs.NoncesNeverShare` | crates/compute/ndn-compute/src/client.rs:133-134 | Opaque calls with different nonces, of one job or of any two, nested or not, have different thunk names. |
| `Jobs.ArgumentsReadBack` | crates/compute/ndn-compute/src/service.rs:799-825 | From the name a client builds, prefix, arguments and for an opaque call a nonce, the service takes exactly the arguments, and runs on them if the argument type accepts them. |
| `Jobs.NonceIsNeeded` | crates/compute/ndn-compute/src/service.rs:799-825 | A name shorter than its prefix, or an opaque call without a nonce, is refused; nothing else is at this point. |
| `Jobs.OpaqueCallRunsItself` | crates/compute/ndn-compute/src/client.rs:133-134 | Each call runs as its own job: in any run of any jobs, an opaque call whose nonce ends no earlier thunk name starts a run on the arguments the client put into it, the one run its thunk name ever has. |
| `Jobs.JobsNeverShare` | crates/compute/ndn-compute/src/service.rs:517-546 | Of two jobs neither of which is in the other's thunk namespace, only calls of one prefix with the same trailing components have one thunk name. |
| `Jobs.SharingNeedsNesting` | crates/compute/ndn-compute/src/service.rs:517-546 | In any service, two calls that reach jobs of different prefixes and have one thunk name are of jobs nested one in the other's thunk namespace, below a component other than the keyword. |
| `Jobs.SharedRunsIff` | crates/compute/ndn-compute/src/service.rs:517-546 | Two jobs of different prefixes, whatever their argument types, have callable calls that reach one each and share a thunk name exactly when one is so nested and, for some accepted call to it, the other accepts the call that its thunk root would make of it. |
| `Jobs.ArgumentCountsDecide` | crates/compute/ndn-compute/src/codec.rs:124-185 | For argument types of a number of components each, that takes the outer call to be as long as the inner prefix and call below it, and is exact if both accept any components; two jobs of as many components never share. |
| `Jobs.NestedExample` | crates/compute/ndn-compute/src/service.rs:856-897 | Transparent jobs of three byte strings at /a and of one at /a/thunk/b: the calls /a/b/thunk/c and /a/thunk/b/c reach one each, and only the first one's function runs. |
| `Jobs.SharedCallsRunOnce` | crates/compute/ndn-compute/src/service.rs:868-890 | Of two calls with one thunk name the second starts nothing; the one run is the first one's. |
| `Jobs.OnePrefixSharesAll` | crates/compute/ndn-compute/src/service.rs:505-546 | Jobs registered on one prefix share the thunk name of every call. |
| `Jobs.LaterRegistrationTakesCalls` | crates/compute/ndn-compute/src/service.rs:543-546 | Of those, only the last registered is reached. |
| `Jobs.ThunkNamesReachPolls` | crates/compute/ndn-compute/src/service.rs:543-546 | With no job so nested, longest-prefix matching takes every thunk name to a poll handler. |
| `Jobs.CallsReachTheirJob` | crates/compute/ndn-compute/src/service.rs:543-546 | A call reaches its job exactly when no longer registered prefix takes it; never when its first argument is the thunk keyword. |
| `Jobs.Service.RunJob` | crates/compute/ndn-compute/src/client.rs:150-196 | Whatever else happens in between, a client's success is the outcome of the one run of its call, a refusal that run's failure, and a result that looks like a thunk is never delivered. The client polls at least once, gives up only after the poll past its patience, and never on an outcome that was there when it called. |
| `ServiceText.Print` | crates/discovery/ndn-discovery/src/mgmt.rs:217-248 | Prints the header line and one line a record. |
| `ServiceText.ParseServiceBrowse` | crates/dashboard/ndn-viz/src/service.rs:58-95 | The loop over the lines collects exactly what each line tells. |
| `ServiceText.LineReadsBack` | crates/dashboard/ndn-viz/src/service.rs:61-92 | A line is read back as its record exactly when the prefix starts with no space, neither name is empty and the node does not contain the node separator; prefixes may contain both separators. |
| `ServiceText.LineReadIff` | crates/dashboard/ndn-viz/src/service.rs:58-95 | Of any line: which ones tell a record, and which. Whitespace, a prefix, the last node separator, a node, the last freshness separator, a number, `ms`; neither name empty. |
| `ServiceText.SpacesAre` | crates/dashboard/ndn-viz/src/service.rs:84-85 | What is trimmed is the 25 characters Unicode calls whitespace. |
| `ServiceText.LinesReadBack` | crates/dashboard/ndn-viz/src/service.rs:67 | Lines are found again whether they end in a newline or in a carriage return and a newline; the last one needs no end. |
| `ServiceText.ListingRoundTrip` | crates/dashboard/ndn-viz/src/service.rs:58-95 | A whole listing is read back, in order, exactly when all its records are like that. |
| `ServiceText.NumberRoundTrip` | crates/dashboard/ndn-viz/src/service.rs:69-71 | Every u64 is read back from its decimal form. |
| `ServiceText.NumberReadIff` | crates/dashboard/ndn-viz/src/service.rs:69-71 | A number is read from its digits behind any zeros and at most one plus, if below 2^64, and from nothing else. |

## Left out

- Sockets, QUIC and TLS, tokio tasks, browser and radio faces: a stream or a queue is a sequence, a lock is a step that is not interrupted.
- Cryptography: a digest is any function to 32 bytes, a signer any function that may fail, a verifier any predicate; tamper evidence therefore names the collision instead of excluding it.
- `ndn_tlv`, `ndn_packet` and `xdpilone` are not part of this model. VAR-NUMBERs follow the NDN Packet Format Specification and are read strictly in shortest form; a name component has a type from 1 to 65535 and no further check; a Data packet is decoded as far as its name and content; XDP rings are bounded queues.
- The NDNLPv2 decoder: `Scope.PacketOf` takes the fields it finds as a parameter.
- `TlvWriter`: the encoders are pure concatenations of what it is told to write.
- `f64` tokens and clocks: real and natural numbers, so rounding of the refill is not modelled.
- Logging, dropped-frame log intervals, `busy`, metrics and labels: they decide nothing.
- Certificates' contents, the binding transcript and its signature (`membership.rs` lines 63-139).
- Listing errors of `read_dir` and `read` in the file store: `load_all` returns them unchanged; a crash after an append was acknowledged keeps the rename, since the source relies on the file system for that.
- The IndexedDB store: its cache is the memory store, and its writes are fire-and-forget platform calls.
- Two threads inside one scoped link at once: a frame judged is one step of a run, its takes and its verdict together.
- Values carried in TLVs of 2^64 bytes or more: no buffer that long exists, so lengths are required to fit where a length is written.
- Umem.IoState.ReadDescriptor: does not model that the channel to the face is bounded; a payload that meets it full is dropped without a word (`af_xdp.rs` lines 97 and 326), so `offered` is what was handed to it.
- Jobs.Service.RunJob: does not model fetches that fail on the way. The compute face only logs a handler's error (`compute_face.rs` lines 73-75), so the client sees a refusal as a failed fetch, which may have other causes.
- How a nonce is chosen: it is a component of the call's name, and that two of them differ is a hypothesis.
- The freshness of a job's answers: it only matters to caches.
- Caches between a job's client and its service: an answer replayed from a cache is an earlier poll answer, which `Jobs.FinishedPollsAgree` shows to agree.
- A job whose task panics stays Pending, which is a run in which its completion never comes.
- The client's clock: how many polls it allows before the deadline is a parameter.
- `filter_traces`, `pit_fanout_rows`, `group_spans` of whole traces, text-table parsers, badges and configuration: only easy or finite claims.
- `service_browse`'s filter on the prefix: it selects the records before they are printed.
- `parse_discovery_status` and service record names: their printers or URI parser are not part of this model.
- Presence and reachability over links that close midway: `ControlSession.Converges` says nothing of bytes lost with the connection.
