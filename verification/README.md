# VIVARY control plane: a verified model

VIVARY runs LLM agents in containers. `keeperd`, the control daemon, talks to one `ward`
process per agent over byte pipes that carry frames in the MUS format: LEB128 varints and
length-prefixed strings. This project models the parts of that system whose behaviour is
hardest to see from the code, and proves properties of them for every input, every stream,
every clock and every interleaving.

| file | models |
|---|---|
| `Mus.dfy` | varints and strings, with both varint readers |
| `Shape.dfy` | a field layout as a value, and the one codec scheme all payloads follow |
| `Frame.dfy` | the frame header, frames, and streams of frames cut anywhere |
| `Payloads.dfy` | capability request and response, and the status reply |
| `SchemaCodec.dfy` | the codecs vivgen emits, for every schema; argument validation in the Ward |
| `RateLimiter.dfy` | the byte budget of a pipe |
| `Router.dfy`, `RouterLaws.dfy` | the read loop of a pipe, and what it guarantees over whole runs |
| `WardProtocol.dfy`, `WardTables.dfy` | concurrent tool calls between Ward and keeperd as a step system, and one call as the Ward runs it among the others |
| `PromptRun.dfy` | one prompt: loop detector, schema gate, retries |
| `Authority.dfy` | registry, access lists, dispatch, audit rows |
| `Provisioning.dfy`, `Overlap.dfy` | agent creation with its undo stack, destruction, reapers; the same in pieces that overlap |
| `AgentGrants.dfy` | what an agent created without capabilities may do, through access list, file write and page read |
| `PortAllocator.dfy` | the cyclic allocator of proxy ports |
| `ProcessTable.dfy` | the browser process table of chromed |
| `Text.dfy`, `PathScope.dfy` | lexical path cleaning, the symlink walk, the write behind it |
| `UrlPolicy.dfy` | the two URL policies |
| `WebSocket.dfy`, `CdpTable.dfy` | the WebSocket framing and the pending calls to the browser |
| `Wrappers.dfy` | `Option` |

Code that works by changing state is modelled by classes and methods. Each method is proved
against a function of its inputs or of the old state, and the laws are proved about that
function. Protocols are step systems: a state, the steps that are enabled in it, and the
state each step leads to. A law of a protocol holds after every run of enabled steps. Go's
64-bit integers are bounded or reduced explicitly where the code can reach the bounds. Text
is bytes, as in Go.

## What the proofs bring out

The model follows the code where a comment says otherwise. Each of these has a lemma:

- The tenth byte of a varint is cut off modulo 2^64, so some accepted encodings are not those
  of the value they decode to (`Mus.CanonicalIff`).
- A frame is charged under the stamped identity, so an agent with a longer name than it
  claims is charged for bytes that never came (`RouterLaws.ChargeAtMostWireIff`).
- The limiter is called rolling; it is a window that restarts, and twice the limit can pass
  in one second (`RateLimiter.RateBoundTight`). A refused window can grant again only by
  wrapping the counter (`RateLimiter.GrantAfterDenialIff`).
- A tool call's number is allocated before the send lock is taken, so two calls can write in
  the opposite order, and the router then drops the first one's request
  (`WardProtocol.ReorderedWriteIsLost`).
- A request with a name over 256 bytes, or a response with an error detail over 1024 bytes,
  is written but cannot be read (`Payloads.RequestRoundTrip`, `Payloads.ResponseRoundTrip`).
- The loop detector hashes name and arguments one after the other, so different calls can
  share a count under any hash (`PromptRun.ShareIff`, `PromptRun.RunTogether`).
- A malformed request is denied without a security event (`Authority.DenialRecordedIff`).
- A Ward's reaper deregisters its pipe by the agent's name, so a late one cuts off the
  agent's next life (`Provisioning.StaleReaperEvicts`). A failed creation destroys a
  directory that was there before, or leaves one behind if provisioning or the cleanup fails
  halfway (`Provisioning.SubvolRestoredIff`), and leaves the
  headless setting behind if the browser manager has no client
  (`Provisioning.HeadlessRestoredIff`). The comment on the fallback grants says they are
  written back to `agent.kdl`; they are not (`Provisioning.CreatedAuthority`). A destruction
  that overlaps a creation can leave a Ward without an agent
  (`Overlap.OrphanedByDestroyIff`, `Overlap.OverlapOrphans`).
- A browser process that no release ends is left behind by an acquisition that overlaps
  another one of the same agent, or by a release whose kill fails (`ProcessTable.OrphanedIff`,
  `ProcessTable.OverlapLeaks`, `ProcessTable.OrphanForever`).
- The two URL policies differ on entries that are not trimmed and on empty suffixes
  (`UrlPolicy.DisagreeIff`, `UrlPolicy.AgreeIff`), and several constraints of one
  grant mix hosts and paths (`UrlPolicy.GrantsMix`).
- Under the scope "/" every path that names anything is refused (`PathScope.OutsideIff`). The
  walk for symlinks starts below the scope, so a scope that is a link, or lies behind one, lets
  writes out to where it leads (`PathScope.LinkedScope`, `PathScope.WriteInScopeIff`).
- A WebSocket message of 2^32 bytes or more is sent with a wrong length
  (`WebSocket.RoundTripIff`); control frames and fragments are handed out as messages
  (`WebSocket.FirstByteIgnored`).
- A browser call made after the connection's end has been dealt with gets no result
  (`CdpTable.LateCallsWait`).

## Model

| member | source | states |
|---|---|---|
| Mus.AppendVarint | pkg/mus/mus.go:24-30 | the append loop produces the base-128 encoding |
| Mus.ReadVarintByte | pkg/mus/mus.go:48-66 | the byte reader loop finds the value the bytes mean, modulo 2^64, on every stream, with its errors and the bytes left over |
| Mus.ReadVarintSlow | pkg/mus/mus.go:68-87 | the other reader loop meets the same specification, so the two agree on every stream |
| Mus.VarintRoundTrip | pkg/mus/mus.go:24-66 | reading an appended varint gives back every uint64 and leaves exactly what followed |
| Mus.VarintLenIsLength | pkg/mus/mus.go:33-38 | the bit-length formula is the length of the encoding, for every value |
| Mus.AtMostTen | pkg/mus/mus.go:24-30 | no uint64 takes more than ten bytes, the readers' limit |
| Mus.AcceptedNotShorter | pkg/mus/mus.go:48-66 | an accepted encoding of k bytes decodes to a value whose own encoding takes at most k |
| Mus.CanonicalIff | pkg/mus/mus.go:48-66 | which accepted encodings are the encoding of their value, exactly |
| Mus.VarintCut | pkg/mus/mus.go:48-66 | a varint cut anywhere reports an unexpected end and never a value |
| Mus.VarintFailsIff | pkg/mus/mus.go:48-66 | on every stream, a varint overflows exactly when ten bytes all want another one, and is cut exactly when the stream ends before that |
| Mus.ReadString | pkg/mus/mus.go:98-117 | the string reader meets its specification, including its limit and its end-of-stream errors |
| Mus.StringRoundTrip | pkg/mus/mus.go:92-117 | a string comes back, with the rest, exactly when it respects the limit, and is too long otherwise |
| Mus.StringCut | pkg/mus/mus.go:98-117 | a string cut anywhere is an error and never a string |
| Shape.RoundTripIff | cmd/vivgen/main.go:170-240 | for every layout and value, decoding the encoding followed by any rest gives the value and that rest, exactly when no text exceeds its limit |
| Shape.SignedRoundTrip | cmd/vivgen/main.go:179-180 | the cast to uint64 and back covers all of int64 |
| Shape.DecodeExtend | cmd/vivgen/main.go:208-240 | what decodes still decodes to the same when more bytes follow: decoding is self-delimiting |
| Shape.DecodeCut | cmd/vivgen/main.go:208-240 | a proper prefix of an encoding never decodes |
| Shape.DecodeSound | cmd/vivgen/main.go:208-240 | a decoded value has the layout's type, respects its limits and was not encoded in fewer bytes than it needs |
| Shape.Marshal | cmd/vivgen/main.go:170-206 | the emitted writer appends the encoding, field by field and element by element |
| Shape.Unmarshal | cmd/vivgen/main.go:208-240 | the emitted reader consumes the stream as the decoder does |
| Frame.UnmarshalHeader | internal/switchboard/codec.go:97-130 | the header reader meets its specification, with the stream's end, bad fields and an oversized payload told apart |
| Frame.HeaderLayout | internal/switchboard/codec.go:62-70 | the header on the wire, field by field, from the generic scheme |
| Frame.HeaderRoundTrip | internal/switchboard/codec.go:62-130 | what reading back a marshalled header gives, for every header: itself, a refused ID or a refused length |
| Frame.HeaderSizeIsLength | internal/switchboard/codec.go:165-171 | the closed formula is the length of the marshalled header |
| Frame.HeaderSizeAtMostWire | internal/switchboard/codec.go:165-171 | it never exceeds the bytes the decoded header took on the wire |
| Frame.UnmarshalFrame | internal/switchboard/codec.go:134-150 | the frame reader meets its specification, including truncation |
| Frame.FrameRoundTripIff | internal/switchboard/codec.go:134-160 | a written frame is read back, with the rest of the stream, exactly when its IDs and payload respect the limits |
| Frame.FrameCut | internal/switchboard/codec.go:97-150 | where a frame is cut decides between end of stream, header error and truncation |
| Frame.StreamCut | internal/switchboard/codec.go:134-160 | a stream of frames cut inside the last one yields all complete frames and then the error the cut calls for |
| Frame.EveryCut | internal/switchboard/codec.go:134-160 | every cut of a stream of frames is one of those, so no cut ever yields a wrong frame |
| Frame.CutLosesSuffix | internal/switchboard/codec.go:134-150 | for any bytes, cutting the stream only takes frames away from the end |
| Payloads.RequestRoundTrip | internal/capabilities/capability.go:95-115 | a request crosses the wire exactly when its name is at most 256 bytes long |
| Payloads.ResponseRoundTrip | internal/capabilities/capability.go:125-160 | a response crosses the wire exactly when its error texts respect the reader's limits |
| Payloads.PayloadLayout | internal/capabilities/capability.go:100-142 | request and response on the wire, field by field |
| Payloads.StatusRoundTrip | internal/ctl/protocol.go:147-240 | a status reply is readable exactly when its version is at most 64 bytes long and every row respects its limits |
| Payloads.StatusLayout | internal/ctl/protocol.go:147-207 | the status reply on the wire: version, uptime, the count and the rows field by field |
| SchemaCodec.ArgsRoundTripIff | cmd/vivgen/main.go:170-240 | for every schema, the emitted reader inverts the emitted writer and leaves exactly the rest, unless a text exceeds the limit |
| SchemaCodec.ArgsLayout | cmd/vivgen/main.go:173-206 | for every schema, what the emitted writer appends, field by field and element by element |
| SchemaCodec.ResultRoundTripIff | cmd/vivgen/main.go:587-607 | a result keeps its string, int and bool fields, all others come back zero, and it is readable exactly when its strings respect the limit |
| SchemaCodec.ResultListRoundTripIff | cmd/vivgen/main.go:553-560 | the same for result lists, row by row |
| SchemaCodec.ValidateToolArgs | cmd/ward/schema_validation.go:10-23 | accepts unknown capabilities, and otherwise exactly what decodes with nothing left over |
| SchemaCodec.MarshalledAccepted | cmd/ward/schema_validation.go:10-23 | every marshalled argument struct of a known capability is accepted |
| SchemaCodec.AcceptedPrefixFree | cmd/ward/schema_validation.go:16-21 | no accepted text of a capability is a proper prefix of another |
| SchemaCodec.CutOrExtendedRejected | cmd/ward/schema_validation.go:16-21 | every proper prefix and every proper extension of a marshalled struct is rejected |
| SchemaCodec.DecodeStringMatrix | internal/capabilities/generated.go:405-429 | the nested loops of the matrix reader accept exactly the texts the schema codec accepts for a matrix field with nothing left over, and find the same rows |
| RateLimiter.ByteRateLimiter.Allow | internal/switchboard/router.go:36-46 | the window and counter after a call, and the verdict |
| RateLimiter.DenialLasts | internal/switchboard/router.go:36-46 | within one window, once refused is refused until its end, if the counter does not wrap in it |
| RateLimiter.GrantAfterDenialIff | internal/switchboard/router.go:44-45 | a refused window grants a call exactly when the counter wraps into the limit |
| RateLimiter.WindowBound | internal/switchboard/router.go:36-46 | every window of a run grants at most the limit in all |
| RateLimiter.RateBound | internal/switchboard/router.go:36-46 | no half-open second sees more than twice the limit granted |
| RateLimiter.RateBoundTight | internal/switchboard/router.go:36-46 | that bound is reached |
| Router.Pipe.ReadLoop | internal/switchboard/router.go:140-226 | the loop, over any stream, clock and cancellation, delivers and reports what the specification of its gates says |
| Router.Pipe.Fetch | internal/switchboard/router.go:143-181 | cancellation, the two-byte peek and its charge, and the decoding of one frame |
| Router.Pipe.Handle | internal/switchboard/router.go:183-222 | identity, order and budget of one frame, in this order, with their events |
| RouterLaws.JudgesEveryFrame | internal/switchboard/router.go:140-226 | the frames judged are the frames of the stream, in order and without a gap |
| RouterLaws.DeliversStamped | internal/switchboard/router.go:184-191 | the delivered frames are a subsequence of the decoded ones, changed in their sender only, which is the pipe's agent |
| RouterLaws.Accounting | internal/switchboard/router.go:194-222 | decoded is delivered plus rewound plus over budget, and each drop and each overwritten identity has one event of its kind |
| RouterLaws.EventsAreReports | internal/switchboard/router.go:161-219 | every event names a frame of the run with its claimed sender or its two numbers, and no event is missing |
| RouterLaws.ExitIff | internal/switchboard/router.go:143-181 | why the loop ends, exactly: cancelled when its context is, closed with fewer than two bytes left, flooded when the last peek goes over the limit after all limiter calls of the run, and otherwise on a broken frame; no frame is judged after one of these held, and a flood is reported last |
| RouterLaws.OverBudgetIff | internal/switchboard/router.go:209-220 | a frame that does not rewind is dropped for the budget exactly when its own charge, its header under the pipe's identity and its payload, is over the limit after all calls before it |
| RouterLaws.RewoundIff | internal/switchboard/router.go:194-207 | a frame is rewound exactly when its number does not exceed the largest before it, dropped ones included |
| RouterLaws.SequenceRises | internal/switchboard/router.go:194-207 | delivered numbers are zeros followed by strictly increasing positives |
| RouterLaws.DeliveryRateBound | internal/switchboard/router.go:161-220 | over any stream and clock no half-open second sees more than twice the limit delivered |
| RouterLaws.DeliveryWindowBound | internal/switchboard/router.go:161-220 | within one limiter window at most the limit is delivered |
| RouterLaws.OverBudgetEndsWindow | internal/switchboard/router.go:161-218 | after an over-budget frame the loop judges another one only in a new window |
| RouterLaws.ChargeAtMostWireIff | internal/switchboard/router.go:190-212 | a frame is charged at most its wire bytes exactly when the stamped identity is not longer than the claimed one |
| RouterLaws.OwnFrameNeverOvercharged | internal/switchboard/router.go:211 | a frame under its own identity is never charged more than it took on the wire, however it was encoded |
| WardProtocol.StepKeeps | cmd/ward/toolserver.go:177-199 | every step of every participant keeps the protocol's invariant |
| WardProtocol.Correlation | cmd/ward/toolserver.go:177-199 | in every interleaving a call that returns a response returns the one computed for its own capability and arguments |
| WardProtocol.DroppedExpires | internal/switchboard/router.go:193-220 | a call whose request was dropped can only expire, and one whose write failed was never executed |
| WardProtocol.ExecutedOnce | cmd/keeperd/dispatch.go:68-78 | no request is executed twice |
| WardProtocol.ResultIsFinal | cmd/ward/main.go:235-247 | nothing that comes later, a late reply among it, changes a call's result |
| WardProtocol.RewindIff | internal/switchboard/router.go:193-207 | in every interleaving a frame is dropped as a rewind exactly when one with a number at least as high was routed before it, whatever became of that one |
| WardProtocol.EveryRequestIsSomewhere | cmd/ward/toolserver.go:177-183 | conservation: in every interleaving a written request is in exactly one place, on the pipe once with its call's own bytes, among the dropped or among the answered, and an unwritten one in none |
| WardProtocol.ReplyAwaitsItsCall | cmd/ward/main.go:235-247 | in every interleaving, the reply sent for a waiting call is in the call's slot as soon as the reader has caught up with the pipe, and the call returns it |
| WardProtocol.ReorderedWriteIsLost | cmd/ward/toolserver.go:178-183 | two calls that write in the opposite order of their numbers lose the first one's request, with no budget exceeded |
| WardTables.Tables.ExecuteTool | cmd/ward/toolserver.go:177-199 | a call run move by move, with any steps of the others between its moves: it expires exactly when its request was sent and none of its looks finds a reply, the first reply found decides the outcome, and a response is the one the keeper computed for the call's own request |
| WardTables.ReplyIsReturned | cmd/ward/toolserver.go:177-199 | end to end: if the request reaches the keeper and the reply the reader before any look of the call, and nobody else does anything, the call returns that reply |
| PromptRun.LoopDetector.Check | cmd/ward/main.go:494-504 | true exactly when the key has now been seen threshold times |
| PromptRun.Ward.HandleCall | cmd/ward/toolserver.go:149-169 | what the gates say to a call, from all calls of the attempt before it |
| PromptRun.GateIff | cmd/ward/toolserver.go:149-169 | a call is malformed, or a loop exactly when at least threshold calls of the attempt up to it have its key, or invalid, or forwarded, each exactly when |
| PromptRun.Ward.RunOnce | cmd/ward/main.go:349-427 | an attempt's result is decided by the last abort, the exit and the context |
| PromptRun.ResultIff | cmd/ward/main.go:349-427 | how an attempt ends, exactly: well, for the reason of the last aborted call, by the context, or by a crash |
| PromptRun.Ward.RunPrompt | cmd/ward/main.go:307-322 | at most 1 + max(0, retries) attempts, all but the last ended for invalid arguments, and the last one too only if the retries are used up |
| PromptRun.RetriedIsUnique | cmd/ward/main.go:307-322 | that settles the number of attempts and the result |
| PromptRun.PairBound | cmd/ward/main.go:494-504 | one capability with the same arguments is forwarded at most threshold - 1 times per attempt, for any hash |
| PromptRun.RepeatedCall | cmd/ward/main.go:494-504 | the bound is met by a valid call that is repeated |
| PromptRun.PromptTotal | cmd/ward/main.go:307-322 | over a prompt it is forwarded at most (1 + retries) (threshold - 1) times |
| PromptRun.ShareIff | cmd/ward/main.go:494-498 | two calls share a count under every hash exactly when their names and arguments run together to the same bytes |
| PromptRun.RunTogether | cmd/ward/main.go:494-504 | then threshold - 1 forwards of the one leave none for the other |
| PromptRun.InvalidCallBehind | cmd/ward/toolserver.go:166-169 | an attempt that ends for invalid arguments made a call its schema does not accept |
| Authority.Keeper.Allowed | internal/capabilities/capability.go:236-243 | the constraints are those of the first entry for the name, and a refusal means there is none |
| Authority.Keeper.Dispatch | internal/capabilities/capability.go:293-317 | list, entry and registration are asked in this order, and only then the capability is run with the constraints found |
| Authority.Keeper.HandleFrame | cmd/keeperd/dispatch.go:30-141 | audit row, decoding, dispatch, denial event and reply of one frame |
| Authority.TablesAreHistory | internal/capabilities/capability.go:163-288 | the list in force is the one set last and not removed since, and the capability of a name the one registered first |
| Authority.JustifiedIff | internal/capabilities/capability.go:293-317 | a step executes exactly what the history justifies |
| Authority.AuthorityHolds | internal/capabilities/capability.go:236-317 | over every run the executions are, one for one, those of request frames on the agent's own pipe for a registered name that its current list grants, with the constraints of the first matching entry |
| Authority.RepliesAreHistory | cmd/keeperd/dispatch.go:66-141 | over every run the replies are, one for one, those to the request frames, to their own pipe and under their number: malformed exactly when undecodable, the result or a failure exactly when the history justifies the execution, and else the denial that list, entry and registration call for |
| Authority.Isolation | internal/capabilities/capability.go:293-317 | what other agents send, and changes to their lists, alter nothing an agent has executed or is told |
| Authority.ClaimIsIgnored | internal/switchboard/router.go:184-191 | the sender a frame claims makes no difference to anything |
| Authority.AuditedAs | cmd/keeperd/dispatch.go:30-64 | every frame leaves one row with its type, number and destination under its pipe's identity, and its payload unless it is a decodable request for a capability whose payloads are not stored |
| Authority.DenialRecordedIff | cmd/keeperd/dispatch.go:68-110 | over every run a request leaves a denial event exactly when it is decodable and does not end in a result that is no denial itself |
| Provisioning.ValidateAgentId | internal/config/config.go:306-320 | the loop accepts exactly the valid IDs |
| Provisioning.ValidIdIff | internal/config/config.go:306-320 | those are a lower-case letter or digit and up to 62 more or hyphens behind it |
| Provisioning.Daemon.AgentCreate | cmd/keeperd/provisioning.go:36-183 | the tables after a creation, for every point at which it can fail |
| Provisioning.Daemon.Build | cmd/keeperd/provisioning.go:81-178 | how far the work got, and which undo actions were pushed |
| Provisioning.Daemon.Unwind | cmd/keeperd/provisioning.go:58-68 | the undo actions run, last one first |
| Provisioning.Daemon.AgentDestroy | cmd/keeperd/provisioning.go:310-342 | the tables after a destruction |
| Provisioning.UnwindingGivesFailed | cmd/keeperd/provisioning.go:58-68 | the undo stack leads from every failure point to the failed state said outright |
| Provisioning.FailedCreateRestores | cmd/keeperd/provisioning.go:53-165 | a failed creation leaves agents, lists, pipes, sessions and processes as they were, and other agents' directories and settings |
| Provisioning.HeadlessRestoredIff | cmd/keeperd/provisioning.go:108-113 | when the headless setting is restored, exactly |
| Provisioning.SubvolRestoredIff | cmd/keeperd/provisioning.go:81-87 | for every point of failure and whether or not the cleanup can destroy the directory, when the directories are as before, exactly |
| Provisioning.RefusedChangesNothing | cmd/keeperd/provisioning.go:37-48 | which requests are refused up front, and that they change nothing |
| Provisioning.CreateThenDestroyIff | cmd/keeperd/provisioning.go:310-342 | creating an agent and destroying it leaves all tables as before exactly when the directory comes out as it was and a manager without client had the same headless setting |
| Provisioning.RunKeeps | cmd/keeperd/provisioning.go:36-342 | over every run of creations, destructions and arbitrarily late reapers, agents and access lists have the same names, and every pipe belongs to an agent |
| Provisioning.PipeKeptIff | cmd/keeperd/provisioning.go:227-231 | a live agent has its pipe exactly when no reaper of its name fired since it was created |
| Provisioning.StaleReaperEvicts | cmd/keeperd/provisioning.go:227-231 | the reaper of an earlier life takes the pipe of the next one |
| Overlap.CreationAlone | cmd/keeperd/provisioning.go:36-183 | the pieces of a creation, uninterrupted, do what the whole does, success or failure |
| Overlap.DestructionAlone | cmd/keeperd/provisioning.go:312-338 | so do the pieces of a destruction |
| Overlap.OrphanIff | cmd/keeperd/provisioning.go:167-231 | in every interleaving of creations, destructions and reapers, a name has a pipe and no agent exactly when a creation's slot went after its publication and the pipe it added was neither dropped nor reaped |
| Overlap.OrphanedByDestroyIff | cmd/keeperd/provisioning.go:312-322 | with everything finished and no creation of the agent failed, exactly when a destruction fell between a creation's publication and its pipe, with nothing for the name since |
| Overlap.OverlapOrphans | cmd/keeperd/provisioning.go:167-224 | such a run, from the empty system |
| Provisioning.CreatedAuthority | cmd/keeperd/provisioning.go:115-162 | a new agent's list grants exactly its configured capabilities, with all their scopes, or the fallback, and the fallback is not in its configuration file |
| Provisioning.TemplateCarriesOver | cmd/keeperd/provisioning.go:69-108 | browser setting, grants and retries of an agent carry over to one created from its directory; name, provider and limits are the request's |
| AgentGrants.GrantedAs | cmd/keeperd/provisioning.go:138-155 | an agent created without capabilities is granted the file write and the page read, and nothing by any other name |
| AgentGrants.FileGrantScope | cmd/keeperd/provisioning.go:141-147 | the scope of its file grant is the directory "output" in its own directory |
| AgentGrants.FileGrantConfines | cmd/keeperd/provisioning.go:138-147 | whatever it asks to be written, with no link and no file on the way to that directory nothing changes but what is in it and the missing directories on the way, and not its configuration file |
| AgentGrants.FileGrantSuffices | internal/capabilities/filesystem.go:38-83 | and a relative path without ".." below that directory is written, if no link and no file is on the way and it is no directory |
| AgentGrants.PageGrantIff | cmd/keeperd/provisioning.go:148-154 | its page grant lets in exactly the URLs of the two hosts, at the capability and at the proxy |
| PortAllocator.ProxyAllocator.ListenNext | cmd/keeperd/browser_proxy.go:104-117 | the loop returns what the search from the hint finds, and keeps the hint in the range |
| PortAllocator.ProxyAllocator.Acquire | cmd/keeperd/browser_proxy.go:49-72 | an agent keeps its port, or gets the one found |
| PortAllocator.TourIsCyclic | cmd/keeperd/browser_proxy.go:105-106 | the attempts go round the range in order |
| PortAllocator.EachPortOnce | cmd/keeperd/browser_proxy.go:105-106 | every port has just one attempt |
| PortAllocator.SearchIff | cmd/keeperd/browser_proxy.go:104-117 | the first free port from the hint on is found, and the search fails exactly when none is free |
| PortAllocator.DistinctPorts | cmd/keeperd/browser_proxy.go:49-90 | over every run live agents hold distinct ports and the hint stays in the range |
| PortAllocator.PortIsKept | cmd/keeperd/browser_proxy.go:49-54 | an agent keeps its port until it is released |
| PortAllocator.AcquireFailsIff | cmd/keeperd/browser_proxy.go:55-59 | when acquiring fails, exactly, and that it then changes nothing |
| PortAllocator.AcquiredIsRecorded | cmd/keeperd/browser_proxy.go:49-64 | the port returned is the agent's entry, and no other entry changes |
| PortAllocator.PortUntilRelease | cmd/keeperd/browser_proxy.go:49-90 | over every run without its release an agent is given the same port again; the release takes its entry away and no other, and the port is free once its listener is closed |
| PortAllocator.ComesToMeans | cmd/keeperd/browser_proxy.go:104-117 | a port the search comes to is handed out or was taken |
| PortAllocator.RoundRobin | cmd/keeperd/browser_proxy.go:104-117 | over every run, between two times a port is handed out the search has come to every other port |
| PortAllocator.ReuseIsLast | cmd/keeperd/browser_proxy.go:109-112 | a port given back right after it was handed out is not the next one handed out while another is free |
| ProcessTable.StepKeeps | chromed/service.go:99-234 | every step keeps entries with their agents and with processes not yet reaped |
| ProcessTable.EntryChangesOnlyBy | chromed/service.go:184-217 | an entry changes by a release, by the reaper of its own ended process, or by being overwritten |
| ProcessTable.NewerInstanceStays | chromed/service.go:195-203 | over every run in which the agent is not released, its entry's own process not reaped and nothing inserted for it, its entry stays, whatever older processes and other agents do |
| ProcessTable.OneProcess | chromed/service.go:104-110 | once a call has returned with no other under way, all further calls start nothing and return its address, until a release or exit |
| ProcessTable.ReturnsEntry | chromed/service.go:104-186 | the address a call returns is that of its agent's entry at that moment, and an entry it inserts is for the process it started |
| ProcessTable.FailedCallLeavesNothing | chromed/service.go:112-173 | a call that gives up, or whose browser does not come up, has failed for good and leaves no entry and no process |
| ProcessTable.ReleaseEndsIff | chromed/service.go:206-223 | a release takes the agent's entry away and no other, its process ends for good exactly when the kill succeeds or it had ended, and the next call starts a new one |
| ProcessTable.OrphansIff | chromed/service.go:184-223 | a step loses a live process exactly when it inserts over its entry or releases the entry and fails to kill |
| ProcessTable.OrphanedIff | chromed/service.go:99-234 | over every run, a process alive at the end is lost exactly when such a step came about |
| ProcessTable.OrphanForever | chromed/service.go:208-223 | no release ever reaches a lost process |
| ProcessTable.OverlapLeaks | chromed/service.go:104-186 | two overlapping acquisitions lose one |
| Text.ContainsDotDot | internal/capabilities/filesystem.go:91-98 | true exactly when some component is ".." |
| Text.CleanedByName | internal/capabilities/filesystem.go:54-55 | what one more name means for a cleaned path: nothing, its parent, or an entry in it |
| Text.UnderIff | internal/capabilities/filesystem.go:56 | the check on the texts of two clean paths is containment of components, except under the root |
| Text.JoinStays | internal/capabilities/filesystem.go:54-55 | joining a path without ".." to the scope appends its components |
| Text.ComponentsOfRendered | internal/capabilities/filesystem.go:55 | cleaning a clean path changes nothing |
| PathScope.LinkIsTarget | internal/capabilities/filesystem.go:118-124 | a link stands for its target, walked from the link's own directory or from the root |
| PathScope.CheckNoSymlinkEscape | internal/capabilities/filesystem.go:103-132 | the walk passes exactly when every prefix up to the first absent one is no link or resolves into the scope |
| PathScope.CheckIsSound | internal/capabilities/filesystem.go:103-132 | for every scope and any limit on links: if the check passes, walking the target through all links ends below the node the scope leads to or at a name of its own missing there, and if the scope is missing, so is the target |
| PathScope.GetPathPrefix | internal/capabilities/filesystem.go:134-143 | the first path prefix of the first constraint on files or folders that has one |
| PathScope.Execute | internal/capabilities/filesystem.go:30-88 | the refusals in their order, and the write otherwise |
| PathScope.DecidedIff | internal/capabilities/filesystem.go:38-64 | each refusal exactly, and that a write that is not refused goes to the scope's components followed by the path's |
| PathScope.StraightIsWritten | internal/capabilities/filesystem.go:38-83 | a relative path without ".." below a scope other than the root is written, with its missing directories, if no link and no file is on the way and it is no directory |
| PathScope.OutsideIff | internal/capabilities/filesystem.go:56-58 | the lexical check refuses a path that gets to it only under the root |
| PathScope.WriteStaysInPlace | internal/capabilities/filesystem.go:60-83 | whatever path is asked for and whatever the scope is, a write changes nothing but the place the scope leads to, or will have once it is made, and the missing directories on the way |
| PathScope.StraightWalk | internal/capabilities/filesystem.go:110-131 | that place is the scope itself when no link and no file is on the way |
| PathScope.WriteInScopeIff | internal/capabilities/filesystem.go:60-83 | a write stays in the scope exactly when no link and no file is on the way to it |
| PathScope.LinkedScope | internal/capabilities/filesystem.go:110-131 | a scope that is a link is not looked at: the check passes and the write lands behind the link |
| PathScope.WrittenIsRead | internal/capabilities/filesystem.go:66-84 | reading the target then gives the old content followed by the new for an append to a file, and else the new content alone, and the tree stays in order |
| PathScope.WriteAfterWrite | internal/capabilities/filesystem.go:30-84 | a second write to the same path is allowed if the first one was; an append leaves both contents, an overwrite its own alone |
| UrlPolicy.NormalizeBrowserScope | internal/capabilities/browser.go:78-89 | the lists of all constraints on links, in order |
| UrlPolicy.UnderSuffixIff | internal/capabilities/browser.go:127-133 | a suffix stands for itself and what ends in it behind a dot, and for nothing that ends in it without one |
| UrlPolicy.EmptyPathIsRoot | internal/capabilities/browser.go:141-144 | both policies judge a URL without a path like the root page of its host |
| UrlPolicy.AllowsUrl | internal/capabilities/browser.go:109-151 | the flag loops decide exactly by host and path |
| UrlPolicy.Allows | internal/chromproxy/proxy.go:393-434 | the proxy's flag loops decide exactly by prefix, or host and path |
| UrlPolicy.AllowsByPrefix | internal/chromproxy/proxy.go:436-451 | true exactly when some prefix entry matches up to a boundary |
| UrlPolicy.AgreeIff | internal/chromproxy/proxy.go:393-434 | with trimmed entries, on which URLs the two policies agree, exactly, and that the proxy is never the wider one |
| UrlPolicy.AgreeWithoutEmptySuffix | internal/capabilities/browser.go:95-151 | with trimmed entries and no empty suffix they agree on every URL |
| UrlPolicy.DisagreeIff | internal/chromproxy/proxy.go:393-434 | for all entries, on which URLs the two policies decide differently, exactly, and by which entries |
| UrlPolicy.UntrimmedDisagrees | internal/chromproxy/proxy.go:404 | a lone untrimmed domain makes them disagree |
| UrlPolicy.Monotone | internal/capabilities/browser.go:109-151 | more domains and suffixes, and more path prefixes once there is one, never take a URL away |
| UrlPolicy.FirstPathPrefixNarrows | internal/capabilities/browser.go:138-150 | the first path prefix takes away exactly what it does not cover |
| UrlPolicy.AllowedIff | internal/capabilities/browser.go:78-151 | a URL is allowed when some constraint has its host and some constraint its path |
| UrlPolicy.GrantsMix | internal/capabilities/browser.go:84-86 | two constraints together let in what neither does |
| UrlPolicy.PieceMatchesIff | internal/chromproxy/proxy.go:436-451 | an entry that ends in a host matches a text exactly when the text has that very host there, no longer one |
| UrlPolicy.PrefixStopsAtBoundary | internal/chromproxy/proxy.go:436-451 | a list of such entries lets in exactly the texts whose host is one of theirs |
| WebSocket.Unmask | internal/chromproxy/proxy.go:588-592 | the loop in place combines every byte with its byte of the key |
| WebSocket.UnmaskUndoesMask | internal/chromproxy/proxy.go:588-592 | unmasking undoes masking for every key |
| WebSocket.ReadLength | internal/chromproxy/proxy.go:561-574 | the length loop computes the big-endian number in signed 64 bits |
| WebSocket.Receive | internal/chromproxy/proxy.go:549-594 | receiving meets its specification, with the panic on a negative length |
| WebSocket.RoundTripIff | internal/chromproxy/proxy.go:549-616 | a frame under any key gives its message and the rest back exactly when the message is shorter than 2^32 bytes |
| WebSocket.ServerRoundTrip | internal/chromproxy/proxy.go:549-594 | an unmasked frame, as a server sends it, gives its message and the rest back, up to the first length with its top bit set |
| WebSocket.SentIsTextFrame | internal/chromproxy/proxy.go:597-612 | what is sent is a final, masked text frame with the shortest length form |
| WebSocket.EncodeIsZeroKeyed | internal/chromproxy/proxy.go:597-616 | what is sent is a frame masked with the zero key |
| WebSocket.Consumes | internal/chromproxy/proxy.go:601-612 | no accepted frame has fewer length bytes than the sender would use for its message |
| WebSocket.StreamRoundTrip | internal/chromproxy/proxy.go:549-616 | messages sent one after the other come back in order, and then the end |
| WebSocket.FirstByteIgnored | internal/chromproxy/proxy.go:555-557 | opcode and final flag make no difference |
| CdpTable.StepKeeps | internal/chromproxy/proxy.go:322-388 | every step keeps at most one result per channel, and none for calls not yet served |
| CdpTable.NeverBlocks | internal/chromproxy/proxy.go:352-388 | in every interleaving each channel is sent to at most once, so the reader never waits for room, not even under the lock |
| CdpTable.OwnReply | internal/chromproxy/proxy.go:375-386 | a call returns a reply with its own number, or the error of a connection that ended while it was pending |
| CdpTable.ReplyReachesCall | internal/chromproxy/proxy.go:370-386 | in every interleaving, a reply read for a pending call is all the call's channel ever gets, a waiting call can take it, and the call returns nothing else |
| CdpTable.EachLostCallGetsOneError | internal/chromproxy/proxy.go:355-363 | every call pending at the end of the connection is sent one error and nothing else |
| CdpTable.LateCallsWait | internal/chromproxy/proxy.go:328-348 | a call registered after that never gets a result |
| CdpTable.EndsAsHappened | internal/chromproxy/proxy.go:322-349 | over every run a call has a result exactly if it received one, a failed send if its write failed, and is cancelled if it was |
| CdpTable.TableIsTidy | internal/chromproxy/proxy.go:322-388 | in every interleaving, whenever the lock is free, the calls in the table are among those still under way |
| CdpTable.Target.Dispatch | internal/chromproxy/proxy.go:375-386 | one reply is taken out of the table and sent, with room in the channel |
| CdpTable.Target.Drain | internal/chromproxy/proxy.go:355-363 | all pending channels get the error, each once and with room, and all others keep what they had |

## Left out

- WardProtocol.Correlation: the 64-bit sequence counter is assumed not to wrap, which would take 2^64 frames; frames travel as messages, so a reply over 4 MiB, which ends the peer's reader, is not part of it.
- AgentGrants.FileGrantScope: the directory that holds all agents is a text with a slash at its end, so that an ID appended to it is a path below it.
- Provisioning.RunKeeps: creations and destructions do not overlap in its runs; `Overlap` says what overlap does to slots and pipes.
- Provisioning.FailedCreateRestores: a runtime operation other than provisioning is taken to leave nothing behind when it fails, and a page read is one step.
- RouterLaws.DeliveryRateBound: the clock does not run backwards, and the byte counter does not wrap within any one window.
- PathScope.WriteStaysInPlace: the tree does not change between check and write, and permissions are not modelled; the scope is an absolute path.
- UrlPolicy.DisagreeIff: `net/url`, lower-casing and trimming are arbitrary functions, of which only that a host does not lower to nothing is used.
- PromptRun.PairBound: only calls made while a prompt runs; without one the Ward does not count.
- Overlap.OrphanIff: a destruction's steps after the slot is taken, and a creation's filesystem work, are single steps; page reads do not occur.
- WardTables.Tables.ExecuteTool: the Ward has numbers left, a schedule is any finite list of others' steps at each point, and the number of looks into the slot before timer or context win is a parameter.
- Authority.AuthorityHolds: a duplicate registration ends the process in the code; here the step changes nothing.
- The Ward protocol, the browser call table and the process table are step systems over values; the classes beside them update the same tables one critical section at a time, without aliasing between channels.
- `make` with a huge announced length, which may exhaust memory, always succeeds here.
- Network, goroutines, deadlines and partial writes: a frame is written whole or not at all, a timeout is a step that may always happen.
- The SQLite store behind the audit rows and events, and failures to write them.
- Completion and failure events, pings, the control-socket subscribers, and the agent state they update.
- Containers, btrfs, nftables, DNS and process start: operations that succeed or fail. The contents of `agent.kdl` are a value; KDL parsing and printing are not modelled.
- Agent IDs that are blank by Unicode white space only; chromed's refusal is modelled for ASCII white space.
- Debug forwarders of chromed, and the leak of one when a process does not start.
- Capability field types vivgen emits no argument code for, JSON schema texts, registries and the generated structs one by one.
- `CompletionEventPayload`, whose cost travels as formatted text.
- The other control-socket and tool-protocol payloads, which repeat the same scheme.
- The HTTP upgrade, JSON and page-reading parts of the browser proxy.
- `ReleaseAll` in the port allocator and in chromed, which only repeats single releases.
