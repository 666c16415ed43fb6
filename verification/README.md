# QuicServe, modelled and verified in Dafny

QuicServe is a request/response system over one framed, bidirectional stream per
connection. Any number of concurrent calls on a client share an id counter, a map of
pending one-shot senders and one stream slot; a response handler completes the calls;
a server session answers the requests of its stream one after the other.

This project models that protocol as a transition system with one step per
lock-protected block, and proves what holds of every interleaving. The pieces around it
are modelled in their own form: the client object with its response handler, and the
server's session loop with all its endings, as classes and loops that are shown to be
runs of the protocol, the framing and protobuf
layers byte by byte, the parallel matrix product of the example server, and the retry
loop.

`dafny verify dfyconfig.toml` checks everything.

| file | what it holds |
|---|---|
| `Rpc.dfy`, `Routing.dfy`, `Dispatch.dfy` | messages, method names, what the server answers to one request |
| `Protocol.dfy` | the transition system: state, steps, schedules |
| `Invariants.dfy` | what every step keeps |
| `Correlation.dfy`, `Delivery.dfy` | who gets which response |
| `Callers.dfy`, `Outcomes.dfy`, `Streams.dfy`, `Slot.dfy`, `Registrations.dfy` | what whole runs promise callers, streams and services |
| `Progress.dfy` | that no task of the protocol gets stuck |
| `Witness.dfy` | concrete runs: a delivered reply, a wrapped id counter |
| `Client.dfy`, `Session.dfy`, `Refinement.dfy` | the client object, the session loop, and both as runs of the protocol |
| `Locks.dfy` | the order of the client's locks, and what is waited for under them |
| `Framing.dfy`, `Protobuf.dfy`, `Wire.dfy` | the wire |
| `Matrix.dfy`, `Retry.dfy` | the parallel product, the backoff |
| `Util.dfy` | minimum and maximum |

How to read the main statements. A schedule is any sequence of steps of any tasks; a step
that cannot happen leaves the state alone, so `forall schedule` ranges over every
interleaving. `Literal` is the code as it stands; `Duplex` lets calls write while a
handler reads, as the parallel calls of `examples/rpc_client.rs` intend. Timeouts, failed
sends, end of stream, aborted sessions and undecodable responses are steps that may happen
at any time. Services are arbitrary relations between what they are asked and what they
may answer.

What the proofs bring out about the code:

- A handler takes the stream out of the slot for as long as it reads, so nothing can be
  written to that stream meanwhile, and a call that finds the slot empty returns
  `ConnectionClosed` (`Streams.SilentWhileHeld`, `Streams.RefusedWhenSlotEmpty`). The
  example client's parallel calls work only until its handler starts.
- Replies are correlated in every run with at most 2^64 calls, and one call more is enough
  to hand a caller somebody else's response (`Witness.CorrelatedIff`).
- A call that times out or cannot be sent leaves its entry in the pending map; the map's
  size is accounted for exactly (`Callers.PendingAccount`).
- Waiting for locks never deadlocks by itself, but a call waits for the transport to take
  its request while it holds the stream lock, and `close` for the session to close while it
  holds the session lock. As long as such a wait lasts, tasks that want the lock stand
  still, among them the response handler that has yet to take the stream
  (`Locks.NoDeadlock`, `Locks.SendHoldsUpHandler`).
- A transport that ends right after the length of a message looks like a clean end
  (`Framing.TruncationNoticed`).
- `ProtobufCodec` does not frame: a list of messages survives its buffer only when it is
  empty or a single message that is not all defaults (`Protobuf.ThroughCodec`).
- A service registered under a name with a dot is never reached
  (`Routing.ReachableIffUndotted`).
- Cut to whole milliseconds, a one-millisecond delay need never grow, and a cap below two
  milliseconds that is not whole does not hold (`Retry.ReachesCapIff`, `Retry.CapStaysIff`).

## Model

| member | source | states |
|---|---|---|
| Registrations.OwnLatestReplies | src/client.rs:184-238 | end to end: over any interleaving a reply or remote failure a caller returns goes back to one lookup of the method and payload that very caller asked for, and is what the service last registered under the requested name before that lookup may answer, as long as the calls in play never span more than 2^64 ids |
| Delivery.OwnReplies | src/client.rs:184-238 | over every interleaving of calls, connects, handlers, closes and sessions, a reply or remote failure a caller returns is a possible outcome of the method and payload that very caller asked for, as long as the calls in play never span more than 2^64 ids |
| Correlation.AskedRequest | src/client.rs:190-205 | what a call sends, for as long as the client lives, is the method and payload its caller passed, under the number of the call modulo 2^64 |
| Correlation.AskedSomewhere | src/client.rs:193-205 | every call there is was begun by a step of the run |
| Correlation.AskedOnce | src/client.rs:193-205 | and by only one |
| Delivery.ShortRunsInWindow | src/client.rs:193-198 | a client that makes at most 2^64 calls is always within that span |
| Delivery.EntriesOwnRegister | src/client.rs:211-214 | within the span, no registration takes the pending entry of another call whose response may still come |
| Delivery.RemoveOwn | src/client.rs:155-158 | within the span, the sender a handler finds under a response's id is that of the call the response answers |
| Witness.CorrelatedIff | src/client.rs:193-233 | in all runs with at most n calls all replies are possible outcomes of what their callers asked for exactly when n is at most 2^64 |
| Witness.WrapMisdelivers | src/client.rs:193-214 | a run of 2^64 + 1 calls in which a caller returns a failure that is no possible outcome of what it asked for |
| Witness.SomeReplyIsDelivered | src/client.rs:61-181 | some run in which a call is written while the stream is in the slot and its handler has not started, then the handler takes the stream, and the reply is returned: for any undotted service name, method and payload |
| Correlation.RepliesAreAnswers | src/client.rs:152-173 | with no assumption at all, what a caller returns is what the server may answer to a call with the same id modulo 2^64 |
| Correlation.BackedIsAnswer | src/server.rs:162-232 | the k-th response handled on a stream is a possible outcome of the k-th request written to it, and carries its id |
| Callers.SettledForever | src/client.rs:155-172 | a one-shot channel is resolved at most once and a returned result never changes, in any continuation |
| Outcomes.OutcomeIff | src/client.rs:217-237 | a call has returned an outcome exactly when some step of the run ended it so: a failed encoding, a send refused with an empty slot, a failed write, the timer, or its settled channel - reply, carried failure, undecodable reply, or `ConnectionClosed` when the sender is gone |
| Outcomes.WrittenAsAsked | src/client.rs:217-225 | the requests on a stream are, in order, those of the calls that sent on it or whose write failed after arriving, each as its caller asked |
| Callers.NoLostWaiter | src/client.rs:208-233 | a waiting call's sender is in the pending map under its own id, in the hand of one handler about to send on it, used, or was dropped by a step of the run that registered another call over its entry |
| Callers.DroppedIffOverwritten | src/client.rs:211-214 | the sender of a call that has not returned is dropped exactly when some step of the run registered another call under its id while its own entry was pending |
| Callers.NoDropWithoutWrap | src/client.rs:193-214 | a client that makes at most 2^64 calls drops no waiter |
| Callers.SameIdIff | src/client.rs:193-198 | two calls share an id exactly when 2^64 divides the distance between them, across reconnects |
| Callers.OverwriteClosesOlder | src/client.rs:211-233 | a registration that overwrites an entry drops the older sender for good; that call can only return `ConnectionClosed`, or `Timeout` if its timer fires first |
| Callers.CloseSettles | src/client.rs:241-260 | when `close` drains, pending, slot and session are empty, everyone pending has been told `ConnectionClosed`, and nothing later changes that |
| Callers.PendingAccount | src/client.rs:155-257 | the size of pending is registrations minus overwrites, removals and drained entries; each entry left is that of a call under its own id with an unused channel, which is about to send, waits, or came back with a failed encoding, a closed connection, a failed write or a timeout |
| Invariants.BooksInsert | src/client.rs:208-214 | registering moves the sender into the map and keeps every other sender accounted for |
| Invariants.BooksDrain | src/client.rs:253-257 | draining leaves no sender unaccounted for |
| Invariants.StreamLookup | src/server.rs:168-201 | routing a request keeps its stream in order, whichever of the refusals or the call it leads to |
| Invariants.InvReached | src/client.rs:61-260 | ids, senders, streams and message order are consistent after every schedule, in both send modes |
| Streams.ExactlyOnePlace | src/client.rs:99-251 | through connect, take, put-back, close and overwritten slots, each opened stream is at exactly one place: a connect task, the slot, one handler, or dropped |
| Slot.ConnectOpens | src/client.rs:89-96 | a connect holds a new and empty stream |
| Slot.ConnectStoresSession | src/client.rs:100-104 | after any run, unless `close` is under way, a connect stores its session and nothing else changes |
| Slot.ConnectStoresStream | src/client.rs:105-112 | after any run a connect stores its stream over any older one, which is gone, and starts one more handler |
| Slot.HandlerTakes | src/client.rs:124-133 | after any run a handler that starts takes the stream out of the slot and holds it, or exits when there is none |
| Slot.HandlerPutsBack | src/client.rs:175-177 | after any run a handler that ends puts its stream back over any newer one, which is gone, and exits; and then every call about to send can write to it |
| Slot.CloseSteps | src/client.rs:241-260 | after any run each block of `close` does what it says: session gone; slot empty, its stream gone and the slot locked; pending map empty and the slot free again |
| Progress.CallGoesOn | src/client.rs:208-233 | in every reachable state a call can take its next step: register; write, or fail to, when there is a stream; be refused when there is none; time out; and return as soon as, and only when, its channel is settled |
| Progress.WritesToSlotOnly | src/client.rs:219-225 | as the code stands a call can write to a stream exactly when it is about to send, the slot holds the stream, and `close` does not keep it locked |
| Progress.WritesToOpenStreams | examples/rpc_client.rs:71-81 | in full duplex it can write to exactly the streams that have not been dropped |
| Progress.ConnectGoesOn | src/client.rs:100-109 | a connect can store its session and its stream as soon as, and only when, `close` lets it |
| Progress.HandlerGoesOn | src/client.rs:124-177 | a handler can take, read, look up, send and put back whenever the lock or the input it needs is there, and only then |
| Progress.SessionGoesOn | src/server.rs:162-233 | a session takes up a request exactly when idle with one queued, looks up what it took, ends a call with exactly what the service may answer or a timeout, and can end until it has |
| Streams.WritesExcludeHolders | src/client.rs:219-225 | as the code stands, a call never writes to a stream that a handler or a connect task holds |
| Streams.SilentWhileHeld | src/client.rs:124-177 | as the code stands, nothing is written to a stream from the moment a handler takes it until it puts it back |
| Streams.RefusedWhenSlotEmpty | src/client.rs:219-221 | a registered call that finds the slot empty can write nowhere, returns `ConnectionClosed`, and leaves its pending entry behind |
| Streams.LiteralRefinesDuplex | examples/rpc_client.rs:71-81 | every state the code reaches is reached by the full-duplex protocol |
| Streams.Fifo | src/server.rs:162-233 | in every state of every stream the ids written are, in order, those of handled responses, queued responses, the request being served and queued requests |
| Streams.AbortedForGood | src/server.rs:162-233 | after a session has ended nothing more is answered on its stream: the responses stay those to a prefix of its requests |
| Streams.AnsweredAtMostOnce | src/client.rs:216-225 | no two answers, on one stream or two, are to the same call |
| Registrations.AnsweredByLatestService | src/server.rs:186-228 | each response goes back to one lookup of its own request and is, field by field, a reply or fault the service last registered under that name before that lookup may give, a timeout, or the refusal, even if the service is replaced during the call |
| Registrations.RegistryIsLatest | src/server.rs:48-52 | after any schedule the services map holds, for each name, what was last registered under it |
| Locks.NoDeadlock | src/client.rs:102-260 | for any number of tasks: from each task that waits for a lock, a chain of at most four waits leads to a lock holder that can go on by itself, or waits for the transport to take a request or to close the session; never to one that waits for a message, a reply or another lock |
| Locks.SendHoldsUpHandler | src/client.rs:124-225 | the exception is real: in some run a handler waits for the stream lock of a call whose write the transport has not taken, and no task can go on by itself |
| Locks.ProgramsOrdered | src/client.rs:102-260 | every task takes every lock above those it holds in the order session, stream, pending, id, and ends with none, for any number of turns of the receive loop |
| Locks.Traces | src/client.rs:102-260 | which locks each kind of task takes and where it waits for the network, in order, for any number of responses |
| Locks.CloseKeepsLocks | src/client.rs:241-260 | `close` gives no lock back before it has drained: it then holds the session, stream and pending locks |
| Locks.NetworkWaitHolds | src/client.rs:136-246 | a task that waits for a message, a reply or a connection holds no lock; one that waits for a write holds exactly the stream lock, and one that waits for the session to close exactly the session lock |
| Locks.ChainFrom | src/client.rs:241-254 | the chain of waits from a blocked task climbs in rank, and ends at a holder that can go on by itself or waits for the transport |
| ClientObject.Client.AllocateId | src/client.rs:193-205 | the call takes the counter's value as its id, the counter wraps on, and the request is what the caller passed; ties to the protocol's step |
| ClientObject.Client.RegisterCall | src/client.rs:208-214 | inserts the sender under the call's id, dropping an older one; ties to the protocol's step |
| ClientObject.Client.SendRequest | src/client.rs:218-225 | with an empty slot returns `ConnectionClosed`; otherwise writes, or fails with the request arrived or not; the write appends the call's own request; ties to the protocol's steps |
| ClientObject.Client.AwaitReply | src/client.rs:227-237 | returns `Timeout` when the timer fires first, and else what the channel says, `DecodingError` for a reply that does not decode, `ConnectionClosed` when the sender is gone; ties to the protocol's steps |
| ClientObject.Client.StoreConnection | src/client.rs:101-112 | stores session and stream, dropping a stream left in the slot, and spawns a handler; ties to the protocol's steps |
| ClientObject.Client.TakeStream | src/client.rs:124-133 | takes the stream out of the slot, or exits when there is none; ties to the protocol's step |
| ClientObject.Client.ReadResponse | src/client.rs:136-150 | reads the oldest response of its stream, and keeps or skips it; ties to the protocol's steps |
| ClientObject.Client.TakeSender | src/client.rs:155-166 | removes the entry under the response's id, if there is one, and nothing else; the value to send is the error's text or the payload, empty when absent |
| ClientObject.Client.SendValue | src/client.rs:162-170 | tells the caller the value, unless it has returned; ties to the protocol's step |
| ClientObject.Client.PutStreamBack | src/client.rs:175-177 | puts the stream back, dropping one that was there, and exits; ties to the protocol's step |
| ClientObject.Client.HandleResponses | src/client.rs:136-173 | the receive loop equals `HandleAll`, for any pattern of undecodable responses and wherever the transport ends or fails |
| ClientObject.Client.RunHandler | src/client.rs:119-181 | a handler from start to end: the slot holds the same stream as before, its first responses have been read in order, and the handler has exited |
| ClientObject.HandleAllSettles | src/client.rs:136-173 | each pending call is told the first readable response with its id among those read, or left pending when there is none |
| ClientObject.HandleAllReads | src/client.rs:136-141 | the receive loop takes responses from its stream's queue in order, touches no other stream, and keeps hold of its own |
| ClientObject.Client.DrainPending | src/client.rs:253-257 | in whatever order the map is drained, exactly the calls in it are told `ConnectionClosed`, and it ends empty |
| ClientObject.Client.Close | src/client.rs:241-260 | leaves pending, slot and session empty and the slot free, drops the stream, and tells exactly the pending calls `ConnectionClosed`; equals the three steps of the protocol |
| Refinement.ReceiveLoopIsRun | src/client.rs:136-173 | the receive loop is a run of the protocol |
| Refinement.HandlerIsRun | src/client.rs:119-181 | a whole response handler is a run of the protocol |
| Refinement.SessionIsRun | src/server.rs:145-236 | the whole session loop is a run of the protocol for any input, any number of writes the transport takes and any registrations meanwhile: same responses, same registry, the request whose answer could not be written is still held, and the session has stopped |
| Refinement.ServeStream | src/server.rs:145-236 | the session loop as run by the server object leaves the responses and the services map that a run of the protocol does |
| Refinement.SessionTurnIsRun | src/server.rs:168-232 | one turn of the session loop is a run of the protocol's server steps and appends exactly the response the loop sends |
| Session.HandleSession | src/server.rs:162-236 | emits, in order, the answers to the decodable prefix of its input up to the first failed write, each from the registry at its own lookup, reads no further than it must, and ends as the first failure says |
| Session.AnswerRequest | src/server.rs:168-232 | one turn sends, or fails without sending, under the request's id: the refusal of a malformed name or an unknown service with its text, the service's reply, its fault with its own text, or "Request timeout" |
| Session.EveryRequestAnswered | src/server.rs:162-233 | each request before the first failure gets one response in order under its own id: a refusal with its text, or from the service last registered under the name its reply, its fault with its own text, or a timeout |
| Session.EndingIff | src/server.rs:162-236 | the loop reaches the end of the stream exactly when everything decodes and every answer can be written; otherwise it is stopped by the first item that is not a request or the first answer too many, whichever comes first |
| Dispatch.AfterAllFinds | src/server.rs:48-52 | after any registrations a lookup finds the last one under its name, or else what was there first |
| Session.AnswersPossible | src/server.rs:203-228 | what a session sends is a possible outcome under the registry at its lookup |
| Dispatch.RespondSays | src/server.rs:168-228 | field by field: id, payload, error text and what it means to the caller, for a malformed name, an unknown service, a reply, a fault and a timeout |
| Dispatch.AnswerIffReplied | src/server.rs:168-228 | a caller gets bytes exactly when its request reached a service that replied with them |
| Dispatch.RegistrationInertIff | src/server.rs:48-52 | registering under a name changes no response to any request exactly when the name holds a dot or was taken |
| Routing.FormatRoundTrip | src/utils.rs:98-100 | splitting a formatted name gives back service and method exactly when the service has no dot, whatever the method is |
| Routing.SplitRestores | src/server.rs:168-183 | joining a successful split restores the name, and its service half has no dot |
| Routing.MalformedIffNoDot | src/server.rs:168-169 | a name is refused as malformed exactly when it has no dot |
| Routing.ReachableIffUndotted | src/server.rs:182-187 | some request reaches what is registered under a name exactly when the name has no dot |
| Framing.FrameFormat | src/transport.rs:19-24 | a frame is the length in four bytes, most significant first, then the message, for any message up to 16 777 216 bytes |
| Framing.ParseIff | src/transport.rs:19-44 | any bytes read as messages and a rest exactly when they are those messages' frames and a rest with no whole frame, and fail exactly when that rest announces more than 16 777 216 bytes |
| Framing.FramesRoundTrip | src/transport.rs:19-24 | reading framed messages of at most 16 MiB, followed by anything, yields them and goes on with what follows |
| Framing.Framed.Send | src/transport.rs:32-35 | a message is queued with its length exactly when it is at most 16 MiB; a longer one is refused and leaves nothing behind |
| Framing.Framed.Decode | src/transport.rs:38-44 | one turn of the incremental decoder agrees with reading all unread bytes at once |
| Framing.Framed.Feed | src/transport.rs:38-44 | a chunk yields exactly the messages it completes, and an announced message over the limit stops the stream |
| Framing.AnyChunking | src/transport.rs:19-44 | however the frames of any messages are cut into chunks, exactly those messages come out, in order, and the end is clean |
| Framing.PrefixOfFrames | src/transport.rs:19-44 | any prefix of the bytes yields a prefix of the messages |
| Framing.ParseConcat | src/transport.rs:19-44 | reading on from what was left equals reading everything at once |
| Framing.TruncationNoticed | src/transport.rs:38-44 | an early end passes as clean exactly when it comes after a whole message or right after the length of one, which is then not empty and lost |
| Protobuf.RequestDecodesIff | src/protos/service.proto:6-13 | every request - any 64-bit id, method and payload - decodes to itself exactly when its method is UTF-8; the payload is any bytes |
| Protobuf.ResponseDecodesIff | src/protos/service.proto:16-23 | every response decodes to itself exactly when its error is UTF-8; the payload is any bytes |
| Protobuf.WireFormat | src/protos/service.proto:6-23 | the bytes on the wire: keys 0x08, 0x12 and 0x1A, the id as a varint, lengths before the other two, defaults left out |
| Protobuf.DecodesFields | src/protos/service.proto:6-23 | any sequence of well-formed fields, in any order and repeated, decodes as its fields say one after the other; a field of the wrong kind, text that is not UTF-8 or one nested too deep is refused |
| Protobuf.Utf8Iff | src/protos/service.proto:10-10 | the bytes accepted as text are exactly the UTF-8 encodings of sequences of Unicode scalar values |
| Protobuf.RoundTrip | src/protos/service.proto:6-23 | decoding an encoded request or response returns it: any 64-bit id, text and bytes, defaults omitted |
| Protobuf.ConcatenationMerges | src/transport.rs:75-105 | two encodings back to back decode as their field-wise merge, later non-default values winning |
| Protobuf.VarintRoundTrip | src/protos/service.proto:8-8 | every 64-bit number survives the varint encoding in at most ten bytes, whatever follows |
| Protobuf.VarintMeans | src/protos/service.proto:8-8 | the encoding of a number is the shortest base 128 varint that stands for it |
| Protobuf.ReadVarintIff | src/protos/service.proto:8-8 | exactly the varints of at most ten bytes that stand for a 64-bit number can be read, and as that number |
| Protobuf.UnknownFieldSkipped | src/protos/service.proto:6-23 | a well-formed field of an unknown tag - number, fixed width, bytes or nested groups - between any two messages' fields changes nothing exactly when it nests at most a hundred deep; a deeper one makes the message undecodable |
| Protobuf.SkipExactly | src/protos/service.proto:6-23 | a well-formed field is skipped to its last byte exactly when it nests within the bound, whatever follows |
| Protobuf.ThroughCodec | src/transport.rs:75-105 | a list encoded into one buffer and decoded until nothing is left comes back as at most one message, the merge; it survives exactly when empty or a single message that is not all defaults |
| Protobuf.DecodeItem | src/transport.rs:75-88 | an empty buffer yields nothing, a decodable one its message and is cleared, and an undecodable one an error and is kept |
| Wire.OverTheWire | src/transport.rs:19-44 | requests with any UTF-8 method, or responses with any UTF-8 error, and any payload, up to 16 MiB each, encoded, framed, written and cut into chunks by any transport arrive as sent, none merged, split or lost |
| Wire.SendAll | src/transport.rs:32-35 | writing messages one after the other puts exactly their frames on the stream |
| Wire.ArrivedPrefix | src/lib.rs:108-138 | what has been decoded from any prefix of the bytes is a prefix of the messages sent |
| Matrix.CellIsFold | examples/rpc_server.rs:155-160 | cell (i, j) is the left fold from zero of a[i][k] * b[k][j] over k, for any arithmetic |
| Matrix.ScheduleIndependent | examples/rpc_server.rs:146-166 | however the steps of the row tasks interleave, a finished scope holds in each cell the left-to-right sum of products |
| Matrix.AlwaysProgressing | examples/rpc_server.rs:150-163 | at every moment each cell is untouched or final, and each task's sum is its own |
| Matrix.TurnsCountDown | examples/rpc_server.rs:150-163 | every turn of any task brings the end one turn nearer |
| Matrix.EveryScheduleEnds | examples/rpc_server.rs:146-166 | no schedule takes more than n (n (n + 1) + 1) turns; it is complete exactly when it has taken that many, and exactly when no turn is possible, and then it holds the product |
| Matrix.MultiplySequentially | examples/rpc_server.rs:154-160 | the sequential triple loop computes the same cells |
| Matrix.MultiplyInParallel | examples/rpc_server.rs:146-166 | with turns chosen in any way the product ends, with the same result |
| Retry.RetryWithBackoff | src/utils.rs:45-82 | stops at the first success; fails only after the last attempt allowed, with that attempt's error; sleeps the initial delay first, and then each time the last sleep in whole milliseconds, doubled, times 0.8 + 0.4 of the draw, cut to whole 64-bit milliseconds and capped |
| Retry.Backoff | src/utils.rs:73-78 | for every draw each delay follows so from the last; from the first computed one on they are never above the cap, never decrease, and are at the cap or have grown by 1.6 a step above the offset 5/3 |
| Retry.EveryJitterDrawn | src/utils.rs:74-74 | every factor from 0.8 to below 1.2 can be drawn |
| Retry.CapStaysIff | src/utils.rs:75-78 | a delay at the cap stays there for every jitter exactly when the cap fits 64-bit milliseconds and is whole milliseconds or at least two |
| Retry.ReachesCapIff | src/utils.rs:73-78 | the delays reach the cap for every jitter exactly when the first is at least two milliseconds or its whole milliseconds are not below the cap |
| Retry.GrowsAtMost | src/utils.rs:74-78 | delays grow by at most 2.4 a step |

## Left out

- QUIC, HTTP/3 and WebTransport setup, certificates and TLS (`src/config.rs`, `handle_connection`): foreign libraries; `connect` is a fresh stream appearing, and a failed `connect` does nothing.
- Language bindings, command line, logging, benches and the helpers of `src/utils.rs` other than retrying and name formatting: no protocol state.
- JSON encoding and `JsonCodec`: serde_json is not part of this model. The protocol carries messages as values, so it does not depend on the format.
- `Request` and `Response` of `src/lib.rs` have no protobuf implementation of their own; the byte level models `RequestProto` and `ResponseProto` of the schema, with text as UTF-8 bytes, while the protocol and the session loop use the types of `src/lib.rs`.
- The framing library's body is not in the repository: `Framing` follows the configured parameters and the documented behaviour of its length-delimited codec and of decoding at end of stream.
- Cancelling a `call` by dropping its future is modelled for locks (`Locks.Abort`), not in the protocol.
- The deserialization of a reply by the caller is one step that may fail; the reply's own type is not modelled.
- In `Protocol` a block that holds a lock over an await (sending, closing the session) is one step; what is waited for under locks is the subject of `Locks`.
- Flow control: whether a write or the close of a session ever ends is up to the transport and the other side, which `Locks` treats as waits of unknown length.
- The server's read lock on the services map, which one branch holds while it writes a refusal, is not modelled; a lookup and a registration are single steps.
- `ClientObject` runs each task's blocks without interruption and with the ends of the streams as values; interleaving is what `Protocol` adds.
- The rounding of floating-point arithmetic: jitter is an exact real, matrix arithmetic is uninterpreted.
- `EchoService` and the rest of `ComputeService`: services are arbitrary relations.
