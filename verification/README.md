# xgen-sandbox: a verified model

xgen-sandbox runs commands in Kubernetes pods. An agent owns the sandboxes, a sidecar in every pod runs the
commands, and SDKs and a browser terminal talk to both over WebSockets. This project models the parts of that system
that carry state, concurrency, parsing or arithmetic, and proves what they promise, for every input and every run.
`dafny verify dfyconfig.toml` checks everything.

| file | what it models |
|---|---|
| `Integers.dfy` | the fixed-width integers and 64-bit wrap-around |
| `Codec.dfy` | the binary envelope and sequences of its frames |
| `ExecProducer.dfy` | the sidecar's goroutines for a command, as a machine over every interleaving of any number of sessions |
| `StreamOutput.dfy` | the loop of one stream goroutine with its reused buffer and failing writes, tied to that machine's steps |
| `ExecConsumer.dfy` | the agent's synchronous exec, and its agreement with every schedule of the sidecar |
| `ExecStream.dfy` | the TypeScript SDK's streaming exec: handlers, queue, sleeping generator, and its agreement with every schedule of the sidecar |
| `Transport.dfy` | the TypeScript SDK's request/response transport: ids, timers, close, late answers, handler dispatch |
| `RateLimiter.dfy` | the windowed token bucket and its cleanup |
| `Text.dfy` | string splitting, joining, trimming and sorting as the agent uses them |
| `PoolKeys.dfy` | capability sets, pool keys, pod labels |
| `WarmPool.dfy` | pools, pod cache, ready callback, claims, over every run of watch events and claims |
| `Requests.dfy` | what the API checks and fills in before a sandbox is created |
| `Provision.dfy` | creating and deleting a sandbox across registry, pool, cache and cluster, with rollback |
| `Annotations.dfy` | sandbox state as pod annotations |
| `Recovery.dfy` | the sandbox registry, its expiry, and its recovery after a restart |
| `Preview.dfy` | preview URLs and the host dispatch that reads them back |
| `TerminalMsgpack.dfy` | the terminal's hand-written MessagePack encoder against a decoder of the format |
| `FileWatcher.dfy`, `PortDetector.dfy` | the two polling change detectors |
| `Paths.dfy` | workspace path resolution and the walk to the nearest existing ancestor |
| `Audit.dfy` | the bounded audit history and its pages |

State machines and their runs are written on values (a run is a sequence of steps, and theorems quantify over all of
them). Objects that the source updates in place are classes whose methods are proved to take exactly the machine's
step; loops of the source are loops here, with the order of Go's map iteration left open.

## Where the code falls short of what it is for

Each of these is proved, most of them together with the exact condition under which the code does meet the property.

- A claimed warm pod keeps its warm label and name. The watch event that reports it ready, after the cache had it as not
  ready or not at all, puts it back into the pool, and nothing else does (`WarmPool.WarmAgainExactly`); then a second
  sandbox can get the same pod (`WarmPool.OnePodForTwoSandboxes`, `WarmPool.ClaimedAsOftenAsPut`).
- After a restart the sandbox such a pod serves is forgotten (`Recovery.RestoredIds`). Deleting that sandbox leaves the
  pod and a cache entry behind, through every further run of creations, deletions, refills and watch events that reuses no
  id (`Provision.ClaimedPodOutlivesSandbox`, `Provision.StrandedForGood`): the pod stays in the cluster exactly until a
  deletion by its warm id (`Provision.InClusterExactly`), and is pooled again exactly by such a watch event
  (`Provision.BackInPoolExactly`).
- Keeping a sandbox alive is not written to its pod, so a restart brings the first expiry back
  (`Recovery.KeepAliveIsForgotten`).
- Pool keys are joined with `/` without escaping, and templates are not restricted: two pools share a key exactly when one
  template reads like the other's whole key (`PoolKeys.KeysCollideExactly`). A comma in a capability would do the same,
  but neither the API, nor the configuration, nor a label lets one through.
- The channel the sidecar picks for channel 0 can be one a client already uses. Before the counter wraps around, channels
  stay distinct exactly when the clients' own channels differ from each other and from 100 plus the number of every pick
  (`ExecProducer.ChannelsDifferExactly`); a session's channel keeps to the grammar of a command exactly when nobody else
  writes on it (`ExecProducer.GrammarExactlyWhenAlone`, `ExecProducer.PickedChannelCanCollide`).
- A message handler that removes itself while being called hides the next one (`Transport.AllCalledIff`,
  `Transport.BroadcastReachesHalf`).
- A request whose send throws leaves its entry and timer behind until an answer with its id, its timer, or a close comes
  (`Transport.LingersExactly`).
- With a rate below one, the limiter's cleanup can be observed (`RateLimiter.InvisibleExactlyWithTokens`).
- A timeout of more than 292 years wraps around, and the sandbox can have expired before it is created
  (`Requests.LivesAsAskedExactly`, `Requests.CanExpireAtOnce`).
- An audit query panics when an offset within the history and a limit leave 64 bits together, which can come in over the
  API, and for a negative offset, which cannot (`Audit.PanicsExactly`). A store without room panics at the first entry
  (`Audit.Store.Add`).
- The terminal's encoding of an object does not come back from a MessagePack decoder if it has sixteen or more members, a
  key or list item of 256 bytes or more, a list of sixteen items or more, a string of 65536 bytes or more, or a value of an
  unknown kind; else it does
  (`TerminalMsgpack.ComesBackExactly`, `TerminalMsgpack.DecodesIffAllKnown`).
- The prefix checks on paths compare text: a clean path beside the root passes exactly when it goes on in the root's last
  element (`Paths.PrefixMeansWithin`). The first check needs a clean root, and the walk for a missing root looks above it
  (`Paths.FirstCheckNeedsCleanRoot`, `Paths.WalkIsConfinedIff`).

## Model

| member | source | states |
|---|---|---|
| Codec.Encode | agent/pkg/protocol/codec.go:13-20 | the buffer filled in place is the frame: type, big-endian channel and id, payload |
| Codec.FrameBytes | agent/pkg/protocol/codec.go:13-20 | byte by byte: type, channel and id with the highest byte first, payload |
| Codec.DecodeFrame | agent/pkg/protocol/codec.go:23-33 | decoding a frame gives the envelope back |
| Codec.DecodeExactly | agent/pkg/protocol/codec.go:23-33 | an input decodes if and only if it has nine bytes, and to an envelope exactly when it is that envelope's frame |
| Codec.FramesDecode | sidecar/internal/ws/server.go:56-75 | the frames of a sequence of messages decode one by one to the messages |
| ExecProducer.SessionStepKeepsInv | sidecar/internal/ws/server.go:217-296 | every step of handler, stream goroutines and waiter keeps the session's invariant: bytes sent plus the chunk in flight are the bytes read, the WaitGroup counts the live readers, the exit waits for both |
| ExecProducer.ReachableInv | sidecar/internal/ws/server.go:217-296 | the invariant holds of every session after every interleaving of any number of sessions with the replies to all other requests and events on the connection |
| ExecProducer.SessionsServeRequests | sidecar/internal/ws/server.go:217-281 | after every schedule the i-th session is the i-th request's: its process, its standard output and, without a terminal, its standard error under their own streams, its exit code; or the request's own refusal |
| ExecProducer.ChannelTraceIsFaithful | sidecar/internal/ws/server.go:217-296 | the i-th request's client, if nobody else writes on its channel, finds there a prefix of Ack (Stdout or Stderr)* Exit with the process's number, chunks of 1 to 4096 bytes that add up to a prefix of what the process wrote to each stream, the whole of it and its exit code with the exit; a refused start finds exactly its one error; a completed session has sent it all |
| ExecProducer.ChannelIsSession | sidecar/internal/ws/server.go:238-247 | what a client that filters by a channel sees is what the session alone on it wrote, in order |
| ExecProducer.ClosedAfterStreams | sidecar/internal/ws/server.go:272-280 | the process is released only after it exited and both readers finished |
| ExecProducer.NeverStuck | sidecar/internal/ws/server.go:217-296 | an unfinished session always has a step that brings it nearer its end |
| ExecProducer.RunsToCompletion | sidecar/internal/ws/server.go:217-296 | from every reachable state each session can be finished by its own goroutines alone, the others untouched |
| ExecProducer.GrammarExactlyWhenAlone | sidecar/internal/ws/server.go:238-296 | from any reachable state, a session's channel follows the grammar of a command however the goroutines go on, if and only if no other session has it and no other reply was written on it |
| ExecProducer.SharedChannelBreaks | sidecar/internal/ws/server.go:238-296 | two sessions on one channel: their goroutines alone can bring the channel out of the grammar, from every reachable state |
| ExecProducer.ChannelsFollowRequests | sidecar/internal/ws/server.go:238-242 | every session has the channel its request got, read off the requests alone: its own, or 100 plus the number of picks so far in 32 bits |
| ExecProducer.ChannelsDifferExactly | sidecar/internal/ws/server.go:238-242 | until the counter wraps around, no two sessions share a channel if and only if the clients' channels differ from each other and from 100 plus each pick's number |
| ExecProducer.PickedChannelCanCollide | sidecar/internal/ws/server.go:238-242 | an instance: a client on channel 101 and the first request on channel 0 share it, and some continuation leaves the grammar |
| StreamOutput.Reader.Read | sidecar/internal/ws/server.go:286 | a reading of any size into the buffer, perhaps with the final error, which comes only after everything |
| StreamOutput.Connection.Write | sidecar/internal/ws/server.go:483-485 | a write is taken or fails, and after a failure none is taken: what arrives is a prefix of what is sent |
| StreamOutput.Server.SendEnvelope | sidecar/internal/ws/server.go:467-486 | writes the envelope's frame to the message's connection, else to the active one, else nowhere; a failing write is ignored |
| StreamOutput.Server.StreamOutputTo | sidecar/internal/ws/server.go:283-296 | the loop over one reused buffer terminates and takes exactly the machine's Read and Send steps until everything is read, sending exactly their frames, whether or not writes fail |
| StreamOutput.Server.SendCopy | sidecar/internal/ws/server.go:288-290 | what is sent is the reading, whatever happens to the buffer later |
| StreamOutput.ReadingIsSteps | sidecar/internal/ws/server.go:283-296 | one turn of the loop is a Read step, and a Send step if bytes came |
| ExecConsumer.ExecSync | agent/internal/proxy/ws_proxy.go:186-243 | the read loop answers as specified: first message discarded, undecodable frames and other types skipped, output in order, exit or error ends it |
| ExecConsumer.ConsumeIsStable | agent/internal/proxy/ws_proxy.go:211-242 | once decided, later messages do not change the answer |
| ExecConsumer.DecidedByFirstEnd | agent/internal/proxy/ws_proxy.go:211-242 | the call is undecided if and only if no Exit or Error came, and refused if and only if an Error came before any Exit, on whatever channel |
| ExecConsumer.ConsumeFollowsTrace | agent/internal/proxy/ws_proxy.go:211-242 | interleaved with other traffic, a command's messages add up to its own output |
| ExecConsumer.ExecSyncIsExact | agent/internal/proxy/ws_proxy.go:186-243 | for every schedule with one started command and every delivered part of the connection, through encoding and decoding: exactly what the process wrote to stdout and stderr and its exit code, or still waiting with prefixes of both; never still waiting once the exit arrived |
| ExecConsumer.ExecSyncCanFinish | agent/internal/proxy/ws_proxy.go:186-243 | from every reachable state the sidecar alone can bring the call to exactly the process's output and exit code |
| ExecConsumer.ExecSyncRefused | agent/internal/proxy/ws_proxy.go:234-239 | a call whose start is refused answers with the refusal's own code and message, or still waits; never once the error arrived |
| ExecStream.Stream.constructor | sdks/typescript/src/sandbox.ts:156-160 | starts with an empty queue and a sleeping generator |
| ExecStream.Stream.PushEvent | sdks/typescript/src/sandbox.ts:162-168 | appends the event and wakes a sleeping generator |
| ExecStream.Stream.OnMessage | sdks/typescript/src/sandbox.ts:170-197 | the four handlers take the machine's delivery step, errors on channel 0 and undecodable payloads included |
| ExecStream.Stream.Resume | sdks/typescript/src/sandbox.ts:209-226 | a resumed generator yields the oldest event, ends, or sleeps |
| ExecStream.RunKeepsInv | sdks/typescript/src/sandbox.ts:158-225 | under every schedule, yielded plus queued events are the pushed ones in order, and nobody sleeps on a full queue or a pending end |
| ExecStream.NoLostWakeup | sdks/typescript/src/sandbox.ts:158-225 | whenever the generator sleeps it has yielded everything that arrived and no end has arrived |
| ExecStream.ResumesExactly | sdks/typescript/src/sandbox.ts:209-219 | in every run a resumed generator yields the oldest event not yet yielded, or ends if the end has arrived, or sleeps |
| ExecStream.YieldsInOrder | sdks/typescript/src/sandbox.ts:158-225 | until it returns it has yielded a prefix of the events |
| ExecStream.EndsWithEverything | sdks/typescript/src/sandbox.ts:158-225 | if the exit is the last of its channel, a generator that ends has yielded every event once, in order, the exit last |
| ExecStream.Drains | sdks/typescript/src/sandbox.ts:209-219 | after the end has arrived, asking once per queued event and once more ends the generator with everything yielded |
| ExecStream.EventsOnConnection | sdks/typescript/src/sandbox.ts:151-226 | for every schedule of the sidecar the events a client can learn from the connection are its own session's chunks as far as they were sent, and its exit code once the exit was |
| ExecStream.StreamsWholeCommand | sdks/typescript/src/sandbox.ts:151-226 | for every schedule of the sidecar, with any number of commands on the connection, refused ones among them, and every schedule of a client that received any part of it: what was yielded is a prefix of the chunks of what the request's process wrote and its exit code, and a generator that ended of itself yielded all of them, with the process's whole output, stream by stream |
| ExecStream.StreamsRefusal | sdks/typescript/src/sandbox.ts:189-197 | a command whose start is refused yields the refusal's code and message and exit code 1, and nothing else |
| ExecStream.StreamFinishes | sdks/typescript/src/sandbox.ts:209-226 | once the exit is sent and everything has arrived, asking on ends the generator with all the process wrote and its exit code yielded |
| Transport.WsTransport.constructor | sdks/typescript/src/transport/ws.ts:30-45 | ids start at 1, nothing is pending |
| Transport.WsTransport.Request | sdks/typescript/src/transport/ws.ts:121-148 | takes the next id, arms its timer, sends the id in 32 bits; a throwing send rejects the promise but leaves entry and timer |
| Transport.WsTransport.Expired | sdks/typescript/src/transport/ws.ts:130-133 | the timer removes its request and rejects it |
| Transport.WsTransport.CloseTransport | sdks/typescript/src/transport/ws.ts:98-111 | rejects every pending request, in any order, and leaves none |
| Transport.WsTransport.HandleMessage | sdks/typescript/src/transport/ws.ts:180-220 | a message answers a ping, settles the pending request with its id, or goes to the handlers of its type |
| Transport.WsTransport.On | sdks/typescript/src/transport/ws.ts:166-178 | a handler is registered after the others of its type |
| Transport.RunKeepsInv | sdks/typescript/src/transport/ws.ts:98-220 | in every run: pending ids are below nextId and have armed timers, every issued request is settled or pending, and a promise is resolved only with a message of its own id that is neither Error nor Ping |
| Transport.SettledForGood | sdks/typescript/src/transport/ws.ts:129-145 | a settled promise never changes |
| Transport.UnsettledCanExpire | sdks/typescript/src/transport/ws.ts:130-145 | an unsettled request can always expire, and its timer, an answer, or close settles it |
| Transport.ConsumesAtMostOne | sdks/typescript/src/transport/ws.ts:200-211 | a message takes away at most the entry of its own id |
| Transport.SettledByItsOwnFirstEvent | sdks/typescript/src/transport/ws.ts:98-220 | supporting: table, timers and promise of a request follow from the events that concern it alone |
| Transport.SettledExactly | sdks/typescript/src/transport/ws.ts:98-211 | in every run a promise is resolved with a message if and only if that message, with its id and no Error or Ping, is the first event that concerns the request after its call went out; rejected by the server, the timer or the close if and only if an Error with its id, its timer or a close is; and as not connected if and only if its send threw |
| Transport.LingersExactly | sdks/typescript/src/transport/ws.ts:98-220 | a settled request is still pending, with its timer armed, if and only if its send threw and no answer with its id, timer of it, or close has come since |
| Transport.AnswerFindsRequest | sdks/typescript/src/transport/ws.ts:200-202 | an answer that repeats the id it was sent finds its request if and only if the id is below 2^32 |
| Transport.FlagsExactly | sdks/typescript/src/transport/ws.ts:51-104 | in every run: closed from the first close on; a socket from its opening to the next close; connected from an open event to the next loss or close; on its way from the opening of a socket to its open, loss or error; and sockets are opened by a connect, or a retry timer before any close, exactly when there is neither |
| Transport.WsTransport.Connect | sdks/typescript/src/transport/ws.ts:51-58 | a new socket unless connected or connecting |
| Transport.WsTransport.OnOpen | sdks/typescript/src/transport/ws.ts:60-65 | connected, with the retry counter back at zero |
| Transport.WsTransport.OnClosed | sdks/typescript/src/transport/ws.ts:81-85 | disconnected, and a retry begun if one is left |
| Transport.WsTransport.OnError | sdks/typescript/src/transport/ws.ts:87-92 | no longer connecting, nothing else |
| Transport.WsTransport.AttemptReconnect | sdks/typescript/src/transport/ws.ts:222-235 | no retry after a close on purpose or a fifth attempt, else the next wait |
| Transport.WsTransport.OnRetryTimer | sdks/typescript/src/transport/ws.ts:229-234 | connects unless closed, connected or connecting |
| Transport.WaitsDouble | sdks/typescript/src/transport/ws.ts:222-235 | in every run the waits since the last open are 1, 2, 4, 8, 16 seconds, one for each loss before a close, and never a sixth: the 30 second cap is not reached |
| Transport.DelayIsCapped | sdks/typescript/src/transport/ws.ts:227 | the wait for each attempt, with its cap |
| Transport.CloseIsFinal | sdks/typescript/src/transport/ws.ts:98-116 | after a close nobody undoes, no timer or socket event opens a socket, and every later request is rejected as not connected |
| Transport.Dispatch | sdks/typescript/src/transport/ws.ts:214-219 | the loop over the live handler list calls what the specification calls |
| Transport.AllCalledIff | sdks/typescript/src/transport/ws.ts:166-219 | all handlers are called if and only if none but the last removes itself while being called, also when a function is registered twice |
| Transport.BroadcastReachesHalf | sdks/typescript/src/transport/ws.ts:166-219 | when all handlers remove themselves, exactly every other one is called |
| RateLimiter.Limiter.constructor | agent/internal/server/ratelimit.go:22-30 | starts without buckets |
| RateLimiter.Limiter.Allow | agent/internal/server/ratelimit.go:48-71 | changes only the caller's bucket, by one take |
| RateLimiter.Limiter.Cleanup | agent/internal/server/ratelimit.go:36-44 | removes exactly the buckets idle for more than two intervals, in any order |
| RateLimiter.CleanupIsInvisible | agent/internal/server/ratelimit.go:36-71 | for a rate of at least one, in every run with cleanups at any moments a key is answered as by a limiter of its own without cleanup |
| RateLimiter.InvisibleExactlyWithTokens | agent/internal/server/ratelimit.go:36-71 | no run shows the cleanup if and only if the rate is at least one |
| RateLimiter.WindowBound | agent/internal/server/ratelimit.go:48-71 | a key is allowed at most (k + 1) * rate - 1 times in any half-open window of k intervals, in every run |
| RateLimiter.WindowBoundIsTight | agent/internal/server/ratelimit.go:48-71 | for every rate and k some run of the shared limiter reaches that bound |
| PoolKeys.NormalizeCapabilities | agent/internal/k8s/warm_pool.go:61-83 | the loop computes the normal form |
| PoolKeys.NormalLists | agent/internal/k8s/warm_pool.go:61-83 | the normal form lists exactly the trimmed non-empty capabilities, strictly sorted |
| Text.LatinSpaces | agent/internal/k8s/warm_pool.go:65-70 | supporting: which characters below 256 are trimmed |
| Text.LessExactly | agent/internal/k8s/warm_pool.go:78-83 | supporting: lists are sorted by prefix, else by the first differing character |
| PoolKeys.NormalFixesNormal | agent/internal/k8s/warm_pool.go:61-83 | normalising changes a list if and only if it is not normal, and is idempotent |
| PoolKeys.KeysAreCanonical | agent/internal/k8s/warm_pool.go:42-47 | without '/' in templates and ',' in capabilities, keys are equal if and only if template and capability set are |
| PoolKeys.KeysCollideExactly | agent/internal/k8s/warm_pool.go:42-47 | for any templates, and capabilities without ',' and '/', two different pools share a key if and only if one has no capabilities and its template is the other's template, a slash and the other's capabilities |
| PoolKeys.SlashCollides | agent/internal/k8s/warm_pool.go:42-47 | an instance: a template with '/' shares a key with another template's capability pool |
| PoolKeys.CommaCollides | agent/internal/k8s/warm_pool.go:42-47 | hypothetical, since no such capability gets in: one with ',' would share a key with a different set |
| PoolKeys.PodLabels | agent/internal/k8s/pod_manager.go:357-364 | the labels a pod is created with |
| PoolKeys.CapabilitiesFromLabels | agent/internal/k8s/pod_manager.go:199-214 | in any map order, the sorted list of exactly the capabilities the labels carry |
| PoolKeys.LabelsCarryCaps | agent/internal/k8s/pod_manager.go:357-364 | labels carry exactly the capabilities, and the id and template with them |
| PoolKeys.LabelsSayNoMore | agent/internal/k8s/pod_manager.go:357-364 | supporting: no other labels, the component's name, and "true" for each capability |
| PoolKeys.PodReturnsToItsPool | agent/internal/k8s/warm_pool.go:237-262 | the key from a pod's labels is the key of the spec it was made for |
| PoolKeys.Templates | agent/internal/k8s/warm_pool.go:113-128 | the default templates, then the others with a size, sorted, none twice |
| PoolKeys.Specs | agent/internal/k8s/warm_pool.go:130-142 | one pool per template with no capability and one per template and listed capability, no other |
| WarmPool.PodManager.WatchUpdated | agent/internal/k8s/pod_manager.go:128-156 | the cache takes the event over; the callback fires when ready and not ready before |
| WarmPool.PodManager.Delete | agent/internal/k8s/pod_manager.go:505-507 | drops the cache entry |
| WarmPool.PodManager.RemapPod | agent/internal/k8s/pod_manager.go:541-549 | the pod's entry moves to its new id |
| WarmPool.Pool.constructor | agent/internal/k8s/warm_pool.go:103-151 | all pools empty, all specs normal |
| WarmPool.Pool.ClaimId | agent/internal/k8s/warm_pool.go:177-193 | takes the first ready id of the key out of its pool and keeps the order of the rest; with none ready nothing changes |
| WarmPool.Pool.FindReady | agent/internal/k8s/warm_pool.go:177-193 | the loop of a claim finds the first ready id |
| WarmPool.Pool.MarkReady | agent/internal/k8s/warm_pool.go:210-214 | appends the id to the key's pool |
| WarmPool.Pool.IsWarm | agent/internal/k8s/warm_pool.go:224-235 | true if and only if some pool holds the id |
| WarmPool.Pool.Fill | agent/internal/k8s/warm_pool.go:237-262 | creates what is missing to the target, fewer only after a failure, with warm ids and the spec's labels |
| WarmPool.Pool.Status | agent/internal/k8s/warm_pool.go:283-313 | shows every configured and every non-empty pool with its size and target; the available pods add up to all pods in the pools |
| WarmPool.Pool.StatusOfSpecs | agent/internal/k8s/warm_pool.go:283-297 | the configured pools, each with its size and target |
| WarmPool.Agent.OnWatchUpdated | agent/cmd/agent/main.go:51-76 | cache update and callback are the machine's step, failing connections included, and it tells whether the callback went on to an ordinary sandbox |
| WarmPool.Agent.OnWatchDeleted | agent/internal/k8s/pod_manager.go:156-160 | a deletion event is the machine's step: the cache entry goes |
| WarmPool.Agent.ClaimFor | agent/internal/server/http.go:347-359 | claim and renaming are the machine's step |
| WarmPool.PoolsAreSound | agent/internal/k8s/warm_pool.go:177-235 | in every run an id has at most one slot over all pools; per key, the ids marked are those in the pool plus those claimed, and the pool keeps the order of marking |
| WarmPool.ClaimTakesEarliestReady | agent/internal/k8s/warm_pool.go:177-193 | in every run a claim gets, of exactly its key, the earliest marked id that is ready, and leaves the others in order |
| WarmPool.FiresOnRisingEdge | agent/internal/k8s/pod_manager.go:128-156 | supporting: the callback fires exactly when the cached ready flag rises |
| WarmPool.ClaimEndsWarmth | agent/internal/k8s/warm_pool.go:177-193 | a claimed id is in no pool afterwards |
| WarmPool.WarmExactlyAfter | agent/cmd/agent/main.go:51-76 | an id in no pool is in one after an event if and only if the event reports it ready and reachable, labelled warm, when the cache does not have it as ready |
| WarmPool.WarmAgainExactly | agent/cmd/agent/main.go:51-76 | over every run from a moment an id is in no pool, it is in one at some later moment if and only if such an event occurs |
| WarmPool.StaysClaimed | agent/internal/k8s/warm_pool.go:177-235 | so it stays out until the watch reports that pod again |
| WarmPool.ComesBackWhenReported | agent/cmd/agent/main.go:51-76 | a report of a pod in no pool, still labelled warm, puts it in one if and only if it is ready, its sidecar answers, and the cache does not have it as ready |
| WarmPool.ClaimedAsOftenAsPut | agent/cmd/agent/main.go:51-76 | in every run an id has been claimed as often as it was put in a pool, less once if it is in one now |
| WarmPool.OnePodForTwoSandboxes | agent/cmd/agent/main.go:51-76 | so one pod can be given to two sandboxes |
| WarmPool.FilledPodJoinsItsPool | agent/cmd/agent/main.go:71-72 | a pod made for a spec is marked ready in that spec's own pool |
| WarmPool.StatusAccountsForAll | agent/internal/k8s/warm_pool.go:298-311 | showing further, empty pools does not change the total |
| Requests.CheckPorts | agent/internal/server/http.go:213-230 | accepts exactly the lists of different ports in 1 to 65535 |
| Requests.CheckMetadata | agent/internal/server/http.go:232-246 | accepts exactly at most 20 entries of at most 128 and 1024 characters |
| Requests.CheckCapabilities | agent/internal/server/http.go:248-267 | accepts exactly the three known names; repetitions go, in any order of the map, and a list without any stays as it is |
| Requests.Accept | agent/internal/server/http.go:208-275 | refuses exactly the unacceptable requests, and fills in template, capabilities and the GUI a browser implies |
| Requests.AcceptedExactly | agent/internal/server/http.go:208-275 | supporting: acceptable requests name only the three capabilities, and go on as they came but for an empty template, a browser's GUI and repetitions |
| Requests.AcceptedIsServed | agent/internal/server/http.go:248-304 | whatever order the capabilities come out in: the same pool, capabilities that survive a restart, and preview URLs that are served from their own ports |
| Requests.AcceptablePortsExactly | agent/internal/server/http.go:214-230 | the ports accepted are exactly those whose printed preview URLs are served from them, each listed once |
| Requests.LivesAsAskedExactly | agent/internal/server/http.go:277-283 | the lifetime is what was asked, up to the maximum, if and only if the product stays in 64 bits or wraps to the maximum or more; the default if none was asked |
| Requests.CanExpireAtOnce | agent/internal/server/http.go:277-283 | an instance: the lifetime for 9223372037 seconds is negative |
| Provision.Server.CreateSandbox | agent/internal/server/http.go:203-298 | an unacceptable request changes nothing; an accepted one is registered with its lifetime and provisioned as one step of the world |
| Provision.Server.ProvisionSandboxPod | agent/internal/server/http.go:332-372 | a claimable warm pod is taken, renamed and its address registered as running; else a pod is created, or the registration taken back |
| Provision.Server.OnReport | agent/cmd/agent/main.go:51-90 | a watch event is the machine's step; a sandbox runs at the reported address exactly when the report finds its pod ready, the cache did not, and it is no warm pod's |
| Provision.Server.OnVanish | agent/internal/k8s/pod_manager.go:156-160 | a deletion event is the world's step |
| Provision.Server.DeletePod | agent/internal/k8s/pod_manager.go:493-510 | deletes by the name the id would give, and keeps the cache entry when that fails |
| Provision.Server.DeleteSandbox | agent/internal/server/http.go:394-420 | a missing pod counts as deleted, another error changes nothing |
| Provision.FailureLeavesNoTrace | agent/internal/server/http.go:362-369 | supporting: a creation leaves registry, pools, cache and cluster as before if and only if it fails |
| Provision.WarmPodChangesHands | agent/internal/server/http.go:348-358 | supporting: a warm creation makes no pod more or less, takes one slot, and runs at that pod's address |
| Provision.RunsOnceReady | agent/cmd/agent/main.go:78-84 | over every run of its pod's watch events a sandbox starts until the first that finds the pod ready, and runs from then on, at an address such an event gave |
| Provision.CreateThenDelete | agent/internal/server/http.go:394-420 | creating with a new pod and deleting again changes nothing, whatever the watch has said of the pod in between |
| Provision.ServingPodIsDeletedIff | agent/internal/k8s/pod_manager.go:493-510 | supporting: the serving pod is gone after deletion if and only if it bears the sandbox's own name |
| Provision.ClaimedPodOutlivesSandbox | agent/internal/server/http.go:394-420 | a claimed warm pod and its cache entry stay behind when its sandbox is deleted |
| Provision.DeletionStrands | agent/internal/server/http.go:394-420 | deleting a sandbox served by a claimed pod strands that pod: in the cluster, serving nobody, in no pool |
| Provision.StrandedForGood | agent/internal/server/http.go:332-420 | and over every further run of creations, deletions, refills and watch events that reuses no id and does not delete the warm id it stays so |
| Provision.InClusterExactly | agent/internal/k8s/pod_manager.go:493-510 | over every run a pod is in the cluster if and only if it was there or was made on the way, and no deletion by the id in its name has succeeded since |
| Provision.BackInPoolExactly | agent/cmd/agent/main.go:51-76 | over every run an id in no pool gets into one if and only if a report of it ready and reachable comes when the cache does not have it as ready |
| Annotations.AtoiItoa | agent/internal/k8s/annotations.go:85 | parsing undoes printing for every 64-bit number |
| Annotations.PortsRoundTrip | agent/internal/k8s/annotations.go:82-122 | every list of numbers comes back from its comma-separated text |
| Annotations.MalformedPortsAreDropped | agent/internal/k8s/annotations.go:116-122 | an entry that is no number vanishes and leaves the others as they were |
| Annotations.CapabilitiesRoundTrip | agent/internal/k8s/annotations.go:92-135 | a capability list comes back if and only if no entry is empty, padded or holds a comma |
| Annotations.Encode | agent/internal/k8s/annotations.go:63-102 | writes exactly the keys of non-empty fields, and fails exactly when an object cannot be marshalled |
| Annotations.Decode | agent/internal/k8s/annotations.go:104-146 | each field on its own; what does not parse reads as absent |
| Annotations.GuiExactly | agent/internal/k8s/annotations.go:122-126 | the flag reads as set if and only if its text is one of the six spellings of true |
| Annotations.DecodePorts | agent/internal/k8s/annotations.go:117-121 | the parseable entries in order |
| Annotations.DecodeCapabilities | agent/internal/k8s/annotations.go:129-134 | the trimmed non-empty entries in order |
| Annotations.AnnotationsRoundTrip | agent/internal/k8s/annotations.go:60-146 | decoding undoes encoding if and only if the capability list survives; all other fields always do |
| Annotations.EncodesNothingIffZero | agent/internal/k8s/annotations.go:48-56 | nothing is written if and only if IsZero holds |
| Recovery.Manager.Create | agent/internal/sandbox/manager.go:42-64 | registers a starting sandbox with its expiry |
| Recovery.Manager.SetStatus | agent/internal/sandbox/manager.go:89-95 | sets the status of a known sandbox, nothing else |
| Recovery.Manager.SetPodIP | agent/internal/sandbox/manager.go:98-104 | sets the address of a known sandbox, nothing else |
| Recovery.Manager.Remove | agent/internal/sandbox/manager.go:107-111 | forgets the sandbox |
| Recovery.Manager.ExtendTimeout | agent/internal/sandbox/manager.go:114-123 | moves the expiry of a known sandbox, refuses an unknown one |
| Recovery.Manager.GetExpired | agent/internal/sandbox/manager.go:126-137 | exactly the sandboxes past their expiry that are not stopped, each once, in any order |
| Recovery.Manager.Recover | agent/internal/sandbox/manager.go:146-187 | registers with status by readiness and with stand-ins for missing times |
| Recovery.Reaper.Tick | agent/cmd/agent/main.go:139-166 | after a tick exactly the sandboxes not past their expiry, or stopped, are registered, as they were; put down are exactly those whose deletion failed now, or failed at most 30 seconds ago; the others are forced once |
| Recovery.Reaper.ForceStuck | agent/cmd/agent/main.go:146-154 | forces exactly the deletions pending for more than 30 seconds |
| Recovery.LivesUntilLateTick | agent/cmd/agent/main.go:139-166 | over every run of creations, extensions, marks, removals and ticks, a sandbox is registered exactly until the first tick later than its last expiry, and has that expiry till then |
| Recovery.PendingUntilForced | agent/cmd/agent/main.go:146-164 | over any ticks a failed deletion stays pending until the first tick past the grace period |
| Recovery.RecoverExistingPods | agent/internal/k8s/pod_manager.go:579-633 | one record for every sandbox pod in order, none for warm or unlabelled ones, and the cache filled alike |
| Recovery.CacheHoldsPods | agent/internal/k8s/pod_manager.go:606-615 | every listed sandbox pod is cached under its id with its name, address, readiness, template and capabilities |
| Recovery.RecoverPod | agent/internal/k8s/pod_manager.go:591-630 | annotations first, capabilities from the labels when the annotation has none |
| Recovery.Restart | agent/cmd/agent/main.go:102-131 | the registry after a start is the one the listed pods give, an empty one if listing fails; the sidecars it connects to |
| Recovery.CapabilitiesComeBack | agent/internal/k8s/pod_manager.go:599-604 | exactly which capability lists survive annotation and label fallback together |
| Recovery.AcceptedCapabilitiesSurvive | agent/internal/server/http.go:248-256 | every list of capabilities the API accepts survives |
| Recovery.RestoredExactly | agent/internal/sandbox/manager.go:146-187 | a sandbox with its own pod is restored in every field, status and address as the cluster shows, if and only if its capability list survives |
| Recovery.MissingTimesAreFilled | agent/cmd/agent/main.go:108-118 | a pod without an expiry gets the default from now on, one without a creation time this moment |
| Recovery.RestartIsLossless | agent/cmd/agent/main.go:103-124 | for a whole cluster listing in any order, with other pods among it, the new registry holds exactly the old sandboxes, each restored |
| Recovery.KeepAliveIsForgotten | agent/internal/sandbox/manager.go:114-123 | an extended expiry survives a restart if and only if it is the first one |
| Recovery.RestoredIds | agent/internal/k8s/pod_manager.go:591-596 | the ids restored are exactly those on labels of listed pods, empty and warm ones excepted |
| Recovery.ConnectsToReadyPods | agent/cmd/agent/main.go:122-128 | a start connects to exactly the ready sandbox pods with an address |
| Recovery.ConnectsInOrder | agent/cmd/agent/main.go:122-128 | supporting: in the order of the listing |
| Preview.LastIndexAt | agent/internal/proxy/router.go:28 | the last separator is the one with none after it |
| Preview.ParsesExactly | agent/internal/proxy/router.go:110-135 | a subdomain parses to an id and a port if and only if it is sbx-, the id, a dash, and a port in 1 to 65535; the id may hold dashes |
| Preview.HostOfUrl | agent/internal/proxy/router.go:96-102 | the printed host, under http exactly for domains below .localhost |
| Preview.PreviewRoundTrip | agent/internal/proxy/router.go:25-55 | the host of a printed URL is served from the id and port it was printed for if and only if there is an id, the port is in range, and the id's colon is not taken for a port |
| Preview.PreviewURLsAreDistinct | agent/internal/proxy/router.go:96-102 | different routable pairs have different URLs |
| Preview.DispatchAgrees | agent/internal/server/http.go:70-85 | what the server hands over is never refused as a foreign domain, and a host reaches a sandbox exactly when it reads so |
| TerminalMsgpack.EncodeMsgpack | browser/src/components/SandboxTerminal.tsx:28-89 | the nested loops push the specified bytes |
| TerminalMsgpack.PushShortString | browser/src/components/SandboxTerminal.tsx:39-45 | the header for the length and the bytes |
| TerminalMsgpack.PushMember | browser/src/components/SandboxTerminal.tsx:37-86 | the key, then the value |
| TerminalMsgpack.PushValue | browser/src/components/SandboxTerminal.tsx:47-85 | one value's bytes, nothing for an unknown kind |
| TerminalMsgpack.SetsBit7 | browser/src/components/SandboxTerminal.tsx:35 | supporting: the bitwise or sets bit 7 of the size and keeps those above and below |
| TerminalMsgpack.SetsBit5 | browser/src/components/SandboxTerminal.tsx:41 | supporting: the bitwise or sets bit 5 of the size and keeps those above and below |
| TerminalMsgpack.SetsBit4 | browser/src/components/SandboxTerminal.tsx:75 | supporting: the bitwise or sets bit 4 of the size and keeps those above and below |
| TerminalMsgpack.ObjectDecodes | browser/src/components/SandboxTerminal.tsx:28-89 | a MessagePack decoder gets every member back in order and stops at the object's end, whatever follows |
| TerminalMsgpack.EncodingIsPrefixFree | browser/src/components/SandboxTerminal.tsx:28-89 | no encoding is a proper prefix of another, and equal encodings mean the same |
| TerminalMsgpack.ComesBackExactly | browser/src/components/SandboxTerminal.tsx:28-89 | an object of any size, with lists and strings of any size, comes back if and only if it has at most fifteen members, keys and items below 256 bytes, lists below sixteen, strings below 65536, and no value of an unknown kind |
| TerminalMsgpack.AheadStays | browser/src/components/SandboxTerminal.tsx:34-86 | a reader two bytes ahead of the writer, as an overflowing size leaves it, that reads the very same values ends inside what follows |
| TerminalMsgpack.DecodesIffAllKnown | browser/src/components/SandboxTerminal.tsx:47-86 | an object of at most fifteen members that fit is a MessagePack value at all if and only if no value is of an unknown kind |
| FileWatcher.Watcher.Watch | sidecar/internal/fs/watcher.go:56-71 | resolves the path and takes the first snapshot, or refuses and changes nothing |
| FileWatcher.Watcher.Unwatch | sidecar/internal/fs/watcher.go:74-79 | forgets the resolved path, or the empty one if it does not resolve |
| FileWatcher.Watcher.PollPath | sidecar/internal/fs/watcher.go:118-156 | one event for every file that was created, modified or deleted, none for the others, in any order; a failed snapshot counts as empty |
| FileWatcher.Watcher.EmitCreatedAndModified | sidecar/internal/fs/watcher.go:137-145 | in any map order, one event for each created or modified file, none for an unchanged one |
| FileWatcher.Watcher.EmitDeleted | sidecar/internal/fs/watcher.go:148-152 | in any map order, one event for each file that is gone |
| FileWatcher.Watcher.PollAll | sidecar/internal/fs/watcher.go:110-157 | every watched path has exactly one turn, in any order |
| FileWatcher.PollExtendsRun | sidecar/internal/fs/watcher.go:110-157 | the turns of a whole poll extend a run, and bring every watched path to its snapshot |
| FileWatcher.PollReplays | sidecar/internal/fs/watcher.go:118-156 | the events of a poll, in any order, lead a listener from the old files and times to the new; each fits what is held when it is heard, and tells something new |
| FileWatcher.SilentExactly | sidecar/internal/fs/watcher.go:118-156 | a poll reports nothing if and only if the snapshot is the old one, files and times |
| FileWatcher.EventsReplay | sidecar/internal/fs/watcher.go:110-157 | over every run of watches, unwatches and polls, following the events gives the current snapshot, files and times, for every path |
| FileWatcher.OneEventPerChange | sidecar/internal/fs/watcher.go:118-156 | a poll of any run reports a file once if it came, went or has another time than in the last snapshot, else never |
| PortDetector.Detector.Scan | sidecar/internal/port/detector.go:64-89 | afterwards exactly the listening ports are known; each new one was announced open once, each gone one closed once, nothing else |
| PortDetector.AnnouncementsAlternate | sidecar/internal/port/detector.go:64-89 | over every run of scans a port is announced open and closed in turn, and last open if and only if the last scan saw it |
| Paths.ResolveAppends | sidecar/internal/fs/fs.go:34 | a resolved path is the root's elements followed by the request's own, cleaned |
| Paths.OneMoreElement | sidecar/internal/fs/fs.go:34 | an element more leads into the name, to the parent for "..", and nowhere for "." and nothing |
| Paths.DotsMeanSteps | sidecar/internal/fs/fs.go:34 | ".." takes the name before it along wherever it stands and nothing at the root, "." and empty elements change nothing, and requests that differ so resolve alike |
| Paths.Confined | sidecar/internal/fs/fs.go:33-37 | for a clean root every request resolves to the root or below it, with no ".." left, so the first check passes and handler and watcher agree |
| Paths.FirstCheckNeedsCleanRoot | sidecar/internal/fs/watcher.go:47-53 | the first check passes for every request if and only if the root is clean |
| Paths.ResolvePath | sidecar/internal/fs/fs.go:33-65 | terminates; the target decides if it exists, else the deepest existing ancestor below the root, and no ancestor above that one is looked at |
| Paths.WalkStaysBelowRoot | sidecar/internal/fs/fs.go:43-48 | the walk looks at exactly the proper ancestors strictly below the root, deepest first |
| Paths.WalkIsConfinedIff | sidecar/internal/fs/fs.go:43-48 | every path looked at lies within a clean root if and only if the request names something below it, or the root is directly under "/" |
| Paths.PrefixMeansWithin | sidecar/internal/fs/fs.go:66-71 | for clean paths the text prefix means the root or below it if and only if the path is the root, or a slash follows, or the root is "/" |
| Audit.Store.constructor | agent/internal/audit/store.go:42-47 | starts empty, with any capacity |
| Audit.Store.Add | agent/internal/audit/store.go:50-58 | appends, dropping the oldest entry when full; panics if and only if the capacity is zero |
| Audit.HoldsTheLast | agent/internal/audit/store.go:50-58 | after any n additions the store holds the last min(n, capacity) of them, in order |
| Audit.Store.Query | agent/internal/audit/store.go:61-97 | answers for those entries as specified, panics included |
| Audit.Store.NewestFirst | agent/internal/audit/store.go:65-76 | the reverse filter loop gives the matching entries, newest first |
| Audit.ContainsExactly | agent/internal/audit/store.go:66-73 | the action filter holds if and only if its text occurs somewhere in the action |
| Audit.NewestHolds | agent/internal/audit/store.go:65-76 | the filter keeps every entry whose action holds the text and whose subject is the one asked for, as often as it occurs, and no other |
| Audit.NewestAppend | agent/internal/audit/store.go:65-76 | later entries come before earlier ones |
| Audit.PanicsExactly | agent/internal/audit/store.go:81-96 | a query panics if and only if the offset is negative, or within the total and its sum with the limit leaves 64 bits |
| Audit.PagesAreTheHistory | agent/internal/audit/store.go:78-96 | for any filter and positive limit the pages at 0, limit, 2 * limit, ... put together are the matching entries newest first |
| Audit.PageAt | agent/internal/audit/store.go:78-96 | each page is its slice of the matching entries and reports their number |
| Audit.DefaultPage | agent/internal/audit/store.go:78-80 | no limit asked for is a limit of fifty |
| Audit.AddShiftsByOne | agent/internal/audit/store.go:50-97 | an entry added between two queries moves the rest by one place at most: nothing still held is passed over |

## Left out

- Kubernetes, sockets, HTTP, processes and files: a connection is a sequence that keeps its order, a process two byte streams and an exit code, the file system an oracle; pod specs, network policies, metrics gauges, roles and configuration are not modelled.
- Library codecs: msgpack payloads, JSON objects and RFC 3339 times are parameters with a stated round trip; text decoding is an abstract function of one chunk, so a character split over two chunks is not modelled.
- Strings are sequences of characters; bytes that are not valid UTF-8 are not modelled outside the envelope and MessagePack parts.
- Pod cache entries and registered sandboxes are values in a map field, so two holders of one Go pointer are not modelled; the mutexes appear only as the atomicity of each step.
- Ready callbacks and the turn of one path in a poll are each one step; callbacks that overlap each other or a claim are not modelled.
- Order of stdin messages: each is handled in its own goroutine and no order is promised.
- StreamOutput.Connection.Write: after a failing write no later one succeeds; how many succeed is a parameter.
- ExecStream: a consumer that returns early does so at a yield; a handler whose payload does not decode is a message without an event.
- Transport.Dispatch: handlers are identified by numbers, and a handler that leaves takes off its first registration.
- Transport: what the network and the timers do are events of the run, in any order; several retry timers may be armed at once, and the ready message is an ordinary message.
- ExecStream.StreamsWholeCommand: no Error on channel 0 reaches the handlers, since one ends every command of the client; an Error that answers a request of its own does not reach them.
- ExecProducer.ChannelsDifferExactly: up to the wrap-around of the channel counter after 2^32 - 100 picks.
- Provision.Server.CreateSandbox: decoding the request, metrics, resource requests, the order of the error messages and the response are not part of it; whether the cluster accepts a pod is a parameter. The refill it starts in the background is a step of its own in the runs, and the expiry loop deletes by the same name.
- Requests.CheckMetadata: lengths are those of character sequences, where Go counts bytes.
- RateLimiter.WindowBoundIsTight: for intervals of at least two clock ticks.
- WarmPool.Pool.Fill: each pod's id and the number of the failing creation are parameters; pods that are created but not yet ready are not counted by the source, nor here.
- Recovery.Restart: one reading of the clock serves the whole loop; whether a connection succeeds changes nothing in the registry.
- Recovery.RestartIsLossless: creation and expiry times are set, since the clock never shows Go's zero time.
- TerminalMsgpack.DecodesIffAllKnown: objects with a key, item or list too large can decode to something else, or not at all; only that they do not come back is claimed.
- Preview: the host is the text after the scheme; URL delimiters inside an id, and letter case, are not modelled.
- Paths: the lexical part is `filepath.Clean` on absolute Unix paths, as its documentation describes it; symbolic links are part of the oracle.
- FileWatcher: event paths are the files' own; `relativePath` and the directory walk that takes a snapshot are not part of this model.
- PortDetector: reading `/proc/net/tcp` and parsing its hexadecimal ports are not part of this model; the callbacks are recorded in the order they are started.
- The Go SDK's handler removal compares function addresses and is not part of this model.
