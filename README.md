# Websocket hub, auth middleware and server configuration — a Dafny model

This project models the core of a small Go REST + websockets server.

- **The websocket registry** (package `websockets`). A `Hub` keeps the list of connected `Client`s. `OnConnect` appends a client. `OnDisconnect` closes the client's socket and removes the last listed client with the same id. `Broadcast` serialises a message once and appends the bytes to the outbound queue of every listed client except the ignored one. Each `Client` has an id (the socket's remote address), a `Socket`, and an outbound queue that its `Write` loop drains onto the socket as binary frames.
- **The authentication middleware** (package `middlewares`). `IsAuthNeeded` says whether a request URI needs a token. `CheckAuth` is the middleware's decision for one request: forward it, or answer 401.
- **Server construction** (package `server`). `NewServer` checks the three required settings in a fixed order. `Broker.Config()` and `Broker.Hub()` give back what was stored.

Files: `wrappers.dfy` (Option, Result), `websockets.dfy`, `middlewares.dfy`, `server.dfy`.

Modelling choices:

- Every hub event (register, unregister, broadcast) is one atomic sequential step.
- The outbound channel is a FIFO queue (`outbound: seq<Bytes>`) with a closed flag. A send on it is `Client.Enqueue`.
- A socket is an object with a closed flag and the log of frames written to it. A write on a closed socket fails. Otherwise the network's verdict decides: `Write` takes `network: nat -> bool`, the verdict on each write attempt of that call. The verdicts are unconstrained. A gorilla websocket connection keeps its first write error and fails every later write. That is the case where the verdicts fail from some attempt on, and `StickyFailureLosesTheRest` covers it.
- `Write` returns when the queue is empty. `stopped` says whether it ended because the queue was closed (the Go loop returns) or because it is now waiting for more messages (the Go loop blocks).
- `json.Marshal` is the parameter `marshal` of `Broadcast`. Its error is discarded in the source, and the model has none.
- `ParseAndVerifyToken` is the parameter `verify` of `CheckAuth`.
- `Config` and `Broker` are values. Go passes `*Config`, and the model compares configurations by value.

The code behaves as follows, and the model keeps it:

- Client identity comes from the transport address, not from a generated id.
- Removal goes by id and takes the last match. Exclusion in `Broadcast` goes by reference.
- The outbound queues are unbuffered channels (`make(chan []byte)`, capacity 0): a send blocks until the drain receives it, and there is no backpressure policy. The model keeps them as unbounded FIFO queues, because it has no goroutines (see "## Left out").
- Nothing closes a client's outbound queue. Unregistering only closes the socket.
- No code sends on the hub's unregister channel. The unregister path is reachable only through `Run`'s event stream.

## Model

| member | source | states |
|---|---|---|
| `Websockets.Hub.constructor` | websockets/hub.go:24-31 | a new hub lists no client |
| `Websockets.Hub.HandleWebSocket` | websockets/hub.go:33-45 | a failed upgrade registers nothing and yields no client; a successful one creates a fresh client (id = remote address, empty open queue, owning hub) and appends it to the list |
| `Websockets.Hub.Run` | websockets/hub.go:47-56 | after the event loop, the list is the one-at-a-time replay of the register/unregister events (`Replay`), every unregistered client's socket is closed, and no frame is written to any of those sockets |
| `Websockets.Hub.OnConnect` | websockets/hub.go:58-63 | the client is appended at the end; earlier entries keep their order; no duplicate check |
| `Websockets.Hub.OnDisconnect` | websockets/hub.go:65-82 | the client's socket is closed, whether or not it is listed, and nothing is written to it; the list becomes `Disconnected(old list, id)` |
| `Websockets.LastIndexWithId` | websockets/hub.go:72-77 | the scan's result is -1 iff no listed client has the id, else an index holding that id with no later index holding it |
| `Websockets.DisconnectRemovesLastMatch` | websockets/hub.go:71-80 | if the last client with the id is at i, unregistering removes exactly entry i, keeps all others in order, and shortens the list by one |
| `Websockets.DisconnectUnknownIdIsNoop` | websockets/hub.go:72-80 | unregistering an id no listed client has leaves the list unchanged |
| `Websockets.SecondDisconnectIsNoop` | websockets/hub.go:65-82 | when the id is listed at most once, unregistering it a second time leaves the list unchanged |
| `Websockets.ConnectThenDisconnectRestores` | websockets/hub.go:58-80 | registering a client and then unregistering it gives back the original list, whatever ids the other clients have |
| `Websockets.DisconnectRemovesByIdNotReference` | websockets/hub.go:73-76 | two different clients sharing an id: unregistering the first removes the second and leaves the first listed |
| `Websockets.RegisterThenUnregisterRestores` | websockets/hub.go:47-56 | the event loop run on a register and then an unregister of the same client ends with the list it started with |
| `Websockets.ReplayLengthBounds` | websockets/hub.go:47-56 | each register event adds one entry and each unregister removes at most one: the replayed list's length lies between the two bounds |
| `Websockets.Hub.Broadcast` | websockets/hub.go:84-91 | the list is unchanged; every listed client's queue gets `Received(list, ignore, c)` copies of the one serialised message appended at its tail, and no queue's closed flag changes; unlisted clients are untouched |
| `Websockets.ReceivedMatchesTargets` | websockets/hub.go:86-90 | a client receives one copy per time it is listed, and the reference-equal ignored client none; this equals its count among the targeted entries |
| `Websockets.TargetsCount` | websockets/hub.go:86-90 | with no client ignored every entry is targeted; an ignored client listed k times removes exactly k deliveries |
| `Websockets.BroadcastToDistinctClients` | websockets/hub.go:84-91 | with no repeated references and N clients: ignoring nothing gives N deliveries, ignoring a listed client gives N-1; each non-ignored client gets one copy and the ignored one none |
| `Websockets.Client.constructor` | websockets/client.go:15-22 | NewClient stores the hub and socket, takes the socket's remote address as id, and starts with an empty, open queue |
| `Websockets.Client.Enqueue` | websockets/hub.go:88 | a send on the outbound channel appends the bytes at the queue's tail; the queue must be open |
| `Websockets.Client.CloseOutbound` | websockets/client.go:27-28 | closing the outbound channel keeps pending messages queued; closing it twice is excluded, since Go panics |
| `Websockets.Client.Write` | websockets/client.go:24-41 | the queue is drained completely, oldest first; the socket receives exactly the successfully written binary frames (`Delivered`), then one empty close frame if the queue was closed and that write succeeds; it stops iff the queue was closed, and writes nothing after the close attempt |
| `Websockets.DeliveredFramesComeFromQueue` | websockets/client.go:26-38 | the drain writes no more frames than messages, and only binary frames carrying queued messages |
| `Websockets.DeliveredAllWhenLinkHealthy` | websockets/client.go:27-35 | on an open socket with no write failures, the frames are exactly the queued messages, each once, in enqueue order |
| `Websockets.LostWriteSkipsOnlyThatMessage` | websockets/client.go:35-38 | when only the j-th write's verdict is a failure, every other message is still delivered, in order; only message j is lost (on a gorilla connection, which keeps its first write error, only when j is the last message) |
| `Websockets.StickyFailureLosesTheRest` | websockets/client.go:26-40 | when every write from attempt j on fails, as on a connection that keeps its first write error, the call writes exactly the first j messages as binary frames and nothing after them, the close frame included |
| `Websockets.ClosedSocketReceivesNothing` | websockets/client.go:35-38 | draining onto a closed socket delivers nothing |
| `Websockets.Socket.WriteMessage` | websockets/client.go:29-38 | a write fails iff the socket is closed or the network rejects it; a successful write appends exactly that frame |
| `Websockets.Socket.Close` | websockets/hub.go:67-70 | the socket ends closed with its frames unchanged; closing an already closed socket reports an error |
| `Middlewares.Contains` | middlewares/auth.go:15 | `strings.Contains` holds iff the fragment occurs at some index of the URI |
| `Middlewares.AuthNeededAgainst` | middlewares/auth.go:14-20 | the loop over the public fragments returns true iff none of them occurs in the URI |
| `Middlewares.IsAuthNeeded` | middlewares/auth.go:9-21 | no token is needed iff the URI contains "login", "signup" or "ws" as a substring |
| `Middlewares.EmptyUriNeedsAuth` | middlewares/auth.go:13-21 | the empty URI needs authentication |
| `Middlewares.PublicFragmentAnywhereSkipsAuth` | middlewares/auth.go:15-17 | any URI with a public fragment anywhere, whatever surrounds it, skips authentication |
| `Middlewares.FragmentInsideLongerUriSkipsAuth` | middlewares/auth.go:15 | "/news" (through "ws") and "/me?from=login" (through its query string) skip authentication |
| `Middlewares.TrimLeft` | middlewares/auth.go:30 | the result is a suffix of the input; everything dropped is white space; the result does not start with white space |
| `Middlewares.TrimRight` | middlewares/auth.go:30 | the result is a prefix of the input; everything dropped is white space; the result does not end with white space |
| `Middlewares.TrimSpace` | middlewares/auth.go:30 | the trimmed header is a contiguous slice of the header, everything cut off on either side is white space, and the result neither starts nor ends with white space |
| `Middlewares.TrimSpaceIdempotent` | middlewares/auth.go:30 | trimming twice is trimming once |
| `Middlewares.CheckAuth` | middlewares/auth.go:23-39 | a token is verified iff authentication is needed, and it is the trimmed Authorization header; the request is forwarded to the next handler iff no authentication is needed or verification with the configured JWT secret succeeds; otherwise the answer is 401 |
| `Middlewares.SameTrimmedHeaderSameDecision` | middlewares/auth.go:30-31 | two headers with the same trimmed value get the same decision |
| `Middlewares.HeaderWhitespaceIrrelevant` | middlewares/auth.go:30-36 | white space around the header value never changes the decision |
| `Server.NewServer` | server/server.go:29-43 | construction succeeds iff Port, JWTSecret and DatabaseUrl are all non-empty, and the broker then holds exactly the given config and hub, which `Config()` (server/server.go:45-47) and `Hub()` (server/server.go:63-65) give back; the result is either a broker or an error, never both |
| `Server.NewServerReportsFirstMissing` | server/server.go:30-40 | NewServer fails iff some setting is missing, and the error is "<first missing setting> is required", in the order port, jwt secret, database url |

## Left out

- Goroutines, channels as synchronisation, and the hub's mutex. Each event is one atomic step. The source has two concurrency problems this cannot capture. `Broadcast` reads the client list without the lock (websockets/hub.go:86). Its sends are blocking sends on unbuffered channels (websockets/client.go:20, websockets/hub.go:88), so one stalled client blocks the broadcaster.
- `go client.Write()` in `HandleWebSocket`: the drain is the separate method `Client.Write`, and nothing models when it runs.
- The websocket upgrade handshake and the accept-all `CheckOrigin` (websockets/hub.go:11-15, 34-38). `HandleWebSocket` takes the upgrade's outcome as an `Option<Socket>`. The 400 response on failure is not modelled.
- Logging (`log.Println`) everywhere; it has no effect on state.
- `json.Marshal`: an opaque parameter. Its error is discarded by the source.
- Websockets.Socket.WriteMessage: the network's behaviour is a parameter; gorilla's own framing and its write deadlines are not modelled. A failed write is fatal for a gorilla connection: every later write on it, including the close frame, fails too. The unconstrained `network` does not impose this; `Websockets.StickyFailureLosesTheRest` states the outcome when the verdicts follow it.
- Websockets.Hub.Broadcast: requires that no targeted client's queue is closed, because a Go send on a closed channel panics. No code in the repository closes one. Within one call, the order in which clients' queues are appended to is not observable in the model.
- Websockets.Client.CloseOutbound: models Go's `close` on the channel, which the repository never calls.
- Middlewares.CheckAuth: `ParseAndVerifyToken` (JWT parsing, signature check, expiry against the clock) is the abstract parameter `verify`. The Authorization header is given as the string `Header.Get` returns, empty when absent. The next handler is called exactly once: that is the `CallNext` outcome, since the model has no handler objects.
- Middlewares.IsSpace: covers the code points Go's `unicode.IsSpace` accepts; strings are sequences of code points, so invalid UTF-8 is not modelled.
- `Broker.Start`, the router, `main.go`, the HTTP handlers, the repository layer, `server/authorization.go` and `models/claims.go`: routing, I/O, SQL, hashing and JWT library calls.
- Server.NewServer: a nil `*Config` (which would panic) and the unused `context` argument are not modelled.
