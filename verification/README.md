# go-ws-server: a Dafny model of the number-streaming core

The service accepts WebSocket connections on `/ws`, allows one connection per
client address, and answers every inbound frame with a frame
`{"Number": "<decimal>"}` carrying a random integer below 2^256 − 1. This
project models, as pure functions over immutable sets and strings:

- **Address resolution** (`Address`): `getIpAddress`. It picks the first
  non-empty of the `X-Real-Ip` header, the `X-Forwarded-For` header and the
  remote address, and keeps the part before the first `:`.
- **Connection registry** (`Registry`): the `connections` map, with the
  check-then-insert admission of `wsHandler` and the `delete` of
  `handleWsMessages`.
- **Number pool** (`NumberPool`, `Decimal`): `getRandomBigInt` and the
  `generatedNumbers` seen-set, keyed by the decimal rendering of `big.Int`.
  That rendering is also what the `Number` field carries.
- **Session loop** (`Session`): one iteration of `handleWsMessages`, and the
  loop run over a sequence of read results.
- **The service** (`Server`): `wsHandler`, one read iteration of a running
  session, and any interleaving of the two. It carries the invariant that
  at most one loop runs per address.

The random source is a parameter `r` of each draw. Its precondition
`r < Max` is the `[0, max)` promise of `rand.Int`. A read is an abstract
`ReadResult`: a message, a close error with its code, or another error.

## Behaviour as written

The model follows `server/main.go`. In three places the code does less than
its own structure suggests: the seen-set never triggers a redraw, the release
branch is reached only by some read errors, and registration happens before
the upgrade error check.

- **No redraw.** `getRandomBigInt` returns from the first iteration of its
  loop. A value whose key is already in the seen-set is still returned.
  Emitted numbers are therefore not guaranteed to be unique.
  See `NumberPool.DuplicateReturnedAnyway`,
  `NumberPool.RepeatedValueEmittedTwice` and `Session.TwoMessagesTwoFrames`.
- **Narrow exit.** The loop releases its address and stops only on a close
  error whose code is neither 1001 (going away) nor 1006 (abnormal closure).
  A message, any other read error, and those two close codes all lead to a
  draw and a send. A failed send is ignored and the loop goes on.
  See `Session.OnlyUnexpectedCloseReleases`. The WebSocket library makes a
  read error sticky: once a read fails, every further read returns the same
  error. This holds for a 1001 or 1006 close and for every non-close error,
  such as a reset connection or a protocol error. After such an error the
  `delete` is never reached, so the address is never released
  (`Session.StickyReadErrorNeverReleases`). After about a thousand such
  reads the library panics inside the session's goroutine. Nothing recovers
  that panic, so the whole process exits, and every registration and every
  seen key is lost with it.
- **Registration before the upgrade check.** `wsHandler` registers the
  address before it looks at the upgrade error. A failed upgrade leaves the
  address registered with no loop to release it. Every later attempt from
  that address is refused for the life of the process.
  See `Server.UpgradeFailureStrands` and `Server.StrandedForever`.

One more consequence of cutting at the first `:`: an IPv6 remote address such
as `[::1]:8080` resolves to `[` (`Address.Ipv6RemoteAddressCollapses`).

## Model

| member | source | states |
|---|---|---|
| Decimal.Render | server/main.go:80 | `big.Int.String()` of a non-negative value: at least one digit, only digits, and a leading '0' exactly when the value is zero |
| Decimal.ParseRender | server/main.go:79-81 | the `Number` string of a frame reads back as the drawn value |
| Decimal.RenderInjective | server/main.go:97-100 | two values have the same seen-set key if and only if they are equal |
| Decimal.RenderParse | server/main.go:80 | every canonical digit string is the rendering of the value it denotes, so rendering is a bijection onto canonical strings |
| Address.HeaderGet | server/main.go:111 | `Header.Get` returns the first value stored under the name, or "" when there is none |
| Address.BeforeColon | server/main.go:119 | `strings.Split(s, ":")[0]` is a prefix of `s` with no ':' that ends at the first ':' or at the end of `s` |
| Address.BeforeColonUnique | server/main.go:119 | those three properties determine the cut string uniquely |
| Address.BeforeColonIdentity | server/main.go:119 | cutting leaves a string unchanged if and only if it contains no ':' |
| Address.BeforeColonIdempotent | server/main.go:119 | cutting twice equals cutting once |
| Address.Source | server/main.go:111-117 | the chosen source is one of the two headers or the remote address, and it is empty only when all three are |
| Address.Resolve | server/main.go:110-120 | the resolved address has no ':' and is the prefix of the chosen source up to its first ':' |
| Address.ResolvePrecedence | server/main.go:111-117 | a non-empty `X-Real-Ip` wins, else a non-empty `X-Forwarded-For`, else the remote address |
| Address.ResolveIdempotent | server/main.go:110-120 | resolving a resolved address again gives the same address |
| Address.ResolveRealIpExample | server/main.go:110-120 | `X-Real-Ip: 1.2.3.4:9999` resolves to `1.2.3.4` |
| Address.ResolveForwardedForExample | server/main.go:110-120 | with only `X-Forwarded-For: 5.6.7.8`, the address is `5.6.7.8` |
| Address.ResolveRemoteAddrExample | server/main.go:110-120 | with neither header and remote address `9.9.9.9:1234`, the address is `9.9.9.9` |
| Address.Ipv6RemoteAddressCollapses | server/main.go:116-119 | a bracketed IPv6 remote address `[host]:port` with a ':' in `host` resolves to `[` followed by the part of `host` before its first ':' |
| Address.Ipv6SharedFirstGroupCollide | server/main.go:116-119 | two bracketed IPv6 remote addresses whose hosts share the part before the first ':' resolve to the same admission key, whatever their ports |
| Registry.Admit | server/main.go:37-44 | admission succeeds if and only if the address is absent; a refusal leaves the registry unchanged; a success adds exactly that address |
| Registry.Release | server/main.go:73 | the address is absent afterwards, every other address keeps its membership, and releasing an absent address changes nothing |
| Registry.AdmitTwiceRefused | server/main.go:37-44 | a second attempt from the same address with no release in between is refused |
| Registry.ReleaseUndoesAdmit | server/main.go:37-44 | releasing a just-admitted address restores the registry, and a released address is admitted again |
| Registry.ReleaseIdempotent | server/main.go:73 | releasing twice equals releasing once |
| Registry.AdmitEach | server/main.go:37-44 | after a run of attempts, the registry holds the earlier addresses plus every address attempted |
| Registry.AdmitEachAtMostOncePerAddress | server/main.go:37-44 | attempt i is admitted if and only if its address was neither registered nor tried earlier, so at most one attempt per address succeeds |
| NumberPool.MaxValue | server/main.go:93-95 | the bound computed as 2^256 − 1 equals 115792089237316195423570985008687907853269984665640564039457584007913129639935 |
| NumberPool.Draw | server/main.go:91-108 | the drawn value is returned and is below the bound; its key is in the seen-set afterwards; the set never loses a key and gains at most that one |
| NumberPool.DuplicateReturnedAnyway | server/main.go:97-105 | a value whose key is already present is returned and the set is unchanged |
| NumberPool.FreshDrawGrowsByOne | server/main.go:99-100 | a value with a fresh key grows the set by exactly one |
| NumberPool.RepeatedValueEmittedTwice | server/main.go:92-106 | drawing the same value twice returns it twice: there is no redraw |
| NumberPool.DrawEach | server/main.go:91-108 | a run of draws returns exactly the drawn values in order; the set keeps its old keys, gains every drawn key, and gains nothing else |
| Session.IsUnexpectedClose | server/main.go:68-71 | a read ends the loop exactly when it is a close error whose code is neither 1001 nor 1006 |
| Session.SessionStep | server/main.go:64-88 | an iteration exits if and only if the read is an unexpected close; an exit removes exactly the session's address and leaves the seen-set alone; otherwise one frame is sent whose `Number` is canonical and parses to the draw, the registry is unchanged, and the draw's key is recorded |
| Session.FirstExit | server/main.go:67-75 | index of the first read result that ends the loop: no earlier one does |
| Session.RunSession | server/main.go:63-89 | one frame per iteration up to the first unexpected close; frame j carries draw j; the loop has exited exactly when such a close occurred; other addresses are untouched; the session's address is kept exactly when the loop has not exited |
| Session.OnlyUnexpectedCloseReleases | server/main.go:67-76 | messages, other errors and close codes 1001 and 1006 all send and keep the address registered; any other close code does not send and removes the address (both directions for close codes) |
| Session.StickyReadErrorNeverReleases | server/main.go:64-76 | a loop whose reads all repeat one error that is not an unexpected close (a 1001 or 1006 close, or a non-close error) never exits, sends one frame per read, and keeps its address registered exactly when it was registered |
| Session.EmittedNumbersBelowBound | server/main.go:78-81 | every emitted `Number` parses to a value below 2^256 |
| Session.TwoMessagesTwoFrames | server/main.go:78-85 | two messages yield two frames, and the frames are equal exactly when the two draws are equal |
| Server.HandleConnect | server/main.go:31-54 | a registered address is refused with close code 1000 and the duplicate-address reason, with nothing changed; otherwise the address is registered whatever the upgrade outcome, and a loop starts only if the upgrade succeeded |
| Server.HandleRead | server/main.go:63-89 | an iteration of a running loop sends nothing and ends the loop on an unexpected close, and sends exactly one frame otherwise; other addresses are untouched |
| Server.Step | server/main.go:31-88 | a connection attempt (`wsHandler`) or one loop iteration never removes a key from the seen-set |
| Server.Run | server/main.go:31-88 | no interleaving of connection attempts and loop iterations removes a key from the seen-set |
| Server.StepPreservesValid | server/main.go:37-75 | at most one loop per address, and every address with a loop registered, is kept by every event |
| Server.RunPreservesValid | server/main.go:37-75 | that invariant holds after any interleaving of attempts and iterations |
| Server.SecondClientRefused | server/main.go:37-61 | while a client's loop runs, another client with the same address is refused with the duplicate-address close frame, and nothing changes |
| Server.UpgradeFailureStrands | server/main.go:44-49 | a failed upgrade of an unregistered address leaves it registered with no loop |
| Server.StrandedForever | server/main.go:44-75 | a stranded address stays stranded after any events, and every later attempt from it is refused |

## Left out

- HTTP server, routing and the WebSocket upgrade (`main`, `router`, `upgrader.Upgrade`): network I/O in a foreign library. Whether the upgrade succeeded is a boolean input of `Server.HandleConnect`.
- `crypto/rand`: the random value is a parameter constrained to `[0, max)`. Uniformity is not modelled.
- `NumberPool.Draw`: the error of `rand.Int` is discarded (`n, _ :=`). If that call fails, `n` is nil, and its rendering `"<nil>"` is stored as a seen key, sent as `Number`, and returned. The draw's precondition excludes that path, so it is not modelled.
- gorilla's `ReadMessage`, `WriteJSON`, `WriteMessage`, `FormatCloseMessage` and `Close`. A read is the abstract `ReadResult`. The library call `IsUnexpectedCloseError` is replaced by the predicate `Session.IsUnexpectedClose` over `ReadResult`. A send is modelled as the frame it carries. Its failure is ignored by the code, so the model has no send outcome. The refusal frame is its code and reason, with nothing about its encoding.
- `Session.RunSession`: the read loop accepts any sequence of read results, including ones the library never produces (a 1001 close or a non-close error followed by a 1000 close, say). The sticky read error is stated only by `Session.StickyReadErrorNeverReleases`. The panic the library raises after about a thousand reads of a failed connection is not modelled. That panic ends the whole process: the address is never released, and every registration and seen key is lost.
- Server.HandleConnect: when the address is already registered and the upgrade also failed, the code calls `rejectWsConnection` on a nil connection. That call panics, and no close frame is sent. The model does not see the panic, or the HTTP server's recovery from it. It reports the refusal frame whatever the upgrade outcome, and so does `Server.SecondClientRefused`.
- Goroutines and the unsynchronised access to `connections`: events are interleaved one at a time. The data race is therefore not modelled.
- `Address.HeaderGet`: header-name canonicalisation (`textproto.CanonicalMIMEHeaderKey`) is not modelled. Names are assumed to be stored in canonical form already.
- `fmt.Println` logging and the JSON framing of `msg` beyond its `Number` string.
