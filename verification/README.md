# ispwatch core, modelled in Dafny

ispwatch measures round-trip latency over a WebSocket between a server and a
client. This project models the parts of it that have sequential,
stateable behaviour, and proves properties of them:

- **Auth** (`auth.dfy`, lib/auth.js): the handshake gate. `BaseAuth` holds the
  configured key and the authenticated flag. `ServerAuth.withAuth` either
  passes a record to `action`, consumes a matching `AUTH` record and calls
  `authAction`, or calls `failureAction`. `ClientAuth.authenticate` sends its
  key once and then trusts itself. Callback invocations are returned as a
  list of `Call`s.
- **Ping** (`ping.dfy`, lib/ping.js): the `PingPong` id counter and its map of
  outstanding pings. The map is never pruned, so its keys are always exactly
  the ids issued so far.
- **Exchange** (`exchange.dfy`, lib/exchange.js): the per-connection engine
  after `run()`. It sends only while the socket is OPEN. It answers PING with
  PONG, resolves PONG, ignores every other event, and catches parse errors
  and unknown ids. The keepalive tick allocates an id and sends it while the
  interval is scheduled, and `close` clears the interval.
- **Client** (`client.dfy`, commands/client.js): `parseAddress` (through a model of
  `String.prototype.split` and of `Number` on decimal digits), URL assembly,
  send gating, and the plain-text `PING`→`PONG` reply.
- **Logging** (`logging.dfy`, lib/logging.js): the fall-through `switch` that maps
  a log level to the four flags.

Two support modules hold shared vocabulary. `wire.dfy` models inbound messages
after `JSON.parse`: `Malformed`, `null`, a non-object, or an object with its
`event`, `id` and `key` properties. It also models the outbound control
records. `transport.dfy` models the socket as a `readyState` plus the list of
messages sent. Time stamps are opaque strings passed in as parameters, and a
stopwatch is only `Running` or `Stopped`. Timer ticks and socket events are
explicit events on an immutable state.

Behaviours of the code that shape the model:
- The `Exchange` never consults the auth classes.
- The keepalive tick is not gated on authentication. It allocates a ping id
  even when the socket is not OPEN, and only the send is skipped.
- A malformed payload is caught and logged. It does not close the connection.
- `handlePong` returns the stored entry with its watch stopped, not a
  duration. It does not remove the entry.

`commands/server.js` is not part of this model. Its call
`new Exchange({ ws, isServer: true, authKey, id })` does not match the
`Exchange(ws, isClient)` constructor.

## Model

| member | source | states |
|---|---|---|
| Auth.NewAuth | lib/auth.js:3-6 | a fresh gate keeps the configured key and satisfies the invariant "no key ⇒ authenticated" |
| Auth.FreshOpenIffNoKey | lib/auth.js:3-10 | a fresh gate reports authenticated exactly when no key is configured |
| Auth.IsAuthenticated | lib/auth.js:8-10 | reports the authenticated flag; a gate without a key always reports authenticated |
| Auth.SetAuthenticated | lib/auth.js:12-14 | the flag is on afterwards and the key is unchanged |
| Auth.Deauth | lib/auth.js:16-18 | after `deauth` the invariant holds again and the key is unchanged |
| Auth.DeauthRestoresFresh | lib/auth.js:16-18 | `deauth` yields exactly the constructor's state for the same key, and applying it twice equals applying it once |
| Auth.ServerWithAuth | lib/auth.js:26-64 | at most one callback, and exactly one when all three are supplied; while authenticated, nothing changes and `action(record)` is the only call, even for AUTH records; authenticated afterwards iff it already was or the record is an AUTH object whose key equals the configured one; `authAction` only on that transition; `failureAction` iff the gate stays closed; a callback that was not supplied is never called, and `action` only ever receives the record itself; the key never changes and the invariant is preserved |
| Auth.ServerHandshakeIff | lib/auth.js:36-53 | a fresh server with key s accepts an AUTH record with key k iff k = s, and never forwards the record to `action` |
| Auth.ServerWithoutKeyPassesAll | lib/auth.js:32-57 | with no key configured, every record (AUTH included) goes to `action` and the state stays the fresh one |
| Auth.ServerRejectsPingBeforeAuth | lib/auth.js:34-63 | a keyed server that gets a PING before any AUTH stays unauthenticated and calls only `failureAction` |
| Auth.ClientAuthenticate | lib/auth.js:72-88 | sends at most one record; it sends `{event: AUTH, key}` iff a key is configured and the gate is not yet authenticated, and is then authenticated; otherwise nothing is sent and nothing changes; from a reachable state the gate is always authenticated afterwards |
| Auth.ClientAuthenticateIdempotent | lib/auth.js:72-88 | a second `authenticate` sends nothing and changes nothing |
| Auth.ClientWithAuth | lib/auth.js:90-94 | the client gate never changes state and only ever calls `action(record)`, doing so exactly when `action` is supplied |
| Auth.HandshakeAgrees | lib/auth.js:36-86 | the AUTH record a keyed client sends, as the server parses it, authenticates a server with the same key and triggers `authAction` |
| Ping.NewPingPong | lib/ping.js:4-7 | a new `PingPong` has `nextId` 0, an empty map, and satisfies the key-set invariant |
| Ping.MakePing | lib/ping.js:13-28 | returns PING with the old `nextId` and the given time stamp; increments `nextId` by exactly one; adds exactly that key with a running watch; the new id was not outstanding before and earlier entries are unchanged; preserves "keys are exactly 0..nextId-1" |
| Ping.HandlePing | lib/ping.js:38-45 | returns a PONG that echoes the PING's id unchanged; it reads no ping state |
| Ping.HandlePong | lib/ping.js:30-36 | succeeds iff the id is a number naming a key in the map; on success it returns that entry's PING with its watch stopped, leaves `nextId`, the key set and every other entry unchanged, and preserves the invariant; otherwise it fails |
| Ping.MakePings | lib/ping.js:13-25 | n successive `makePing` calls yield n records, advance `nextId` by n and preserve the invariant |
| Ping.PongResolvesIffIssued | lib/ping.js:30-33 | under the invariant, a PONG resolves iff its id is a number below `nextId` |
| Ping.UnknownPongChangesNothing | lib/ping.js:31-33 | a PONG for a never-issued id fails with no new state |
| Ping.PingRoundTrip | lib/ping.js:13-45 | our PING, echoed by the peer's `handlePing` and routed back through JSON, resolves exactly the entry `makePing` filed and stops its watch |
| Ping.MakePingsIds | lib/ping.js:13-20 | the ids of successive pings are `nextId, nextId+1, …`, so they are distinct and strictly increasing |
| Ping.FreshPingsOutstanding | lib/ping.js:5-25 | after n pings the keys are exactly `0..nextId+n-1`, each new entry holds its id, time stamp and a running watch, and earlier entries are untouched |
| Exchange.Start | lib/exchange.js:10-15 | a started exchange has a fresh, valid `PingPong`, an empty outbox, its interval scheduled and the `isClient` it was given |
| Exchange.SendMessage | lib/exchange.js:17-24 | the outbox grows iff the socket is OPEN, and then only by `msg`; nothing else changes |
| Exchange.OnMessage | lib/exchange.js:33-50 | at most one message goes out, and it is a PONG; a PING yields a PONG with the same id and leaves ping state unchanged, and that PONG is sent whenever the socket is OPEN; a PONG whose id names an outstanding entry always resolves it, stopping the watch stored in its own map and leaving every other entry untouched (nothing sent), and any other PONG is caught; a parse failure, a `null` record or an unknown PONG id is caught, and other events are ignored, all with the state unchanged; `nextId`, the key set, the ready state and the interval never change |
| Exchange.OnTick | lib/exchange.js:52-56 | while the interval runs, each tick allocates id `nextId` whether or not the socket is OPEN, files it as a new entry with the tick's time stamp and a running watch, leaves every earlier entry untouched, and sends exactly that PING iff the socket is OPEN; once the interval is cleared, nothing happens |
| Exchange.OnClose | lib/exchange.js:58-63 | after `close`, the socket is CLOSED and the interval is cleared; outbox, ping state and `isClient` are untouched |
| Exchange.Step | lib/exchange.js:26-68 | every event keeps earlier sent messages, adds at most one, never decreases `nextId` or removes a key, never moves the socket backwards, and preserves the ping invariant |
| Exchange.Run | lib/exchange.js:26-68 | the ping invariant holds after any sequence of events |
| Exchange.UnknownPongIsHarmless | lib/exchange.js:43-49 | a PONG with an id never issued is caught; nothing is sent and the exchange is unchanged |
| Exchange.PingsAnsweredInOrder | lib/exchange.js:39-42 | over an OPEN socket, n inbound PINGs yield exactly n PONGs, in order, with the same ids, and leave ping state untouched |
| Exchange.QuietStep | lib/exchange.js:58-63 | once closed with the interval cleared, no event sends, allocates an id or reopens |
| Exchange.QuietRun | lib/exchange.js:52-63 | the same for any sequence of events |
| Exchange.QuietAfterClose | lib/exchange.js:58-63 | after `close`, whatever follows sends nothing and allocates no id |
| Exchange.TicksAllocateIds | lib/exchange.js:52-56 | k ticks allocate k consecutive ids regardless of the socket; they send those PINGs in order iff the socket is OPEN |
| Exchange.ExchangeRoundTrip | lib/exchange.js:39-56 | a PING sent on a tick, answered by a peer exchange and parsed back, resolves exactly the entry that tick filed, and nothing more is sent |
| Exchange.FirstTickSendsPingZero | lib/exchange.js:52-56 | a fresh exchange on an OPEN socket sends PING id 0 on its first tick |
| Client.Split | commands/client.js:17 | `split` always yields at least one piece, and no piece contains the separator |
| Client.SplitLimit | commands/client.js:17 | `split(sep, limit)` yields the first `limit` pieces of the full split, or all of them if there are fewer |
| Client.SplitJoin | commands/client.js:17 | joining the pieces with the separator gives back the string |
| Client.JoinSplit | commands/client.js:17 | splitting a join of separator-free pieces gives back the pieces |
| Client.ToNumber | commands/client.js:21 | a missing port piece is NaN; an empty piece is 0; a finite result comes only from decimal digits, and a string of decimal digits, leading zeros included, gives its value |
| Client.Decimal | commands/client.js:43 | the printed port is a non-empty string of decimal digits with no leading zero (except for 0 itself) |
| Client.DecimalRoundTrip | commands/client.js:21 | `Number` reads back the decimal text of n as n |
| Client.ParseAddress | commands/client.js:16-23 | the host is the text before the first `:`, so it contains no `:`; with no `:` the host is the whole string and the port is NaN |
| Client.ParseAddressPieces | commands/client.js:17-21 | for `host:port` followed by nothing or by more `:`-text, the port is read from the text between the first and second `:` and the rest is dropped |
| Client.AddressRoundTrip | commands/client.js:16-23 | `parseAddress(host + ":" + decimal(n))` is `(host, n)` for a host without `:` |
| Client.Url | commands/client.js:42-43 | the URL is the scheme, then `://`, then `host:port` |
| Client.SchemeIsWssIffSecure | commands/client.js:42 | the scheme is `wss` iff the connection is secure |
| Client.UrlAuthorityRoundTrip | commands/client.js:40-43 | the URL's text after `scheme://` parses back to the same address whenever the port is a number |
| Client.SendMessage | commands/client.js:25-32 | the outbox grows iff the socket is OPEN, and then only by `msg` |
| Client.Connect | commands/client.js:34-63 | the client starts with a CONNECTING socket, nothing sent and its interval scheduled; its URL is exactly `scheme://`, the host, `:` and the printed port (`NaN` when there is none), and whenever the port is a number the rest of the URL parses back to the address given |
| Client.OnMessage | commands/client.js:53-59 | something is sent iff the message is exactly `PING` and the socket is OPEN, and then it is `PONG` |
| Client.OnTick | commands/client.js:61-63 | each tick sends `PING` iff the interval runs and the socket is OPEN |
| Client.OnClose | commands/client.js:65-68 | `close` clears the interval and the socket is CLOSED |
| Client.ClientsPingPong | commands/client.js:53-63 | over OPEN sockets, one client's tick puts `PING` on its wire and the other's reply puts `PONG` on its wire |
| Client.ClientQuietAfterClose | commands/client.js:53-68 | after `close`, neither a tick nor a message sends anything |
| Logging.EntryCase | lib/logging.js:11-21 | control enters at the case labelled with the level, or skips every body when no label matches |
| Logging.FallThrough | lib/logging.js:11-22 | falling through from case i turns on exactly the flags of cases i and below, keeping any flag already on |
| Logging.ConfigureLogger | lib/logging.js:3-22 | the flags are monotone for every input (verbose ⇒ info ⇒ warn ⇒ error), and an omitted level acts as `warn` |
| Logging.FlagsFollowRank | lib/logging.js:11-22 | each flag is on iff the level's rank (verbose 4, info 3, warn 2, error 1, otherwise 0) reaches that flag's rank |
| Logging.NamedLevels | lib/logging.js:3-22 | verbose enables all four flags; info enables all but verbose; warn (also the default) enables warn and error; error enables only error; off and every unknown level enable none |
| Logging.MonotoneInLevel | lib/logging.js:11-22 | a higher-ranked level enables every flag a lower-ranked one does |

## Left out

- JSON text: `JSON.parse` and `JSON.stringify` are not modelled. Inbound messages arrive already decoded as `Wire.Inbound`. `Wire.AsJson` models only what a peer reads back from our own records.
- Time: `new Date().toISOString()` and the `durations` stopwatch are not modelled. A time stamp is an opaque string parameter, and a watch is only running or stopped. No durations are measured.
- The `ws` library, `setInterval`/`clearInterval` and handler registration are not modelled. They appear as explicit events on an immutable state.
- Console output, `log-a-log`, `@buzuli/color`, the 'open' and 'error' handlers (they only log), and the `logalog(logConfig)` call are not modelled.
- commands/server.js (CLI options and `WebSocket.Server` wiring) is not part of this model.
- Exchange.Start: models `new Exchange(...)` followed by a single `run()`, the only sequence the code uses. Calling `run()` twice would register every handler twice, and that is not modelled.
- Client.Connect: the URL checks of the `ws` socket constructor are not modelled. It rejects, for example, a NaN or out-of-range port or an empty host by throwing. When it throws, `handler` rejects and no socket, handlers or interval ever exist. The model still returns a CONNECTING socket with the interval scheduled for such an address.
- Client.ToNumber: weaker than `Number()`. Only the empty string and decimal digits give a number, and every other string is NaN. Whitespace, signs, fractions, hex and exponent notation are not modelled. Digit strings too long for a double are not modelled either.
- Ping.MakePing: `nextId` is an unbounded natural number. JavaScript's loss of integer precision above 2^53 is not modelled.
- Client.OnMessage: the inbound message is taken to be a string. Some `ws` versions deliver a Buffer, and then the strict comparison with `'PING'` never holds. The version in use is not known here.
