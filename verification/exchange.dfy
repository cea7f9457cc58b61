/** The per-connection engine of lib/exchange.js.

    An `Exchange` owns one socket and one `PingPong`. Once `run` has been
    called it answers every inbound PING with a PONG, resolves every inbound
    PONG against its own outstanding pings, ignores every other record, and
    sends a fresh PING on each keepalive tick until the socket closes. Every
    send is gated on the socket being OPEN. The code never consults the auth
    gate of lib/auth.js, and neither does this model.
 */
module Exchange {
  import opened Wire
  import opened Transport
  import Ping

  /** `ticking` says whether the keepalive interval is still scheduled.
      `isClient` only decides whether an 'open' log handler is registered. */
  datatype ExchangeState = ExchangeState(
    socket: Socket<Record>,
    isClient: bool,
    pings: Ping.PingPong,
    ticking: bool)

  ghost predicate Valid(ex: ExchangeState) {
    Ping.Valid(ex.pings)
  }

  /** `new Exchange(ws, isClient)` followed by `run()`: a fresh `PingPong` and
      the keepalive interval scheduled; the socket is in whatever state it was
      handed over in. */
  function Start(ready: ReadyState, isClient: bool): (ex: ExchangeState)
    ensures Valid(ex) && ex.ticking
    ensures ex.pings.nextId == 0 && ex.socket == Socket(ready, [])
    ensures ex.isClient == isClient
  {
    ExchangeState(Socket(ready, []), isClient, Ping.NewPingPong(), true)
  }

  /** `Exchange.sendMessage`: sends only while the socket is OPEN. */
  function SendMessage(ex: ExchangeState, msg: Record): (ex': ExchangeState)
    ensures ex'.socket.ready == ex.socket.ready
    ensures ex'.pings == ex.pings && ex'.ticking == ex.ticking && ex'.isClient == ex.isClient
    ensures ex'.socket.outbox != ex.socket.outbox <==> ex.socket.ready == Open
    ensures ex'.socket.outbox == ex.socket.outbox || ex'.socket.outbox == ex.socket.outbox + [msg]
  {
    if ex.socket.ready == Open then ex.(socket := Send(ex.socket, msg)) else ex
  }

  /** Errors the message handler's catch swallows. */
  datatype ErrorKind =
    | ParseError      // JSON.parse threw
    | NullRecord      // `record.event` of `null` threw
    | UnknownPingId   // `handlePong` dereferenced a missing entry

  /** What the message handler did with one inbound message. */
  datatype MessageOutcome =
    | Replied(pong: Record)        // built a PONG (sent if the socket is OPEN)
    | Measured(entry: Ping.Entry)  // resolved an outstanding ping
    | Ignored                      // an event other than PING or PONG
    | Caught(error: ErrorKind)

  /** Whether an inbound message is a parsed record with the given `event`. */
  predicate HasEvent(m: Inbound, event: string) {
    m.Parsed? && m.value.JObject? && m.value.event == Str(event)
  }

  /** The 'message' handler. */
  function OnMessage(ex: ExchangeState, m: Inbound, now: Timestamp): (r: (ExchangeState, MessageOutcome))
    // nothing but the outbox and the watches ever changes
    ensures r.0.socket.ready == ex.socket.ready && r.0.ticking == ex.ticking && r.0.isClient == ex.isClient
    ensures r.0.pings.nextId == ex.pings.nextId
    ensures r.0.pings.outstanding.Keys == ex.pings.outstanding.Keys
    ensures Valid(ex) ==> Valid(r.0)
    // at most one message goes out, and it is the PONG
    ensures r.0.socket.outbox == ex.socket.outbox ||
            (r.1.Replied? && ex.socket.ready == Open && r.0.socket.outbox == ex.socket.outbox + [r.1.pong])
    // a PING is answered with a PONG carrying its id, and touches no ping state
    ensures r.1.Replied? <==> HasEvent(m, "PING")
    ensures r.1.Replied? ==> r.1.pong == Pong(m.value.id, now) && r.0.pings == ex.pings
    ensures r.1.Replied? && ex.socket.ready == Open ==> r.0.socket.outbox == ex.socket.outbox + [r.1.pong]
    // a PONG resolves an outstanding ping of this exchange or is caught
    ensures r.1.Measured? ==> HasEvent(m, "PONG") && r.0.socket == ex.socket
    ensures HasEvent(m, "PONG") && Ping.HandlePong(ex.pings, m.value.id).Resolved? ==> r.1.Measured?
    ensures r.1.Measured? ==>
              && m.value.id.Num? && 0 <= m.value.id.n && m.value.id.n in ex.pings.outstanding
              && r.1.entry.AsRecord() == ex.pings.outstanding[m.value.id.n].AsRecord()
              && r.1.entry.watch == Ping.Stopped
              && r.0.pings.outstanding[m.value.id.n] == r.1.entry
              && (forall k :: k in ex.pings.outstanding && k != m.value.id.n ==>
                    r.0.pings.outstanding[k] == ex.pings.outstanding[k])
    // errors and other events change nothing at all
    ensures r.1.Ignored? || r.1.Caught? ==> r.0 == ex
    ensures r.1.Caught? <==>
              m.Malformed? || m == Parsed(JNull) ||
              (HasEvent(m, "PONG") && Ping.HandlePong(ex.pings, m.value.id).UnknownId?)
  {
    match m
    case Malformed => (ex, Caught(ParseError))
    case Parsed(record) =>
      match EventOf(record)
      case None => (ex, Caught(NullRecord))
      case Some(event) =>
        if event == Str("PING") then
          var pong := Ping.HandlePing(record.id, now);
          (SendMessage(ex, pong), Replied(pong))
        else if event == Str("PONG") then
          match Ping.HandlePong(ex.pings, record.id)
          case Resolved(pings', entry) => (ex.(pings := pings'), Measured(entry))
          case UnknownId => (ex, Caught(UnknownPingId))
        else
          (ex, Ignored)
  }

  /** The keepalive interval's callback. While the interval is scheduled it
      always allocates a ping id; only the send depends on the socket. */
  function OnTick(ex: ExchangeState, now: Timestamp): (ex': ExchangeState)
    ensures ex'.socket.ready == ex.socket.ready && ex'.ticking == ex.ticking && ex'.isClient == ex.isClient
    ensures !ex.ticking ==> ex' == ex
    ensures ex.ticking ==> ex'.pings.nextId == ex.pings.nextId + 1
    ensures ex.ticking ==> ex'.pings.outstanding.Keys == ex.pings.outstanding.Keys + {ex.pings.nextId}
    // the new entry holds the fresh id, the tick's time stamp and a running watch
    ensures ex.ticking ==> ex'.pings.outstanding[ex.pings.nextId] == Ping.Entry(ex.pings.nextId, now, Ping.Running)
    // every earlier entry is untouched
    ensures Valid(ex) ==> forall k :: k in ex.pings.outstanding ==> ex'.pings.outstanding[k] == ex.pings.outstanding[k]
    ensures Valid(ex) ==> Valid(ex')
    ensures ex'.socket.outbox != ex.socket.outbox <==> ex.ticking && ex.socket.ready == Open
    ensures ex'.socket.outbox == ex.socket.outbox ||
            ex'.socket.outbox == ex.socket.outbox + [Ping(ex.pings.nextId, now)]
  {
    if ex.ticking then
      var (pings', ping) := Ping.MakePing(ex.pings, now);
      SendMessage(ex.(pings := pings'), ping)
    else
      ex
  }

  /** The 'close' handler together with the socket reaching CLOSED: the
      interval is cleared, so no tick ever runs again. */
  function OnClose(ex: ExchangeState): (ex': ExchangeState)
    ensures ex'.socket.ready == Closed && !ex'.ticking
    ensures ex'.socket.outbox == ex.socket.outbox && ex'.pings == ex.pings
    ensures ex'.isClient == ex.isClient
  {
    ex.(socket := Transport.OnClose(ex.socket), ticking := false)
  }

  /** Everything that can happen to a running exchange. */
  datatype Event =
    | SocketOpened                        // the socket's 'open' event
    | SocketClosing                       // a closing handshake has started
    | SocketClosed                        // the socket's 'close' event
    | TransportError                      // the 'error' event: only logged
    | Message(m: Inbound, now: Timestamp)
    | Tick(now: Timestamp)

  function Step(ex: ExchangeState, e: Event): (ex': ExchangeState)
    ensures ex'.pings.nextId >= ex.pings.nextId
    ensures ex'.socket.ready.Rank() >= ex.socket.ready.Rank()
    ensures |ex.socket.outbox| <= |ex'.socket.outbox| <= |ex.socket.outbox| + 1
    ensures ex'.socket.outbox[..|ex.socket.outbox|] == ex.socket.outbox
    ensures ex.pings.outstanding.Keys <= ex'.pings.outstanding.Keys
    ensures Valid(ex) ==> Valid(ex')
  {
    match e
    case SocketOpened => ex.(socket := OnOpen(ex.socket))
    case SocketClosing => ex.(socket := OnClosing(ex.socket))
    case SocketClosed => OnClose(ex)
    case TransportError => ex
    case Message(m, now) => OnMessage(ex, m, now).0
    case Tick(now) => OnTick(ex, now)
  }

  function Run(ex: ExchangeState, events: seq<Event>): (ex': ExchangeState)
    ensures Valid(ex) ==> Valid(ex')
    decreases |events|
  {
    if |events| == 0 then ex else Run(Step(ex, events[0]), events[1..])
  }

  // ----- Lemmas -----

  /** A PONG for an id this exchange never issued is caught; the exchange
      neither sends anything nor changes, and keeps running. */
  lemma UnknownPongIsHarmless(ex: ExchangeState, n: int, now: Timestamp)
    requires Valid(ex)
    requires n < 0 || n >= ex.pings.nextId
    ensures OnMessage(ex, Parsed(JObject(Str("PONG"), Num(n), Absent)), now) == (ex, Caught(UnknownPingId))
  {
  }

  /** The inbound messages a peer sends when it pings with these ids. */
  function PingMessages(ids: seq<Field>, nows: seq<Timestamp>): (ms: seq<Event>)
    requires |ids| == |nows|
    ensures |ms| == |ids|
  {
    seq(|ids|, i requires 0 <= i < |ids| => Message(Parsed(JObject(Str("PING"), ids[i], Absent)), nows[i]))
  }

  /** While the socket stays OPEN, every PING in a row is answered by exactly
      one PONG with the same id, in order, and the ping state is untouched. */
  lemma {:induction false} PingsAnsweredInOrder(ex: ExchangeState, ids: seq<Field>, nows: seq<Timestamp>)
    requires ex.socket.ready == Open
    requires |ids| == |nows|
    ensures var ex' := Run(ex, PingMessages(ids, nows));
            && |ex'.socket.outbox| == |ex.socket.outbox| + |ids|
            && ex'.socket.outbox[..|ex.socket.outbox|] == ex.socket.outbox
            && (forall i :: 0 <= i < |ids| ==> ex'.socket.outbox[|ex.socket.outbox| + i] == Pong(ids[i], nows[i]))
            && ex'.pings == ex.pings
    decreases |ids|
  {
    if |ids| > 0 {
      var events := PingMessages(ids, nows);
      var ex1 := Step(ex, events[0]);
      assert ex1.socket.outbox == ex.socket.outbox + [Pong(ids[0], nows[0])];
      assert events[1..] == PingMessages(ids[1..], nows[1..]);
      PingsAnsweredInOrder(ex1, ids[1..], nows[1..]);
    }
  }

  /** Exchanges that can no longer send or tick: the interval has been
      cleared and the socket is CLOSED. */
  predicate Quiet(ex: ExchangeState) {
    ex.socket.ready == Closed && !ex.ticking
  }

  lemma QuietStep(ex: ExchangeState, e: Event)
    requires Quiet(ex)
    ensures Quiet(Step(ex, e))
    ensures Step(ex, e).socket.outbox == ex.socket.outbox
    ensures Step(ex, e).pings.nextId == ex.pings.nextId
  {
  }

  /** After 'close' nothing is ever sent again and no ping id is allocated,
      whatever events follow. */
  lemma {:induction false} QuietAfterClose(ex: ExchangeState, events: seq<Event>)
    ensures var ex' := Run(OnClose(ex), events);
            ex'.socket.outbox == ex.socket.outbox && ex'.pings.nextId == ex.pings.nextId && Quiet(ex')
  {
    QuietRun(OnClose(ex), events);
  }

  lemma {:induction false} QuietRun(ex: ExchangeState, events: seq<Event>)
    requires Quiet(ex)
    ensures var ex' := Run(ex, events);
            ex'.socket.outbox == ex.socket.outbox && ex'.pings.nextId == ex.pings.nextId && Quiet(ex')
    decreases |events|
  {
    if |events| > 0 {
      QuietStep(ex, events[0]);
      QuietRun(Step(ex, events[0]), events[1..]);
    }
  }

  function Ticks(nows: seq<Timestamp>): (ts: seq<Event>)
    ensures |ts| == |nows|
  {
    seq(|nows|, i requires 0 <= i < |nows| => Tick(nows[i]))
  }

  /** While the interval runs, `k` ticks allocate `k` fresh ids whether or
      not the socket is OPEN; they are sent, in order, exactly when it is. */
  lemma {:induction false} TicksAllocateIds(ex: ExchangeState, nows: seq<Timestamp>)
    requires ex.ticking
    ensures var ex' := Run(ex, Ticks(nows));
            && ex'.pings.nextId == ex.pings.nextId + |nows|
            && ex'.socket.ready == ex.socket.ready && ex'.ticking
            && (ex.socket.ready != Open ==> ex'.socket.outbox == ex.socket.outbox)
            && (ex.socket.ready == Open ==>
                  && |ex'.socket.outbox| == |ex.socket.outbox| + |nows|
                  && ex'.socket.outbox[..|ex.socket.outbox|] == ex.socket.outbox
                  && forall i :: 0 <= i < |nows| ==>
                       ex'.socket.outbox[|ex.socket.outbox| + i] == Ping(ex.pings.nextId + i, nows[i]))
    decreases |nows|
  {
    if |nows| > 0 {
      var ex1 := Step(ex, Ticks(nows)[0]);
      assert Ticks(nows)[1..] == Ticks(nows[1..]);
      TicksAllocateIds(ex1, nows[1..]);
    }
  }

  /** Two running exchanges over OPEN sockets: a PING one sends on a tick,
      parsed by the other, is answered; the PONG, parsed back, resolves
      exactly the entry the tick filed. */
  lemma ExchangeRoundTrip(a: ExchangeState, b: ExchangeState, t1: Timestamp, t2: Timestamp, t3: Timestamp)
    requires Valid(a) && a.ticking && a.socket.ready == Open
    requires b.socket.ready == Open
    ensures var a1 := OnTick(a, t1);
            var ping := a1.socket.outbox[|a1.socket.outbox| - 1];
            var (b1, reply) := OnMessage(b, Parsed(AsJson(ping)), t2);
            var pong := b1.socket.outbox[|b1.socket.outbox| - 1];
            var (a2, result) := OnMessage(a1, Parsed(AsJson(pong)), t3);
            && ping == Ping(a.pings.nextId, t1)
            && reply.Replied? && pong == reply.pong
            && result.Measured? && result.entry.AsRecord() == ping
            && a2.socket.outbox == a1.socket.outbox
  {
  }

  /** A fresh exchange handed an OPEN socket sends its first PING, id 0, on
      the very first tick. */
  lemma FirstTickSendsPingZero(isClient: bool, now: Timestamp)
    ensures OnTick(Start(Open, isClient), now).socket.outbox == [Ping(0, now)]
  {
  }
}
