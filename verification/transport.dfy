/** The WebSocket as the code sees it: a `readyState` and the messages that
    `send` has handed to the wire. The `ws` library, framing and buffering are
    not modelled; a send while the socket is not OPEN is never attempted by the
    callers, so `Send` only describes a send that happens.
 */
module Transport {

  /** The four values of `WebSocket.readyState`. */
  datatype ReadyState = Connecting | Open | Closing | Closed {
    /** Position in the lifecycle; a socket only ever moves forward. */
    function Rank(): nat {
      match this
      case Connecting => 0
      case Open => 1
      case Closing => 2
      case Closed => 3
    }
  }

  datatype Socket<M> = Socket(ready: ReadyState, outbox: seq<M>)

  /** `ws.send(msg)`, the message joining the end of what was already sent. */
  function Send<M>(s: Socket<M>, msg: M): (s': Socket<M>)
    ensures s'.ready == s.ready
    ensures |s'.outbox| == |s.outbox| + 1
    ensures s'.outbox[..|s.outbox|] == s.outbox && s'.outbox[|s.outbox|] == msg
  {
    s.(outbox := s.outbox + [msg])
  }

  /** The 'open' event: a connecting socket becomes OPEN. */
  function OnOpen<M>(s: Socket<M>): (s': Socket<M>)
    ensures s'.outbox == s.outbox
    ensures s'.ready.Rank() >= s.ready.Rank()
  {
    if s.ready == Connecting then s.(ready := Open) else s
  }

  /** The closing handshake starts (either side called `close`). */
  function OnClosing<M>(s: Socket<M>): (s': Socket<M>)
    ensures s'.outbox == s.outbox
    ensures s'.ready.Rank() >= s.ready.Rank()
  {
    if s.ready == Connecting || s.ready == Open then s.(ready := Closing) else s
  }

  /** The 'close' event: the socket is CLOSED for good. */
  function OnClose<M>(s: Socket<M>): (s': Socket<M>)
    ensures s'.outbox == s.outbox
    ensures s'.ready.Rank() >= s.ready.Rank()
  {
    s.(ready := Closed)
  }
}
