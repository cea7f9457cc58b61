/** The stand-alone client of commands/client.js.

    It turns `<host>:<port>` into a `ws://` or `wss://` URL, opens a socket,
    sends the text `PING` once a second, and answers the text `PING` with the
    text `PONG`. It uses neither the `Exchange` nor the auth gate.
 */
module Client {
  import opened Wire
  import opened Transport

  // ----- String splitting -----

  /** `s.split(sep)`: the pieces between separators, in order. */
  function Split(s: string, sep: char): (parts: seq<string>)
    ensures |parts| >= 1
    ensures forall i :: 0 <= i < |parts| ==> sep !in parts[i]
    decreases |s|
  {
    if |s| == 0 then [""]
    else
      var rest := Split(s[1..], sep);
      if s[0] == sep then [""] + rest
      else
        var first := [s[0]] + rest[0];
        assert sep !in first;
        [first] + rest[1..]
  }

  /** `parts.join(sep)`, the inverse of `Split`. */
  function Join(parts: seq<string>, sep: char): string
    requires |parts| >= 1
    decreases |parts|
  {
    if |parts| == 1 then parts[0] else parts[0] + [sep] + Join(parts[1..], sep)
  }

  /** `s.split(sep, limit)`: the first `limit` pieces of the full split. */
  function SplitLimit(s: string, sep: char, limit: nat): (parts: seq<string>)
    ensures |parts| <= limit && |parts| <= |Split(s, sep)|
    ensures |parts| == limit || |parts| == |Split(s, sep)|
    ensures forall i :: 0 <= i < |parts| ==> parts[i] == Split(s, sep)[i]
  {
    var all := Split(s, sep);
    if |all| <= limit then all else all[..limit]
  }

  lemma {:induction false} SplitJoin(s: string, sep: char)
    ensures Join(Split(s, sep), sep) == s
    decreases |s|
  {
    if |s| > 0 {
      var rest := Split(s[1..], sep);
      SplitJoin(s[1..], sep);
      if s[0] == sep {
        assert Join([""] + rest, sep) == [sep] + Join(rest, sep);
      } else {
        var parts := Split(s, sep);
        assert parts[1..] == rest[1..];
        if |rest| == 1 {
          assert Join(parts, sep) == [s[0]] + rest[0];
        } else {
          assert Join(rest, sep) == rest[0] + [sep] + Join(rest[1..], sep);
          assert Join(parts, sep) == [s[0]] + rest[0] + [sep] + Join(rest[1..], sep);
        }
        assert s == [s[0]] + s[1..];
      }
    }
  }

  /** Text free of separators sticks to the front of the first piece. */
  lemma {:induction false} SplitAfterPlain(t: string, u: string, sep: char)
    requires sep !in t
    ensures Split(t + u, sep) == [t + Split(u, sep)[0]] + Split(u, sep)[1..]
    decreases |t|
  {
    if |t| == 0 {
      assert t + u == u;
      var parts := Split(u, sep);
      assert parts == [parts[0]] + parts[1..];
      assert t + parts[0] == parts[0];
    } else {
      assert (t + u)[1..] == t[1..] + u;
      SplitAfterPlain(t[1..], u, sep);
      assert [t[0]] + (t[1..] + Split(u, sep)[0]) == t + Split(u, sep)[0];
    }
  }

  lemma {:induction false} JoinSplit(parts: seq<string>, sep: char)
    requires |parts| >= 1
    requires forall i :: 0 <= i < |parts| ==> sep !in parts[i]
    ensures Split(Join(parts, sep), sep) == parts
    decreases |parts|
  {
    if |parts| == 1 {
      SplitAfterPlain(parts[0], "", sep);
      assert parts[0] + "" == parts[0];
    } else {
      var tail := Join(parts[1..], sep);
      JoinSplit(parts[1..], sep);
      assert ([sep] + tail)[1..] == tail;
      assert Split([sep] + tail, sep) == [""] + parts[1..];
      assert Join(parts, sep) == parts[0] + ([sep] + tail);
      SplitAfterPlain(parts[0], [sep] + tail, sep);
      assert parts[0] + "" == parts[0];
    }
  }

  /** A leading separator splits off an empty piece. */
  lemma SplitAtSep(x: string, sep: char)
    ensures Split([sep] + x, sep) == [""] + Split(x, sep)
  {
  }

  /** The first piece is the text before the first separator. */
  lemma FirstPieceIsPrefix(s: string, sep: char)
    ensures var first := Split(s, sep)[0];
            && |first| <= |s| && s[..|first|] == first
            && (|first| < |s| ==> s[|first|] == sep)
            && (sep !in s ==> Split(s, sep) == [s])
  {
    var all := Split(s, sep);
    SplitJoin(s, sep);
    if |all| > 1 {
      assert Join(all, sep) == all[0] + [sep] + Join(all[1..], sep);
    } else {
      assert s == all[0];
    }
  }

  // ----- Numbers -----

  /** A JavaScript number as far as a port can be one. */
  datatype NumberValue = Finite(n: nat) | NaN

  predicate IsDigit(c: char) {
    '0' <= c <= '9'
  }

  predicate AllDigits(t: string) {
    forall i :: 0 <= i < |t| ==> IsDigit(t[i])
  }

  /** The value of a string of decimal digits, most significant first. */
  function DigitsValue(t: string): nat
    requires AllDigits(t)
    decreases |t|
  {
    if |t| == 0 then 0
    else DigitsValue(t[..|t| - 1]) * 10 + (t[|t| - 1] as int - '0' as int)
  }

  /** `Number(text)` for a piece of the address (None: the piece is missing,
      i.e. `undefined`). The empty string is 0 and a string of decimal
      digits is its value; every other string is taken to be NaN. */
  function ToNumber(text: Option<string>): (v: NumberValue)
    ensures text.None? ==> v == NaN
    ensures text == Some("") ==> v == Finite(0)
    ensures v.Finite? ==> text.Some? && AllDigits(text.value)
    ensures text.Some? && AllDigits(text.value) ==> v == Finite(DigitsValue(text.value))
  {
    match text
    case None => NaN
    case Some(t) => if AllDigits(t) then Finite(DigitsValue(t)) else NaN
  }

  /** The canonical decimal spelling of `n`, as `String(n)` prints it. */
  function Decimal(n: nat): (t: string)
    ensures |t| >= 1 && AllDigits(t)
    // no leading zeros: only 0 itself is spelled with a leading `0`
    ensures t[0] == '0' ==> n == 0
    decreases n
  {
    var last := ['0' + (n % 10) as char];
    if n < 10 then last else Decimal(n / 10) + last
  }

  lemma {:induction false} DecimalValue(n: nat)
    ensures DigitsValue(Decimal(n)) == n
    decreases n
  {
    var t := Decimal(n);
    if n >= 10 {
      DecimalValue(n / 10);
      assert t[..|t| - 1] == Decimal(n / 10);
    }
  }

  /** `Number` reads back what `String` printed. */
  lemma DecimalRoundTrip(n: nat)
    ensures ToNumber(Some(Decimal(n))) == Finite(n)
  {
    DecimalValue(n);
  }

  // ----- Addresses and URLs -----

  datatype Address = Address(host: string, port: NumberValue)

  /** `parseAddress`. */
  function ParseAddress(address: string): (a: Address)
    ensures ':' !in a.host
    ensures |a.host| <= |address| && address[..|a.host|] == a.host
    ensures |a.host| < |address| ==> address[|a.host|] == ':'
    ensures ':' !in address ==> a == Address(address, NaN)
  {
    var parts := SplitLimit(address, ':', 2);
    FirstPieceIsPrefix(address, ':');
    Address(parts[0], ToNumber(if |parts| > 1 then Some(parts[1]) else None))
  }

  function Scheme(secure: bool): string {
    if secure then "wss" else "ws"
  }

  /** The text `${port}` produces. */
  function PortText(port: NumberValue): string {
    match port
    case Finite(n) => Decimal(n)
    case NaN => "NaN"
  }

  /** The URL the client connects to. */
  function Url(secure: bool, a: Address): (url: string)
    ensures var n := |Scheme(secure)|;
            && n + 3 <= |url|
            && url[..n] == Scheme(secure) && url[n..n + 3] == "://"
            && url[n + 3..] == a.host + ":" + PortText(a.port)
  {
    Scheme(secure) + "://" + a.host + ":" + PortText(a.port)
  }

  /** With a port and more colons after it, the port is what lies between the
      first and the second colon, and the rest is dropped. */
  lemma ParseAddressPieces(host: string, port: string, rest: string)
    requires ':' !in host && ':' !in port
    requires rest == [] || rest[0] == ':'
    ensures ParseAddress(host + ":" + port + rest) == Address(host, ToNumber(Some(port)))
  {
    var s := host + ":" + port + rest;
    var x := port + rest;
    assert s == host + ([':'] + x);
    SplitAfterPlain(host, [':'] + x, ':');
    SplitAtSep(x, ':');
    SplitAfterPlain(port, rest, ':');
    if rest != [] {
      assert rest == [':'] + rest[1..];
      SplitAtSep(rest[1..], ':');
    }
    assert Split(x, ':')[0] == port;
    assert Split(s, ':')[0] == host;
    assert Split(s, ':')[1] == port;
  }

  /** `parseAddress` inverts `host:port` for a colon-free host and a decimal
      port. */
  lemma AddressRoundTrip(host: string, n: nat)
    requires ':' !in host
    ensures ParseAddress(host + ":" + Decimal(n)) == Address(host, Finite(n))
  {
    assert ':' !in Decimal(n);
    ParseAddressPieces(host, Decimal(n), []);
    assert host + ":" + Decimal(n) + [] == host + ":" + Decimal(n);
    DecimalRoundTrip(n);
  }

  /** The scheme is `wss` exactly for a secure connection. */
  lemma SchemeIsWssIffSecure(secure: bool)
    ensures Scheme(secure) == "wss" <==> secure
  {
  }

  /** The part of the URL after `scheme://` parses back to the address it was
      built from, whenever the port is a number. */
  lemma UrlAuthorityRoundTrip(secure: bool, address: string)
    ensures var a := ParseAddress(address);
            var url := Url(secure, a);
            a.port.Finite? ==> ParseAddress(url[|Scheme(secure)| + 3..]) == a
  {
    var a := ParseAddress(address);
    if a.port.Finite? {
      var url := Url(secure, a);
      assert url[|Scheme(secure)| + 3..] == a.host + ":" + Decimal(a.port.n);
      AddressRoundTrip(a.host, a.port.n);
    }
  }

  // ----- The connection -----

  /** `sendMessage`: sends only while the socket is OPEN. */
  function SendMessage(ws: Socket<string>, msg: string): (ws': Socket<string>)
    ensures ws'.ready == ws.ready
    ensures ws'.outbox != ws.outbox <==> ws.ready == Open
    ensures ws'.outbox == ws.outbox || ws'.outbox == ws.outbox + [msg]
  {
    if ws.ready == Open then Send(ws, msg) else ws
  }

  /** `ticking`: the one-second interval is still scheduled. */
  datatype ClientState = ClientState(ws: Socket<string>, ticking: bool)

  /** `handler`: the URL to connect to and the state right after
      `new WebSocket(url)` and `setInterval`. */
  function Connect(serverAddress: string, secure: bool): (r: (string, ClientState))
    ensures r.1.ws == Socket(Connecting, []) && r.1.ticking
    ensures |Scheme(secure)| + 3 <= |r.0| && r.0[..|Scheme(secure)| + 3] == Scheme(secure) + "://"
    ensures var a := ParseAddress(serverAddress);
            r.0[|Scheme(secure)| + 3..] == a.host + ":" + PortText(a.port)
    ensures ParseAddress(serverAddress).port.Finite? ==>
              ParseAddress(r.0[|Scheme(secure)| + 3..]) == ParseAddress(serverAddress)
  {
    UrlAuthorityRoundTrip(secure, serverAddress);
    (Url(secure, ParseAddress(serverAddress)), ClientState(Socket(Connecting, []), true))
  }

  /** The 'message' handler: only the exact text `PING` is answered. */
  function OnMessage(c: ClientState, msg: string): (c': ClientState)
    ensures c'.ticking == c.ticking && c'.ws.ready == c.ws.ready
    ensures c'.ws.outbox != c.ws.outbox <==> msg == "PING" && c.ws.ready == Open
    ensures c'.ws.outbox == c.ws.outbox || c'.ws.outbox == c.ws.outbox + ["PONG"]
  {
    if msg == "PING" then c.(ws := SendMessage(c.ws, "PONG")) else c
  }

  /** The interval callback. */
  function OnTick(c: ClientState): (c': ClientState)
    ensures c'.ticking == c.ticking && c'.ws.ready == c.ws.ready
    ensures c'.ws.outbox != c.ws.outbox <==> c.ticking && c.ws.ready == Open
    ensures c'.ws.outbox == c.ws.outbox || c'.ws.outbox == c.ws.outbox + ["PING"]
  {
    if c.ticking then c.(ws := SendMessage(c.ws, "PING")) else c
  }

  /** The 'close' handler: the interval is cleared. */
  function OnClose(c: ClientState): (c': ClientState)
    ensures c'.ws.ready == Closed && !c'.ticking && c'.ws.outbox == c.ws.outbox
  {
    ClientState(Transport.OnClose(c.ws), false)
  }

  /** Two clients over OPEN sockets: a tick of one, answered by the other,
      puts exactly `PING` and `PONG` on the two wires. */
  lemma ClientsPingPong(a: ClientState, b: ClientState)
    requires a.ticking && a.ws.ready == Open && b.ws.ready == Open
    ensures var a1 := OnTick(a);
            var b1 := OnMessage(b, a1.ws.outbox[|a1.ws.outbox| - 1]);
            a1.ws.outbox == a.ws.outbox + ["PING"] && b1.ws.outbox == b.ws.outbox + ["PONG"]
  {
  }

  /** After 'close' neither a tick nor a message sends anything. */
  lemma ClientQuietAfterClose(c: ClientState, msg: string)
    ensures OnTick(OnClose(c)).ws.outbox == c.ws.outbox
    ensures OnMessage(OnClose(c), msg).ws.outbox == c.ws.outbox
  {
  }
}
