/** The ping bookkeeping of lib/ping.js.

    `PingPong` hands out ping ids from a counter and remembers every ping it
    made, with its time stamp and a stopwatch, in a map that is never pruned.
    Time stamps come in as parameters; a stopwatch is only running or stopped.
 */
module Ping {
  import opened Wire

  datatype Watch = Running | Stopped

  /** An outstanding-map entry: the PING record plus its stopwatch. */
  datatype Entry = Entry(id: nat, ts: Timestamp, watch: Watch) {
    function AsRecord(): Record {
      Ping(id, ts)
    }
  }

  datatype PingPong = PingPong(nextId: nat, outstanding: map<nat, Entry>)

  /** The map holds exactly one entry per id issued so far, filed under its id. */
  ghost predicate Valid(p: PingPong) {
    && (forall k: nat :: k in p.outstanding <==> k < p.nextId)
    && (forall k :: k in p.outstanding ==> p.outstanding[k].id == k)
  }

  /** The `PingPong` constructor. */
  function NewPingPong(): (p: PingPong)
    ensures Valid(p)
    ensures p.nextId == 0 && |p.outstanding| == 0
  {
    PingPong(0, map[])
  }

  /** `makePing`: the PING record to send, and the state after filing it. */
  function MakePing(p: PingPong, now: Timestamp): (r: (PingPong, Record))
    ensures r.1 == Ping(p.nextId, now)
    ensures r.0.nextId == p.nextId + 1
    ensures r.0.outstanding.Keys == p.outstanding.Keys + {p.nextId}
    ensures r.0.outstanding[p.nextId].AsRecord() == r.1 && r.0.outstanding[p.nextId].watch == Running
    ensures Valid(p) ==> p.nextId !in p.outstanding && Valid(r.0)
    ensures Valid(p) ==> forall k :: k in p.outstanding ==> r.0.outstanding[k] == p.outstanding[k]
  {
    var id := p.nextId;
    var ping := Ping(id, now);
    (PingPong(id + 1, p.outstanding[id := Entry(id, now, Running)]), ping)
  }

  /** `handlePing`: the PONG echoing whatever `id` the PING carried. It reads
      no state, so it cannot change any. */
  function HandlePing(id: Field, now: Timestamp): (r: Record)
    ensures r.Pong? && r.pongId == id && r.ts == now
  {
    Pong(id, now)
  }

  /** The outcome of `handlePong`: the entry, its watch stopped, or the
      TypeError thrown when `outstanding.get(id)` is `undefined`. */
  datatype PongResult = Resolved(state: PingPong, entry: Entry) | UnknownId

  /** `handlePong`. `Map.get` compares keys with SameValueZero, so only a
      number equal to an issued id finds an entry. */
  function HandlePong(p: PingPong, id: Field): (r: PongResult)
    ensures r.Resolved? <==> id.Num? && 0 <= id.n && id.n in p.outstanding
    ensures r.Resolved? ==>
              && r.state.nextId == p.nextId
              && r.state.outstanding.Keys == p.outstanding.Keys
              && r.entry.AsRecord() == p.outstanding[id.n].AsRecord()
              && r.entry.watch == Stopped
              && r.state.outstanding[id.n] == r.entry
              && (forall k :: k in p.outstanding && k != id.n ==> r.state.outstanding[k] == p.outstanding[k])
              && (Valid(p) ==> Valid(r.state))
  {
    if id.Num? && 0 <= id.n && id.n in p.outstanding then
      var entry := p.outstanding[id.n].(watch := Stopped);
      Resolved(p.(outstanding := p.outstanding[id.n := entry]), entry)
    else
      UnknownId
  }

  /** `n` calls of `makePing` in a row, one per time stamp. */
  function MakePings(p: PingPong, nows: seq<Timestamp>): (r: (PingPong, seq<Record>))
    ensures |r.1| == |nows|
    ensures r.0.nextId == p.nextId + |nows|
    ensures Valid(p) ==> Valid(r.0)
    decreases |nows|
  {
    if |nows| == 0 then (p, [])
    else
      var first := MakePing(p, nows[0]);
      var rest := MakePings(first.0, nows[1..]);
      (rest.0, [first.1] + rest.1)
  }

  // ----- Lemmas -----

  /** Under `Valid`, a PONG resolves exactly when it names an id this peer has
      issued, whatever its watch says. */
  lemma PongResolvesIffIssued(p: PingPong, id: Field)
    requires Valid(p)
    ensures HandlePong(p, id).Resolved? <==> exists k: nat :: id == Num(k) && k < p.nextId
  {
  }

  /** A PONG for an id never issued fails and leaves the state as it was,
      since the throwing call changes nothing. */
  lemma UnknownPongChangesNothing(p: PingPong, n: int)
    requires Valid(p)
    requires n < 0 || n >= p.nextId
    ensures HandlePong(p, Num(n)) == UnknownId
  {
  }

  /** The PING this peer makes, echoed by the peer's `handlePing` and routed
      back, resolves exactly the entry `makePing` filed. */
  lemma PingRoundTrip(p: PingPong, now: Timestamp, peerNow: Timestamp)
    ensures var (p', ping) := MakePing(p, now);
            var pong := HandlePing(AsJson(ping).id, peerNow);
            var r := HandlePong(p', AsJson(pong).id);
            && r.Resolved?
            && r.entry.AsRecord() == ping
            && r.entry.watch == Stopped
            && r.state.nextId == p'.nextId
  {
  }

  /** The ids `makePing` hands out in a row are consecutive from the old
      counter: distinct and strictly increasing. */
  lemma {:induction false} MakePingsIds(p: PingPong, nows: seq<Timestamp>)
    ensures var recs := MakePings(p, nows).1;
            forall i :: 0 <= i < |recs| ==> recs[i] == Ping(p.nextId + i, nows[i])
    decreases |nows|
  {
    if |nows| > 0 {
      var first := MakePing(p, nows[0]);
      MakePingsIds(first.0, nows[1..]);
    }
  }

  /** Starting fresh, after `n` pings the map holds exactly the ids `0..n-1`,
      each with the time stamp it was made with and a running watch. */
  lemma {:induction false} FreshPingsOutstanding(p: PingPong, nows: seq<Timestamp>)
    requires Valid(p)
    ensures var q := MakePings(p, nows).0;
            && (forall k: nat :: k in q.outstanding <==> k < p.nextId + |nows|)
            && (forall i :: 0 <= i < |nows| ==> q.outstanding[p.nextId + i] == Entry(p.nextId + i, nows[i], Running))
            && (forall k :: k in p.outstanding ==> q.outstanding[k] == p.outstanding[k])
    decreases |nows|
  {
    if |nows| > 0 {
      var first := MakePing(p, nows[0]);
      FreshPingsOutstanding(first.0, nows[1..]);
      var q := MakePings(p, nows).0;
      assert q == MakePings(first.0, nows[1..]).0;
      forall i | 0 <= i < |nows|
        ensures q.outstanding[p.nextId + i] == Entry(p.nextId + i, nows[i], Running)
      {
        if i > 0 {
          assert nows[1..][i - 1] == nows[i];
        }
      }
    }
  }
}
