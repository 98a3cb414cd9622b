/** The relay table of services/agent/internal/p2p/bridge.go.

    A socket is named by its port, a stream by a number; `bound` are the sockets and `live` the
    streams that this bridge has open. The mutex guards single sections of an operation, so an
    operation that gives it up in between is modelled as several steps. */
module RelayTable {
  import opened Text

  type PeerId = string
  type Stream = nat

  // ---------- Who opens the stream ----------

  /** Go's order on strings. */
  predicate Less(a: string, b: string) {
    b != [] && (a == [] || a[0] < b[0] || (a[0] == b[0] && Less(a[1..], b[1..])))
  }

  /** What that order is: a proper prefix comes first, and otherwise the first character in which the two
      differ decides. */
  ghost predicate Before(a: string, b: string) {
    a != b && (a <= b || exists k :: DiffersFirstAt(a, b, k) && a[k] < b[k])
  }

  predicate DiffersFirstAt(a: string, b: string, k: int) {
    0 <= k < |a| && k < |b| && a[..k] == b[..k] && a[k] != b[k]
  }

  lemma {:induction false} FirstDiffers(a: string, b: string, k: int)
    requires DiffersFirstAt(a, b, k)
    ensures k == 0 <==> a[0] != b[0]
  {
    assert k > 0 ==> a[..k][0] == b[..k][0];
  }

  lemma {:induction false} BeforeTail(a: string, b: string)
    requires a != [] && b != [] && a[0] == b[0]
    ensures Before(a, b) <==> Before(a[1..], b[1..])
  {
    var a', b' := a[1..], b[1..];
    assert a == [a[0]] + a' && b == [b[0]] + b';
    if k :| DiffersFirstAt(a', b', k) && a'[k] < b'[k] {
      assert a[..k + 1] == [a[0]] + a'[..k] && b[..k + 1] == [b[0]] + b'[..k];
      assert DiffersFirstAt(a, b, k + 1);
    }
    if k :| DiffersFirstAt(a, b, k) && a[k] < b[k] {
      FirstDiffers(a, b, k);
      assert a'[..k - 1] == a[..k][1..] && b'[..k - 1] == b[..k][1..];
      assert DiffersFirstAt(a', b', k - 1);
    }
  }

  lemma {:induction false} LessIsBefore(a: string, b: string)
    ensures Less(a, b) <==> Before(a, b)
  {
    if a != [] && b != [] && a[0] == b[0] {
      LessIsBefore(a[1..], b[1..]);
      BeforeTail(a, b);
      hide Before;
    } else if a != [] && b != [] {
      assert DiffersFirstAt(a, b, 0);
      if k :| DiffersFirstAt(a, b, k) && a[k] < b[k] {
        FirstDiffers(a, b, k);
      }
    }
  }

  /** Of two different IDs exactly one is the larger. */
  lemma {:induction false} LessTotal(a: string, b: string)
    ensures a != b ==> (Less(a, b) <==> !Less(b, a))
    ensures a == b ==> !Less(a, b)
  {
    if a != [] && b != [] && a[0] == b[0] {
      LessTotal(a[1..], b[1..]);
      assert a == [a[0]] + a[1..] && b == [b[0]] + b[1..];
    }
  }

  // ---------- The locked sections ----------

  datatype Relay = Relay(port: int, stream: Option<Stream>)

  datatype Table = Table(nextPort: int, peers: map<PeerId, Relay>, bound: set<int>, live: set<Stream>)

  function Only(s: Option<Stream>): set<Stream> {
    if s.Some? then {s.value} else {}
  }

  /** `allocateRelay`: an existing relay swaps its stream, resetting the old one; otherwise a new relay
      takes the next port, which is spent even if the socket cannot be bound. */
  function AllocateRelay(t: Table, peer: PeerId, s: Stream, bindOk: bool): (Table, Option<int>) {
    if peer in t.peers then
      var r := t.peers[peer];
      (t.(peers := t.peers[peer := r.(stream := Some(s))], live := t.live - Only(r.stream)), Some(r.port))
    else if !bindOk then (t.(nextPort := t.nextPort + 1), None)
    else
      (Table(t.nextPort + 1, t.peers[peer := Relay(t.nextPort, Some(s))], t.bound + {t.nextPort}, t.live),
       Some(t.nextPort))
  }

  /** `allocateRelay` and, if it fails, the closing of the stream by its caller. */
  function AttachStream(t: Table, peer: PeerId, s: Stream, bindOk: bool): Table {
    var (t', port) := AllocateRelay(t, peer, s, bindOk);
    if port == None then t'.(live := t'.live - {s}) else t'
  }

  /** `allocateRelayNoStream`, which does not look whether a relay has appeared meanwhile. */
  function AllocateWaiting(t: Table, peer: PeerId, bindOk: bool): (Table, Option<int>) {
    if !bindOk then (t.(nextPort := t.nextPort + 1), None)
    else
      (Table(t.nextPort + 1, t.peers[peer := Relay(t.nextPort, None)], t.bound + {t.nextPort}, t.live),
       Some(t.nextPort))
  }

  /** The stream handler swaps at once only where a relay with a stream exists. */
  predicate SwapsAtOnce(t: Table, peer: PeerId) {
    peer in t.peers && t.peers[peer].stream.Some?
  }

  /** What closing a relay does. */
  function CloseRelay(t: Table, r: Relay): Table {
    t.(bound := t.bound - {r.port}, live := t.live - Only(r.stream))
  }

  /** The port that an allocation answers is the one that the peer then has; it answers none exactly
      when a socket was needed and could not be bound, and then the peer has no new relay. An existing
      relay keeps its port; each new one takes the next in line, and so does each failed bind. */
  lemma {:induction false} PortAnswered(t: Table, peer: PeerId, s: Stream, bindOk: bool)
    ensures var (t', port) := AllocateRelay(t, peer, s, bindOk);
            && (port == None <==> peer !in t.peers && !bindOk)
            && (port == None ==> t'.peers == t.peers && t'.bound == t.bound)
            && (port.Some? ==> peer in t'.peers && t'.peers[peer] == Relay(port.value, Some(s)))
            && (if peer in t.peers then port == Some(t.peers[peer].port) && t'.nextPort == t.nextPort
                else (port.Some? ==> port.value == t.nextPort) && t'.nextPort == t.nextPort + 1)
            && (forall id :: id in t.peers && id != peer ==> id in t'.peers && t'.peers[id] == t.peers[id])
    ensures var (t', port) := AllocateWaiting(t, peer, bindOk);
            && (port == None <==> !bindOk)
            && (port == None ==> t'.peers == t.peers && t'.bound == t.bound)
            && (port.Some? ==> peer in t'.peers && t'.peers[peer] == Relay(port.value, None))
            && (port.Some? ==> port.value == t.nextPort) && t'.nextPort == t.nextPort + 1
            && (forall id :: id in t.peers && id != peer ==> id in t'.peers && t'.peers[id] == t.peers[id])
  {
  }

  /** The ports and the streams that some relays hold. */
  function Ports(relays: map<PeerId, Relay>): set<int> {
    set id | id in relays :: relays[id].port
  }

  function Streams(relays: map<PeerId, Relay>): set<Stream> {
    set id | id in relays && relays[id].stream.Some? :: relays[id].stream.value
  }
}
