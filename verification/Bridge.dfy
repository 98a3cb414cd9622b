/** The bridge object of services/agent/internal/p2p/bridge.go, whose relays are objects updated in
    place, against the table of `RelayTable`. */
module Bridge {
  import opened Text
  import T = RelayTable

  class PeerRelay {
    const proxyPort: int
    var stream: Option<T.Stream>

    constructor (proxyPort: int, stream: Option<T.Stream>)
      ensures this.proxyPort == proxyPort && this.stream == stream
    {
      this.proxyPort, this.stream := proxyPort, stream;
    }
  }

  class Bridge {
    const self: T.PeerId
    var nextPort: int
    var peers: map<T.PeerId, PeerRelay>
    var bound: set<int>
    var live: set<T.Stream>

    /** No relay object serves two peers. */
    ghost predicate Valid()
      reads this
    {
      forall a, b :: a in peers && b in peers && a != b ==> peers[a] != peers[b]
    }

    ghost function View(): T.Table
      reads this, peers.Values
    {
      T.Table(nextPort, map id | id in peers :: T.Relay(peers[id].proxyPort, peers[id].stream), bound, live)
    }

    constructor (self: T.PeerId, baseProxyPort: int)
      ensures Valid() && this.self == self && View() == T.Table(baseProxyPort, map[], {}, {})
    {
      this.self := self;
      nextPort, peers, bound, live := baseProxyPort, map[], {}, {};
    }

    method AllocateRelay(peerID: T.PeerId, stream: T.Stream, bindOk: bool) returns (port: Option<int>)
      requires Valid()
      modifies this, peers.Values
      ensures Valid() && fresh(peers.Values - old(peers.Values))
      ensures (View(), port) == T.AllocateRelay(old(View()), peerID, stream, bindOk)
    {
      if peerID in peers {
        var relay := peers[peerID];
        if relay.stream.Some? {
          live := live - {relay.stream.value};
        }
        relay.stream := Some(stream);
        assert live == old(live) - T.Only(old(View()).peers[peerID].stream);
        assert View().peers == old(View()).peers[peerID := old(View()).peers[peerID].(stream := Some(stream))];
        return Some(relay.proxyPort);
      }
      port := Listen(bindOk);
      assert View().peers == old(View()).peers;
      if port.Some? {
        Insert(peerID, port.value, Some(stream));
      }
    }

    method AllocateRelayNoStream(peerID: T.PeerId, bindOk: bool) returns (port: Option<int>)
      requires Valid()
      modifies this
      ensures Valid() && fresh(peers.Values - old(peers.Values))
      ensures (View(), port) == T.AllocateWaiting(old(View()), peerID, bindOk)
    {
      port := Listen(bindOk);
      assert View().peers == old(View()).peers;
      if port.Some? {
        Insert(peerID, port.value, None);
      }
    }

    /** Takes the next port and binds it. */
    method Listen(bindOk: bool) returns (port: Option<int>)
      modifies this`nextPort, this`bound
      ensures nextPort == old(nextPort) + 1
      ensures port == if bindOk then Some(old(nextPort)) else None
      ensures bound == if bindOk then old(bound) + {old(nextPort)} else old(bound)
    {
      var next := nextPort;
      nextPort := nextPort + 1;
      if !bindOk {
        return None;
      }
      bound := bound + {next};
      return Some(next);
    }

    method Insert(peerID: T.PeerId, port: int, stream: Option<T.Stream>)
      requires Valid()
      modifies this`peers
      ensures Valid() && fresh(peers.Values - old(peers.Values))
      ensures View() == old(View()).(peers := old(View()).peers[peerID := T.Relay(port, stream)])
    {
      var relay := new PeerRelay(port, stream);
      peers := peers[peerID := relay];
    }

    /** The stream handler, with nothing in between its two sections. */
    method HandleIncoming(remote: T.PeerId, s: T.Stream, bindOk: bool)
      requires Valid()
      modifies this, peers.Values
      ensures Valid() && fresh(peers.Values - old(peers.Values))
      ensures View() == T.AttachStream(old(View()), remote, s, bindOk)
    {
      if remote in peers && peers[remote].stream.Some? {
        var relay := peers[remote];
        live := live - {relay.stream.value};
        relay.stream := Some(s);
        return;
      }
      var port := AllocateRelay(remote, s, bindOk);
      if port == None {
        live := live - {s};
      }
    }

    /** `AddPeer` with nothing in between its sections; `newStream` is what NewStream gives, if asked. */
    method AddPeer(peerID: T.PeerId, newStream: Option<T.Stream>, bindOk: bool) returns (port: Option<int>)
      requires Valid()
      modifies this, peers.Values
      ensures Valid() && fresh(peers.Values - old(peers.Values))
      ensures T.Before(self, peerID) ==>
                if peerID in old(peers) then View() == old(View()) && port == Some(old(peers[peerID].proxyPort))
                else (View(), port) == T.AllocateWaiting(old(View()), peerID, bindOk)
      ensures !T.Before(self, peerID) ==>
                match newStream
                case None => View() == old(View()) && port == None
                case Some(s) =>
                  var was := old(View()).(live := old(live) + {s});
                  View() == T.AttachStream(was, peerID, s, bindOk) && port == T.AllocateRelay(was, peerID, s, bindOk).1
    {
      T.LessIsBefore(self, peerID);
      hide T.Before, T.Less;
      if T.Less(self, peerID) {
        if peerID in peers {
          return Some(peers[peerID].proxyPort);
        }
        hide T.AllocateRelay, T.AllocateWaiting;
        port := AllocateRelayNoStream(peerID, bindOk);
        return;
      }
      if newStream == None {
        return None;
      }
      live := live + {newStream.value};
      assert View() == old(View()).(live := old(live) + {newStream.value});
      hide T.AllocateRelay;
      port := AllocateRelay(peerID, newStream.value, bindOk);
      if port == None {
        live := live - {newStream.value};
      }
    }

    method GetProxyPort(peerID: T.PeerId) returns (port: Option<int>)
      ensures port == if peerID in View().peers then Some(View().peers[peerID].port) else None
    {
      return if peerID in peers then Some(peers[peerID].proxyPort) else None;
    }

    method RemovePeer(peerID: T.PeerId)
      requires Valid()
      modifies this
      ensures Valid()
      ensures View() == if peerID in old(View()).peers
                        then T.CloseRelay(old(View()).(peers := old(View()).peers - {peerID}),
                                          old(View()).peers[peerID])
                        else old(View())
    {
      if peerID !in peers {
        return;
      }
      var relay := peers[peerID];
      peers := peers - {peerID};
      if relay.stream.Some? {
        live := live - {relay.stream.value};
      }
      bound := bound - {relay.proxyPort};
    }

    /** Empties the table and then closes what it held, in any order. */
    method Close()
      requires Valid()
      modifies this
      ensures Valid() && peers == map[] && nextPort == old(nextPort)
      ensures bound == old(bound) - T.Ports(old(View()).peers)
      ensures live == old(live) - T.Streams(old(View()).peers)
    {
      var copy := peers;
      ghost var relays := View().peers;
      peers := map[];
      var todo := copy.Keys;
      while todo != {}
        invariant todo <= copy.Keys && peers == map[] && nextPort == old(nextPort)
        invariant forall p :: p in bound <==>
                    p in old(bound) && !(exists id :: id in copy && id !in todo && copy[id].proxyPort == p)
        invariant forall s :: s in live <==>
                    s in old(live) && !(exists id :: id in copy && id !in todo && copy[id].stream == Some(s))
        decreases todo
      {
        var id :| id in todo;
        todo := todo - {id};
        var relay := copy[id];
        if relay.stream.Some? {
          live := live - {relay.stream.value};
        }
        bound := bound - {relay.proxyPort};
      }
      forall p ensures p in bound <==> p in old(bound) && p !in T.Ports(relays) {
        if id :| id in copy && copy[id].proxyPort == p {
          assert id in relays && id !in todo;
        }
      }
      forall s ensures s in live <==> s in old(live) && s !in T.Streams(relays) {
        if id :| id in copy && copy[id].stream == Some(s) {
          assert id in relays && id !in todo;
        }
      }
    }
  }
}
