/** How services/discovery/internal/grpc/handler.go stores the address and port of a peer as one
    text and takes it apart again for a listing. */
module Endpoint {
  import opened Text

  /** What `RegisterPeer` stores. */
  function Build(ipAddress: string, port: int): string {
    ipAddress + ":" + Sprint(port)
  }

  /** The address, a colon, and the port in decimal. */
  lemma {:induction false} BuildShape(ipAddress: string, port: int)
    requires -0x8000_0000 <= port < 0x8000_0000
    ensures var endpoint, n := Build(ipAddress, port), |ipAddress|;
            n < |endpoint| && endpoint[..n] == ipAddress && endpoint[n] == ':' && Atoi(endpoint[n + 1..]) == Some(port)
  {
    AtoiSprint(port);
    assert Build(ipAddress, port)[|ipAddress| + 1..] == Sprint(port);
    hide Atoi, Sprint;
  }

  /** What `ListPeers` shows of a stored endpoint. */
  function Take(endpoint: string): (string, int) {
    var parts := Split(endpoint, ':');
    if |parts| != 2 then ("", 0)
    else
      (parts[0], match Atoi(parts[1]) case Some(i) => Int32(i) case None => 0)
  }

  /** A text with one ':' is taken apart there: what follows is the port if it reads as a number, cut to 32
      bits, and otherwise the port is 0. A text without ':' shows nothing. */
  lemma {:induction false} TakeExactly(address: string, rest: string)
    requires ':' !in address && ':' !in rest
    ensures Take(address) == ("", 0)
    ensures var (shown, port) := Take(address + [':'] + rest);
            && shown == address && -0x8000_0000 <= port < 0x8000_0000
            && match Atoi(rest)
               case None => port == 0
               case Some(i) => (port - i) % 0x1_0000_0000 == 0
  {
    SplitAt(address, ':', rest);
    SplitWhole(address, ':');
    SplitWhole(rest, ':');
    hide Split, Atoi;
  }

  /** An address without ':' comes back with its port, negative ports included; an address with
      ':' is shown as the empty address and port 0. */
  lemma {:induction false} RoundTrip(ipAddress: string, port: int)
    requires -0x8000_0000 <= port < 0x8000_0000
    ensures Take(Build(ipAddress, port)) == if ':' in ipAddress then ("", 0) else (ipAddress, port)
  {
    SplitAt(ipAddress, ':', Sprint(port));
    assert Build(ipAddress, port) == ipAddress + [':'] + Sprint(port);
    SprintHasNo(port, ':');
    SplitWhole(Sprint(port), ':');
    if ':' in ipAddress {
      SplitMany(ipAddress, ':');
    } else {
      SplitWhole(ipAddress, ':');
      AtoiSprint(port);
    }
  }

  /** `RegisterPeer` refuses an empty address, so what it stores is listed as it was given
      exactly when the address has no ':'. */
  lemma {:induction false} FaithfulExactly(ipAddress: string, port: int)
    requires ipAddress != "" && -0x8000_0000 <= port < 0x8000_0000
    ensures Take(Build(ipAddress, port)) == (ipAddress, port) <==> ':' !in ipAddress
  {
    RoundTrip(ipAddress, port);
  }

  datatype Peer = Peer(nodeId: string, endpoint: string)
  datatype Listed = Listed(nodeId: string, ipAddress: string, port: int)

  /** How many of `n` entries a listing with the given limit shows; 0 or less means no limit. */
  function Shown(n: nat, requested: int): nat {
    if 0 < requested <= n then requested else n
  }

  /** With a positive limit that is the lesser of the two numbers. */
  lemma ShownIsLesser(n: nat, requested: int)
    ensures requested <= 0 ==> Shown(n, requested) == n
    ensures requested > 0 ==>
              var shown := Shown(n, requested);
              shown <= requested && shown <= n && (shown == requested || shown == n)
  {
  }

  /** The loop of `ListPeers` and the limit it applies at the end. */
  method ListPeers(peers: seq<Peer>, requested: int) returns (listed: seq<Listed>)
    ensures |listed| == Shown(|peers|, requested)
    ensures requested <= 0 ==> |listed| == |peers|
    ensures requested > 0 ==>
              |listed| <= requested && |listed| <= |peers| && (|listed| == requested || |listed| == |peers|)
    ensures forall i :: 0 <= i < |listed| ==>
              && listed[i].nodeId == peers[i].nodeId
              && (listed[i].ipAddress, listed[i].port) == Take(peers[i].endpoint)
  {
    listed := [];
    for i := 0 to |peers|
      invariant |listed| == i
      invariant forall j :: 0 <= j < i ==>
                  && listed[j].nodeId == peers[j].nodeId
                  && (listed[j].ipAddress, listed[j].port) == Take(peers[j].endpoint)
    {
      var ipAddress, port := "", 0;
      var parts := Split(peers[i].endpoint, ':');
      if |parts| == 2 {
        ipAddress := parts[0];
        match Atoi(parts[1]) {
          case Some(parsed) => port := Int32(parsed);
          case None =>
        }
      }
      listed := listed + [Listed(peers[i].nodeId, ipAddress, port)];
    }
    var limit := requested;
    if limit <= 0 || limit > |listed| {
      limit := |listed|;
    }
    listed := listed[..limit];
  }
}
