/** Peer reconciliation of services/agent/internal/agent/agent.go: `syncPeers` and the part of
    `Start` that seeds its table.

    The WireGuard device maps a public key to a local proxy port, its endpoint on 127.0.0.1, and the
    allowed IPs; a `wg set` command that fails
    leaves it alone. What the outside world answers during one call is a parameter. */
module Agent {

  datatype Peer = Peer(nodeId: string, ipAddress: string, p2pAddrs: seq<string>, isExitNode: bool)

  datatype Config = Config(self: string, useExitNode: bool, exitNodeId: string, networkCIDR: string)

  /** The answers met in one call. `keys` are the public keys that the identity service knows;
      `lookupFails` are the positions of the listing whose key lookup fails; `ports` gives the proxy
      port that the bridge ends up with for a node that has addresses, if any; `addFails` and
      `removeFails` name the nodes whose device command fails. */
  datatype World = World(keys: map<string, string>, lookupFails: set<nat>, ports: map<string, int>,
                         addFails: set<string>, removeFails: set<string>)

  datatype Route = Route(proxyPort: int, allowedIPs: string)

  datatype State = State(active: map<string, string>, device: map<string, Route>)

  const DEFAULT_ROUTE := "0.0.0.0/0, ::/0"

  // ---------- What one call works out ----------

  /** Some listing of `n` among the first `upTo` entries has its key looked up. */
  ghost predicate LookedUp(cfg: Config, peers: seq<Peer>, w: World, n: string, upTo: nat)
    requires upTo <= |peers|
  {
    n != cfg.self && exists i :: 0 <= i < upTo && peers[i].nodeId == n && i !in w.lookupFails
  }

  /** The online peers with their keys. */
  ghost function Online(cfg: Config, peers: seq<Peer>, w: World): map<string, string> {
    map n | n in w.keys && LookedUp(cfg, peers, w, n, |peers|) :: w.keys[n]
  }

  /** The first entry that lists `n`. */
  function Entry(peers: seq<Peer>, n: string): (p: Peer)
    ensures (exists i :: 0 <= i < |peers| && peers[i].nodeId == n) ==> p in peers && p.nodeId == n
  {
    if peers == [] then Peer(n, "", [], false)
    else if peers[0].nodeId == n then peers[0]
    else Entry(peers[1..], n)
  }

  function Port(peers: seq<Peer>, w: World, n: string): int {
    if Entry(peers, n).p2pAddrs != [] && n in w.ports then w.ports[n] else 0
  }

  /** The entry is another node that offers to be an exit node. */
  predicate Offered(cfg: Config, p: Peer) {
    p.isExitNode && p.nodeId != cfg.self && p.nodeId != ""
  }

  /** The exit node to use: the configured one if it is offered, or else the first one offered. */
  ghost predicate IsExitChoice(cfg: Config, peers: seq<Peer>, id: string) {
    if !cfg.useExitNode then id == ""
    else if cfg.exitNodeId != "" then
      if exists i :: 0 <= i < |peers| && Offered(cfg, peers[i]) && peers[i].nodeId == cfg.exitNodeId
      then id == cfg.exitNodeId else id == ""
    else
      || (id == "" && forall i :: 0 <= i < |peers| ==> !Offered(cfg, peers[i]))
      || exists i :: FirstOffer(cfg, peers, i) && peers[i].nodeId == id
  }

  ghost predicate FirstOffer(cfg: Config, peers: seq<Peer>, i: int) {
    0 <= i < |peers| && Offered(cfg, peers[i]) && forall j :: 0 <= j < i ==> !Offered(cfg, peers[j])
  }

  function AllowedIPs(cfg: Config, peers: seq<Peer>, exit: string, n: string): string {
    if n == exit then DEFAULT_ROUTE
    else if Entry(peers, n).ipAddress == "" then cfg.networkCIDR
    else Entry(peers, n).ipAddress + "/32"
  }

  function RouteFor(cfg: Config, peers: seq<Peer>, w: World, exit: string, n: string): Route {
    Route(Port(peers, w, n), AllowedIPs(cfg, peers, exit, n))
  }

  /** The nodes for which an add command is issued. */
  ghost function Tried(cfg: Config, active: map<string, string>, peers: seq<Peer>, w: World): set<string> {
    set n | n in Online(cfg, peers, w) && n !in active && Port(peers, w, n) != 0
  }

  /** The nodes for which a remove command is issued. */
  ghost function Stale(cfg: Config, active: map<string, string>, peers: seq<Peer>, w: World): set<string> {
    set n | n in active && n !in Online(cfg, peers, w)
  }

  /** The table after the call: the failed commands leave their node where it was. */
  ghost function NewActive(cfg: Config, active: map<string, string>, peers: seq<Peer>, w: World): map<string, string> {
    var online := Online(cfg, peers, w);
    var joined := Tried(cfg, active, peers, w) - w.addFails;
    var left := Stale(cfg, active, peers, w) - w.removeFails;
    map n | n in active.Keys + joined && n !in left :: if n in active then active[n] else online[n]
  }

  /** One key per node, no key twice. */
  ghost predicate OneKeyEach(keys: map<string, string>) {
    forall n, m :: n in keys && m in keys && n != m ==> keys[n] != keys[m]
  }

  /** The table holds the nodes' own keys, and the device no others. */
  ghost predicate Matches(s: State, keys: map<string, string>) {
    && (forall n :: n in s.active ==> n in keys && s.active[n] == keys[n])
    && (forall k :: k in s.device ==> exists n :: n in s.active && s.active[n] == k)
  }

  /** The nodes of the table whose keys the device lacks. */
  ghost function Missing(s: State): set<string> {
    set n | n in s.active && s.active[n] !in s.device
  }

  /** The device holds exactly the keys of the table, and these are the nodes' own. */
  ghost predicate Mirrors(s: State, keys: map<string, string>) {
    Matches(s, keys) && Missing(s) == {}
  }

  /** Peers that stay keep their route; peers that join get theirs from this call. */
  ghost predicate RoutesFollow(cfg: Config, s: State, peers: seq<Peer>, w: World, exit: string, s': State) {
    forall n :: n in s'.active && s'.active[n] in s'.device ==>
      s'.device[s'.active[n]] ==
        if n in s.active && s.active[n] in s.device then s.device[s.active[n]] else RouteFor(cfg, peers, w, exit, n)
  }

  /** One call of `syncPeers` and the exit node that it chose. */
  datatype Call = Call(peers: seq<Peer>, w: World, exit: string)

  /** What a call does: the table changes as `NewActive` says; the device still holds no other keys, and
      lacks those that it lacked before of the nodes that stay; its routes follow. */
  ghost predicate SyncStep(cfg: Config, s: State, c: Call, s': State) {
    && IsExitChoice(cfg, c.peers, c.exit)
    && s'.active == NewActive(cfg, s.active, c.peers, c.w)
    && (OneKeyEach(c.w.keys) && Matches(s, c.w.keys) ==>
          && Matches(s', c.w.keys) && Missing(s') == Missing(s) * s'.active.Keys
          && RoutesFollow(cfg, s, c.peers, c.w, c.exit, s'))
  }

  datatype StartResult = Running | Panicked

  class Agent {
    const cfg: Config
    var active: map<string, string>
    var device: map<string, Route>

    function View(): State
      reads this
    {
      State(active, device)
    }

    constructor (cfg: Config)
      ensures this.cfg == cfg && View() == State(map[], map[])
    {
      this.cfg := cfg;
      active, device := map[], map[];
    }

    /** The loop of `Start` over the first listing, and the configuration of the device at its end.
        It indexes the addresses of a peer without checking that there are any. */
    method SeedPeers(peers: seq<Peer>, w: World, configured: bool) returns (r: StartResult)
      requires View() == State(map[], map[])
      modifies this
      ensures r.Panicked? <==> exists i :: 0 <= i < |peers| && Reached(cfg, peers[i], w, i) && peers[i].p2pAddrs == []
      ensures r.Running? ==> forall n :: n in active <==>
                exists i :: 0 <= i < |peers| && Reached(cfg, peers[i], w, i) && peers[i].nodeId == n && n in w.ports
      ensures r.Running? ==> Matches(View(), w.keys) && Missing(View()) == if configured then {} else active.Keys
      ensures forall k :: k in device ==> SeededRoute(cfg, peers, w, |peers|, k, device[k])
    {
      var wgPeers: map<string, Route> := map[];
      for i := 0 to |peers|
        invariant device == map[]
        invariant forall j :: 0 <= j < i && Reached(cfg, peers[j], w, j) ==> peers[j].p2pAddrs != []
        invariant forall n :: n in active <==>
                    exists j :: 0 <= j < i && Reached(cfg, peers[j], w, j) && peers[j].nodeId == n && n in w.ports
        invariant forall k :: k in wgPeers ==> SeededRoute(cfg, peers, w, i, k, wgPeers[k])
        invariant Seeded(active, wgPeers, w.keys)
      {
        var p := peers[i];
        if p.nodeId == cfg.self || i in w.lookupFails || p.nodeId !in w.keys {
          continue;
        }
        if p.p2pAddrs == [] {
          return Panicked;
        }
        if p.nodeId !in w.ports {
          continue;
        }
        var key := w.keys[p.nodeId];
        var route := Route(w.ports[p.nodeId], p.ipAddress + "/32");
        SeededWithOneMore(active, wgPeers, w.keys, p.nodeId, route);
        wgPeers := wgPeers[key := route];
        active := active[p.nodeId := key];
        hide Seeded;
      }
      if configured {
        device := wgPeers;
      }
      ghost var s := View();
      SeededMatches(s, wgPeers, w.keys);
      return Running;
    }

    method ChooseExitNode(peers: seq<Peer>) returns (exit: string)
      ensures IsExitChoice(cfg, peers, exit)
    {
      exit := "";
      if cfg.useExitNode {
        for i := 0 to |peers|
          invariant cfg.exitNodeId != "" ==>
                      && exit == ""
                      && forall j :: 0 <= j < i && Offered(cfg, peers[j]) ==> peers[j].nodeId != cfg.exitNodeId
          invariant cfg.exitNodeId == "" && exit == "" ==> forall j :: 0 <= j < i ==> !Offered(cfg, peers[j])
          invariant cfg.exitNodeId == "" && exit != "" ==>
                      exists k :: k < i && FirstOffer(cfg, peers, k) && peers[k].nodeId == exit
        {
          var p := peers[i];
          if !p.isExitNode || p.nodeId == cfg.self {
            continue;
          }
          if cfg.exitNodeId != "" && p.nodeId == cfg.exitNodeId {
            exit := p.nodeId;
            break;
          }
          if cfg.exitNodeId == "" && exit == "" {
            exit := p.nodeId;
          }
        }
      }
    }

    method FetchKeys(peers: seq<Peer>, w: World) returns (online: map<string, string>)
      ensures online == Online(cfg, peers, w)
    {
      online := map[];
      for i := 0 to |peers|
        invariant online == map n | n in w.keys && LookedUp(cfg, peers, w, n, i) :: w.keys[n]
      {
        var n := peers[i].nodeId;
        ghost var before := online;
        if n != cfg.self && i !in w.lookupFails && n in w.keys {
          online := online[n := w.keys[n]];
        }
        forall m ensures LookedUp(cfg, peers, w, m, i + 1) <==>
                           LookedUp(cfg, peers, w, m, i) || (m == n && n != cfg.self && i !in w.lookupFails) {
          LookedUpNext(cfg, peers, w, m, i);
        }
      }
    }

    /** One round of the loop over the online peers; says whether it issued a command. */
    method AddPeer(n: string, pubKey: string, peers: seq<Peer>, exit: string, w: World) returns (commanded: bool)
      modifies this
      ensures commanded == (n !in old(active) && Port(peers, w, n) != 0)
      ensures View() == if !commanded || n in w.addFails then old(View())
                        else State(old(active)[n := pubKey], old(device)[pubKey := RouteFor(cfg, peers, w, exit, n)])
    {
      if n in active {
        return false;
      }
      var p := Entry(peers, n);
      var proxyPort := if p.p2pAddrs != [] && n in w.ports then w.ports[n] else 0;
      if proxyPort == 0 {
        return false;
      }
      if n in w.addFails {
        return true;
      }
      var allowedIPs :=
        if n == exit then DEFAULT_ROUTE else if p.ipAddress == "" then cfg.networkCIDR else p.ipAddress + "/32";
      device := device[pubKey := Route(proxyPort, allowedIPs)];
      active := active[n := pubKey];
      return true;
    }

    /** The loop over the online peers, in any order. */
    method AddPeers(peers: seq<Peer>, exit: string, online: map<string, string>, w: World) returns (issued: nat)
      requires online == Online(cfg, peers, w)
      modifies this
      ensures active == WithJoined(cfg, old(active), peers, w)
      ensures issued == |Tried(cfg, old(active), peers, w)|
      ensures OneKeyEach(w.keys) && Matches(old(View()), w.keys) ==>
                && Matches(View(), w.keys) && Missing(View()) == Missing(old(View()))
                && RoutesFollow(cfg, old(View()), peers, w, exit, View())
    {
      hide Adding, Joined, WithJoined, Tried, Online, LookedUp, Port, Entry, RouteFor, AllowedIPs;
      hide Matches, Missing, RoutesFollow, OneKeyEach;
      ghost var was, tried := View(), Tried(cfg, active, peers, w);
      ghost var assumed := OneKeyEach(w.keys) && Matches(was, w.keys);
      issued := 0;
      var todo := online.Keys;
      AddingStarts(cfg, was, peers, w, exit);
      while todo != {}
        invariant Adding(was.active, online, tried, w.addFails, todo, active, issued)
        invariant assumed ==>
                    && Matches(View(), w.keys) && Missing(View()) == Missing(was)
                    && RoutesFollow(cfg, was, peers, w, exit, View())
        decreases todo
      {
        var n :| n in todo;
        AddingStep(was.active, online, tried, w.addFails, todo, active, issued, n);
        TriedExactly(cfg, was.active, peers, w, n);
        ghost var s := View();
        todo := todo - {n};
        var commanded := AddPeer(n, online[n], peers, exit, w);
        if commanded {
          issued := issued + 1;
          if n !in w.addFails && assumed {
            JoinFollows(cfg, was, s, n, peers, w, exit);
          }
        }
      }
      AddingEnds(cfg, was.active, peers, w, active, issued);
    }

    /** The loop over the table, in any order, that deletes as it goes. */
    method RemovePeers(ghost peers: seq<Peer>, online: map<string, string>, w: World) returns (issued: nat)
      requires online == Online(cfg, peers, w)
      modifies this
      ensures active == old(active) - (Stale(cfg, old(active), peers, w) - w.removeFails)
      ensures issued == |Stale(cfg, old(active), peers, w)|
      ensures OneKeyEach(w.keys) && Matches(old(View()), w.keys) ==>
                && Matches(View(), w.keys) && Missing(View()) == Missing(old(View())) * active.Keys
                && forall k :: k in device ==> k in old(device) && device[k] == old(device)[k]
    {
      ghost var was, stale := View(), Stale(cfg, active, peers, w);
      ghost var assumed := OneKeyEach(w.keys) && Matches(was, w.keys);
      ghost var asked: set<string> := {};
      issued := 0;
      var todo := active.Keys;
      while todo != {}
        invariant todo <= active.Keys
        invariant forall n :: n in active <==> n in was.active && !(n in stale && n !in w.removeFails && n !in todo)
        invariant forall n :: n in active ==> active[n] == was.active[n]
        invariant issued == |asked| && forall n :: n in asked <==> n in stale && n !in todo
        invariant assumed ==> Matches(View(), w.keys) && Missing(View()) == Missing(was) * active.Keys
        invariant forall k :: k in device ==> k in was.device && device[k] == was.device[k]
        decreases todo
      {
        hide Online, Matches, Missing, OneKeyEach;
        var n :| n in todo;
        ghost var before := View();
        todo := todo - {n};
        if n in online {
          continue;
        }
        assert n in stale;
        hide Stale;
        issued := issued + 1;
        asked := asked + {n};
        if n in w.removeFails {
          continue;
        }
        device := device - {active[n]};
        active := active - {n};
        if assumed {
          LeaveFollows(was, before, w.keys, n);
        }
      }
      assert asked == stale;
      hide Stale, Online, Matches, Missing;
    }

    /** One reconciliation; `discovered` is false when the listing cannot be fetched. `issued` counts
        the device commands. */
    method SyncPeers(discovered: bool, peers: seq<Peer>, w: World) returns (exit: string, issued: nat)
      modifies this
      ensures !discovered ==> View() == old(View()) && issued == 0
      ensures discovered ==>
                && SyncStep(cfg, old(View()), Call(peers, w, exit), View())
                && issued == |Tried(cfg, old(active), peers, w)| + |Stale(cfg, old(active), peers, w)|
    {
      if !discovered {
        return "", 0;
      }
      exit := ChooseExitNode(peers);
      var online := FetchKeys(peers, w);
      ghost var was := View();
      var added := AddPeers(peers, exit, online, w);
      ghost var mid := View();
      SameStale(cfg, was.active, peers, w);
      var removed := RemovePeers(peers, online, w);
      issued := added + removed;
    }
  }

  /** Entry `i` of the first listing is another node whose key is looked up. */
  predicate Reached(cfg: Config, p: Peer, w: World, i: nat) {
    p.nodeId != cfg.self && i !in w.lookupFails && p.nodeId in w.keys
  }

  /** The route that one of the first `upTo` entries gives the holder of `key`: its port and its host. */
  ghost predicate SeededRoute(cfg: Config, peers: seq<Peer>, w: World, upTo: nat, key: string, route: Route)
    requires upTo <= |peers|
  {
    exists i :: 0 <= i < upTo && Reached(cfg, peers[i], w, i) && w.keys[peers[i].nodeId] == key
      && peers[i].nodeId in w.ports && route == Route(w.ports[peers[i].nodeId], peers[i].ipAddress + "/32")
  }

  /** A route to one host is never the default route. */
  lemma {:induction false} HostRouteOf(ip: string)
    ensures ip + "/32" != DEFAULT_ROUTE
  {
    var route := ip + "/32";
    assert route[|route| - 1] == '2' && DEFAULT_ROUTE[|DEFAULT_ROUTE| - 1] == '0';
  }

  /** A freshly seeded device gives no peer the default route. */
  lemma {:induction false} SeededWithoutDefault(cfg: Config, peers: seq<Peer>, w: World, s: State, n: string)
    requires forall k :: k in s.device ==> SeededRoute(cfg, peers, w, |peers|, k, s.device[k])
    ensures !HoldsDefault(s, n)
  {
    if HoldsDefault(s, n) {
      var i :| 0 <= i < |peers| && s.device[s.active[n]].allowedIPs == peers[i].ipAddress + "/32";
      HostRouteOf(peers[i].ipAddress);
    }
  }

  /** The table and the peers of the configuration name the same keys. */
  ghost predicate Seeded(active: map<string, string>, wgPeers: map<string, Route>, keys: map<string, string>) {
    && (forall n :: n in active ==> n in keys && active[n] == keys[n] && active[n] in wgPeers)
    && (forall k :: k in wgPeers ==> exists n :: n in active && active[n] == k)
  }

  lemma {:induction false} SeededMatches(s: State, wgPeers: map<string, Route>, keys: map<string, string>)
    requires Seeded(s.active, wgPeers, keys)
    ensures s.device == wgPeers ==> Matches(s, keys) && Missing(s) == {}
    ensures s.device == map[] ==> Matches(s, keys) && Missing(s) == s.active.Keys
  {
  }

  lemma {:induction false} SeededWithOneMore(
      active: map<string, string>, wgPeers: map<string, Route>, keys: map<string, string>, n: string, route: Route)
    requires Seeded(active, wgPeers, keys) && n in keys
    ensures Seeded(active[n := keys[n]], wgPeers[keys[n] := route], keys)
  {
    var active', wgPeers' := active[n := keys[n]], wgPeers[keys[n] := route];
    forall k | k in wgPeers' ensures exists m :: m in active' && active'[m] == k {
      var m := if k == keys[n] then n else (var m :| m in active && active[m] == k; m);
      assert m in active' && active'[m] == k;
    }
  }

  lemma LookedUpNext(cfg: Config, peers: seq<Peer>, w: World, n: string, i: nat)
    requires i < |peers|
    ensures LookedUp(cfg, peers, w, n, i + 1) <==>
              LookedUp(cfg, peers, w, n, i) || (n == peers[i].nodeId && n != cfg.self && i !in w.lookupFails)
  {
  }

  /** The table with some online peers joined. */
  ghost function Joined(active: map<string, string>, online: map<string, string>, ns: set<string>): map<string, string>
    requires ns <= online.Keys
  {
    map n | n in active.Keys + ns :: if n in active then active[n] else online[n]
  }

  /** The adding loop with `todo` left. */
  ghost predicate Adding(was: map<string, string>, online: map<string, string>, tried: set<string>, fails: set<string>,
                         todo: set<string>, active: map<string, string>, issued: nat) {
    && todo <= online.Keys && tried <= online.Keys - was.Keys
    && active == Joined(was, online, tried - todo - fails)
    && issued == |tried - todo|
  }

  lemma {:induction false} AddingStep(
      was: map<string, string>, online: map<string, string>, tried: set<string>, fails: set<string>,
      todo: set<string>, active: map<string, string>, issued: nat, n: string)
    requires Adding(was, online, tried, fails, todo, active, issued) && n in todo
    ensures n in online && (n in active <==> n in was)
    ensures n !in tried ==> Adding(was, online, tried, fails, todo - {n}, active, issued)
    ensures n in tried && n in fails ==> Adding(was, online, tried, fails, todo - {n}, active, issued + 1)
    ensures n in tried && n !in fails ==>
              Adding(was, online, tried, fails, todo - {n}, active[n := online[n]], issued + 1)
  {
    assert tried - (todo - {n}) == if n in tried then (tried - todo) + {n} else tried - todo;
  }

  /** The table once the adding loop is through. */
  ghost function WithJoined(cfg: Config, active: map<string, string>, peers: seq<Peer>, w: World): map<string, string> {
    Joined(active, Online(cfg, peers, w), Tried(cfg, active, peers, w) - w.addFails)
  }

  lemma {:induction false} AddingStarts(cfg: Config, was: State, peers: seq<Peer>, w: World, exit: string)
    ensures var online := Online(cfg, peers, w);
            Adding(was.active, online, Tried(cfg, was.active, peers, w), w.addFails, online.Keys, was.active, 0)
    ensures RoutesFollow(cfg, was, peers, w, exit, was)
  {
    var online, tried := Online(cfg, peers, w), Tried(cfg, was.active, peers, w);
    assert tried <= online.Keys - was.active.Keys;
    hide Online, Tried, RouteFor;
    AddingStartsFrom(was.active, online, tried, w.addFails);
    hide Adding;
  }

  lemma {:induction false} AddingStartsFrom(
      was: map<string, string>, online: map<string, string>, tried: set<string>, fails: set<string>)
    requires tried <= online.Keys - was.Keys
    ensures Adding(was, online, tried, fails, online.Keys, was, 0)
  {
    assert tried - online.Keys == {};
    assert Joined(was, online, {}) == was;
  }

  lemma {:induction false} TriedExactly(cfg: Config, active: map<string, string>, peers: seq<Peer>, w: World, n: string)
    requires n in Online(cfg, peers, w)
    ensures n in Tried(cfg, active, peers, w) <==> n !in active && Port(peers, w, n) != 0
    ensures n in w.keys && Online(cfg, peers, w)[n] == w.keys[n]
  {
  }

  lemma {:induction false} AddingEnds(
      cfg: Config, was: map<string, string>, peers: seq<Peer>, w: World, active: map<string, string>, issued: nat)
    requires Adding(was, Online(cfg, peers, w), Tried(cfg, was, peers, w), w.addFails, {}, active, issued)
    ensures active == WithJoined(cfg, was, peers, w) && issued == |Tried(cfg, was, peers, w)|
  {
    var tried := Tried(cfg, was, peers, w);
    assert tried - {} == tried;
    hide Online, Tried;
  }

  lemma {:induction false} SameStale(cfg: Config, active: map<string, string>, peers: seq<Peer>, w: World)
    ensures Stale(cfg, WithJoined(cfg, active, peers, w), peers, w) == Stale(cfg, active, peers, w)
    ensures NewActive(cfg, active, peers, w) ==
              WithJoined(cfg, active, peers, w) - (Stale(cfg, active, peers, w) - w.removeFails)
  {
  }

  lemma {:induction false} MatchesWithOneMore(s: State, keys: map<string, string>, n: string, route: Route)
    requires OneKeyEach(keys) && Matches(s, keys) && n in keys && n !in s.active
    ensures var s' := State(s.active[n := keys[n]], s.device[keys[n] := route]);
            Matches(s', keys) && Missing(s') == Missing(s)
    ensures keys[n] !in s.device
  {
    var s' := State(s.active[n := keys[n]], s.device[keys[n] := route]);
    forall k | k in s'.device ensures exists m :: m in s'.active && s'.active[m] == k {
      var m := if k == keys[n] then n else (var m :| m in s.active && s.active[m] == k; m);
      assert m in s'.active && s'.active[m] == k;
    }
    forall m ensures m in Missing(s') <==> m in Missing(s) {
    }
  }

  lemma {:induction false} JoinFollows(
      cfg: Config, was: State, s: State, n: string, peers: seq<Peer>, w: World, exit: string)
    requires OneKeyEach(w.keys) && Matches(was, w.keys) && Matches(s, w.keys)
    requires RoutesFollow(cfg, was, peers, w, exit, s)
    requires n in w.keys && n !in s.active && n !in was.active
    ensures var s' := State(s.active[n := w.keys[n]], s.device[w.keys[n] := RouteFor(cfg, peers, w, exit, n)]);
            Matches(s', w.keys) && Missing(s') == Missing(s) && RoutesFollow(cfg, was, peers, w, exit, s')
  {
    MatchesWithOneMore(s, w.keys, n, RouteFor(cfg, peers, w, exit, n));
    hide RouteFor, Missing;
  }

  lemma {:induction false} MatchesWithOneLess(s: State, keys: map<string, string>, n: string)
    requires OneKeyEach(keys) && Matches(s, keys) && n in s.active
    ensures var s' := State(s.active - {n}, s.device - {s.active[n]});
            Matches(s', keys) && Missing(s') == Missing(s) - {n}
  {
    var s' := State(s.active - {n}, s.device - {s.active[n]});
    forall k | k in s'.device ensures exists m :: m in s'.active && s'.active[m] == k {
      var m :| m in s.active && s.active[m] == k;
      assert m in s'.active && s'.active[m] == k;
    }
    forall m ensures m in Missing(s') <==> m in Missing(s) && m != n {
    }
  }

  lemma {:induction false} LeaveFollows(was: State, s: State, keys: map<string, string>, n: string)
    requires OneKeyEach(keys) && Matches(s, keys) && Missing(s) == Missing(was) * s.active.Keys && n in s.active
    ensures var s' := State(s.active - {n}, s.device - {s.active[n]});
            Matches(s', keys) && Missing(s') == Missing(was) * s'.active.Keys
  {
    hide Matches, Missing, OneKeyEach;
    MatchesWithOneLess(s, keys, n);
  }

  // ---------- What a call does, by the listing ----------

  /** Entry `i` is the first that lists `n`. */
  predicate FirstEntry(peers: seq<Peer>, n: string, i: nat) {
    i < |peers| && peers[i].nodeId == n && forall j :: 0 <= j < i ==> peers[j].nodeId != n
  }

  lemma {:induction false} EntryIsFirst(peers: seq<Peer>, n: string, i: nat)
    requires FirstEntry(peers, n, i)
    ensures Entry(peers, n) == peers[i]
  {
    if i > 0 {
      EntryIsFirst(peers[1..], n, i - 1);
    }
  }

  /** Some entry lists `n`, another node, and its key is looked up. */
  ghost predicate IsOnline(cfg: Config, peers: seq<Peer>, w: World, n: string) {
    n != cfg.self && n in w.keys && exists i :: 0 <= i < |peers| && peers[i].nodeId == n && i !in w.lookupFails
  }

  /** Who is in the table after a call: of the others those that are online or whose command to remove
      them failed; and of the new ones those that are online, have addresses in their first entry and a
      port, and whose command to add them did not fail. */
  lemma {:induction false} TableExactly(
      cfg: Config, active: map<string, string>, peers: seq<Peer>, w: World, n: string, i: nat)
    requires FirstEntry(peers, n, i)
    ensures n in NewActive(cfg, active, peers, w) <==>
              if n in active then IsOnline(cfg, peers, w, n) || n in w.removeFails
              else
                && IsOnline(cfg, peers, w, n) && peers[i].p2pAddrs != [] && n in w.ports && w.ports[n] != 0
                && n !in w.addFails
  {
    EntryIsFirst(peers, n, i);
    hide Entry;
  }

  /** A node that is not listed is in the table exactly if it was and the command to remove it failed. */
  lemma {:induction false} UnlistedLeaves(
      cfg: Config, active: map<string, string>, peers: seq<Peer>, w: World, n: string)
    requires forall i :: 0 <= i < |peers| ==> peers[i].nodeId != n
    ensures n in NewActive(cfg, active, peers, w) <==> n in active && n in w.removeFails
  {
  }

  /** A peer that joins gets its own port, and the route of its own address alone; the chosen exit node gets
      all routes instead, and a peer without an address those of the whole network. A peer that stays
      keeps what it had. */
  lemma {:induction false} RouteOfPeer(cfg: Config, s: State, c: Call, s': State, n: string, i: nat)
    requires SyncStep(cfg, s, c, s') && OneKeyEach(c.w.keys) && Matches(s, c.w.keys)
    requires FirstEntry(c.peers, n, i) && n in s'.active
    ensures n in c.w.keys && s'.active[n] == c.w.keys[n]
    ensures var key, address := c.w.keys[n], c.peers[i].ipAddress;
            if n in s.active then
              key in s'.device <==> key in s.device
            else
              && key in s'.device && n in c.w.ports
              && s'.device[key].proxyPort == c.w.ports[n] != 0
              && s'.device[key].allowedIPs ==
                   if n == c.exit then "0.0.0.0/0, ::/0"
                   else if address == "" then cfg.networkCIDR
                   else address + "/32"
    ensures var key := c.w.keys[n];
            n in s.active && key in s.device ==> key in s'.device && s'.device[key] == s.device[key]
  {
    EntryIsFirst(c.peers, n, i);
    hide Entry, OneKeyEach, IsExitChoice, Online, LookedUp;
    assert n in Missing(s') <==> n in Missing(s);
    assert n !in s.active ==> n in Tried(cfg, s.active, c.peers, c.w);
  }

  /** A choice stands, whatever is listed after it; it is an exit node that the listing offers, and the
      configured one if one is configured. */
  lemma {:induction false} ExitChoiceStands(cfg: Config, peers: seq<Peer>, more: seq<Peer>, id: string)
    requires IsExitChoice(cfg, peers, id) && id != ""
    ensures IsExitChoice(cfg, peers + more, id)
    ensures cfg.useExitNode && (cfg.exitNodeId == "" || id == cfg.exitNodeId)
    ensures exists i :: 0 <= i < |peers| && peers[i].nodeId == id != cfg.self && peers[i].isExitNode
  {
    var all := peers + more;
    if cfg.exitNodeId != "" {
      var i :| 0 <= i < |peers| && Offered(cfg, peers[i]) && peers[i].nodeId == cfg.exitNodeId;
      assert Offered(cfg, all[i]) && all[i].nodeId == cfg.exitNodeId;
    } else {
      var i :| FirstOffer(cfg, peers, i) && peers[i].nodeId == id;
      assert FirstOffer(cfg, all, i) && all[i].nodeId == id;
    }
  }

  // ---------- Convergence ----------

  ghost function Others(cfg: Config, peers: seq<Peer>): set<string> {
    set i | 0 <= i < |peers| && peers[i].nodeId != cfg.self :: peers[i].nodeId
  }

  /** Nothing fails: every other listed node has its key, and those that join end up with a port. */
  ghost predicate NoFailure(cfg: Config, active: map<string, string>, peers: seq<Peer>, w: World) {
    && w.lookupFails == {} && w.addFails == {} && w.removeFails == {}
    && forall n :: n in Others(cfg, peers) ==> n in w.keys && (n !in active ==> Port(peers, w, n) != 0)
  }

  lemma {:induction false} OnlineWithoutFailure(cfg: Config, peers: seq<Peer>, w: World)
    requires w.lookupFails == {} && forall n :: n in Others(cfg, peers) ==> n in w.keys
    ensures Online(cfg, peers, w).Keys == Others(cfg, peers)
  {
    forall n ensures n in Others(cfg, peers) <==> n in w.keys && LookedUp(cfg, peers, w, n, |peers|) {
    }
  }

  /** Without failures the table becomes exactly the other listed nodes. */
  lemma {:induction false} Converges(cfg: Config, active: map<string, string>, peers: seq<Peer>, w: World)
    requires NoFailure(cfg, active, peers, w)
    ensures NewActive(cfg, active, peers, w).Keys == Others(cfg, peers)
  {
    OnlineWithoutFailure(cfg, peers, w);
    hide Online, Others, Port;
  }

  /** A second call on the same listing then issues no device command, whatever its ports. */
  lemma {:induction false} SecondCallIsSilent(
      cfg: Config, active: map<string, string>, peers: seq<Peer>, w: World, w': World)
    requires NoFailure(cfg, active, peers, w) && w'.keys == w.keys && w'.lookupFails == {}
    ensures var active' := NewActive(cfg, active, peers, w);
            Tried(cfg, active', peers, w') == {} && Stale(cfg, active', peers, w') == {}
  {
    Converges(cfg, active, peers, w);
    OnlineWithoutFailure(cfg, peers, w');
    hide Online, Others, Port, NewActive;
  }

  // ---------- Exit nodes ----------

  /** In one call the default route goes to no joining peer but the chosen exit node. */
  lemma {:induction false} OnlyChoiceGetsDefaultRoute(cfg: Config, peers: seq<Peer>, exit: string, n: string)
    requires cfg.networkCIDR != DEFAULT_ROUTE
    ensures AllowedIPs(cfg, peers, exit, n) == DEFAULT_ROUTE <==> n == exit
  {
    HostRouteOf(Entry(peers, n).ipAddress);
  }

  /** There is only one choice. */
  lemma {:induction false} ExitChoiceUnique(cfg: Config, peers: seq<Peer>, id: string, id': string)
    requires IsExitChoice(cfg, peers, id) && IsExitChoice(cfg, peers, id')
    ensures id == id'
  {
    if cfg.useExitNode && cfg.exitNodeId == "" && id != "" && id' != "" {
      var i :| FirstOffer(cfg, peers, i) && peers[i].nodeId == id;
      var i' :| FirstOffer(cfg, peers, i') && peers[i'].nodeId == id';
      assert i == i';
    }
  }

  /** A run: states with the calls between them, under one key per node. */
  ghost predicate Run(cfg: Config, keys: map<string, string>, states: seq<State>, calls: seq<Call>) {
    && |states| == |calls| + 1 && OneKeyEach(keys)
    && (forall i :: 0 <= i < |calls| ==> calls[i].w.keys == keys && SyncStep(cfg, states[i], calls[i], states[i + 1]))
    && (forall i, j :: 0 <= i < |calls| && 0 <= j < |calls[i].peers| ==> calls[i].peers[j].nodeId != "")
  }

  /** `n` is in the table in all states up to number `k`. */
  ghost predicate StaysIn(states: seq<State>, n: string, k: nat)
    requires k < |states|
  {
    forall i :: 0 <= i <= k ==> n in states[i].active
  }

  /** Whatever fails, the device never holds another key, and what it lacks is what it lacked at the
      start of nodes that have never left the table since. */
  lemma {:induction false} MissingInRun(
      cfg: Config, keys: map<string, string>, states: seq<State>, calls: seq<Call>, k: nat)
    requires Run(cfg, keys, states, calls) && k <= |calls| && Matches(states[0], keys)
    ensures Matches(states[k], keys)
    ensures Missing(states[k]) == set n | n in Missing(states[0]) && StaysIn(states, n, k)
  {
    if k > 0 {
      var s, s' := states[k - 1], states[k];
      MissingInRun(cfg, keys, states, calls, k - 1);
      assert SyncStep(cfg, s, calls[k - 1], s');
      assert Missing(s') == Missing(s) * s'.active.Keys;
      forall n ensures StaysIn(states, n, k) <==> StaysIn(states, n, k - 1) && n in s'.active {
      }
      hide Matches, Missing, RoutesFollow, NewActive, IsExitChoice, StaysIn, SyncStep;
    } else {
      forall n | n in Missing(states[0]) ensures StaysIn(states, n, 0) {
      }
    }
  }

  /** The device holds exactly the keys of the table again exactly when each node whose key it lacked at
      the start has been out of the table; if it lacked none, it always does. */
  lemma {:induction false} MirrorsForever(
      cfg: Config, keys: map<string, string>, states: seq<State>, calls: seq<Call>, k: nat)
    requires Run(cfg, keys, states, calls) && k <= |calls| && Matches(states[0], keys)
    ensures Mirrors(states[k], keys) <==> forall n :: n in Missing(states[0]) ==> !StaysIn(states, n, k)
    ensures Mirrors(states[0], keys) ==> Mirrors(states[k], keys)
  {
    MissingInRun(cfg, keys, states, calls, k);
    assert forall n :: n in Missing(states[k]) <==> n in Missing(states[0]) && StaysIn(states, n, k);
    hide Matches, Missing, StaysIn, Run;
    if Missing(states[k]) != {} {
      var n :| n in Missing(states[k]);
    }
  }

  ghost predicate HoldsDefault(s: State, n: string) {
    n in s.active && s.active[n] in s.device && s.device[s.active[n]].allowedIPs == DEFAULT_ROUTE
  }

  /** `n` joined in call `j`, as its choice, and has stayed up to state `k`. */
  ghost predicate JoinedAsExit(states: seq<State>, calls: seq<Call>, n: string, j: nat, k: nat)
    requires k < |states| == |calls| + 1
  {
    j < k && n !in states[j].active && calls[j].exit == n && forall i :: j < i <= k ==> n in states[i].active
  }

  lemma {:induction false} DefaultRouteInRun(
      cfg: Config, keys: map<string, string>, states: seq<State>, calls: seq<Call>, i: nat, n: string)
    requires Run(cfg, keys, states, calls) && i < |calls| && cfg.networkCIDR != DEFAULT_ROUTE
    requires Matches(states[0], keys)
    ensures HoldsDefault(states[i + 1], n) <==>
              && n in states[i + 1].active
              && if n in states[i].active then HoldsDefault(states[i], n) else n == calls[i].exit
    ensures HoldsDefault(states[i + 1], n) && n !in states[i].active ==> cfg.useExitNode
  {
    MissingInRun(cfg, keys, states, calls, i);
    hide SyncStep, Matches, Missing, OneKeyEach, HoldsDefault;
    DefaultRouteStep(cfg, states[i], calls[i], states[i + 1], n);
  }

  lemma {:induction false} WhenItJoined(
      cfg: Config, keys: map<string, string>, states: seq<State>, calls: seq<Call>, k: nat, n: string) returns (j: nat)
    requires Run(cfg, keys, states, calls) && k <= |calls| && cfg.networkCIDR != DEFAULT_ROUTE
    requires Matches(states[0], keys) && !HoldsDefault(states[0], n) && HoldsDefault(states[k], n)
    ensures JoinedAsExit(states, calls, n, j, k) && cfg.useExitNode
  {
    var i := k - 1;
    assert |states| == |calls| + 1;
    hide Run, Matches, HoldsDefault;
    DefaultRouteInRun(cfg, keys, states, calls, i, n);
    if n in states[i].active {
      j := WhenItJoined(cfg, keys, states, calls, i, n);
    } else {
      j := i;
    }
  }

  /** A peer that did not hold the default route at the start holds it exactly if it was the chosen exit
      node of the call that added it and has stayed since; with useExitNode off, no peer ever does. */
  lemma {:induction false} DefaultRouteOnlyByChoice(
      cfg: Config, keys: map<string, string>, states: seq<State>, calls: seq<Call>, k: nat, n: string)
    requires Run(cfg, keys, states, calls) && k <= |calls| && cfg.networkCIDR != DEFAULT_ROUTE
    requires Matches(states[0], keys) && !HoldsDefault(states[0], n)
    ensures HoldsDefault(states[k], n) <==> exists j: nat :: JoinedAsExit(states, calls, n, j, k)
    ensures HoldsDefault(states[k], n) ==> cfg.useExitNode
  {
    if HoldsDefault(states[k], n) {
      var j := WhenItJoined(cfg, keys, states, calls, k, n);
    } else if j: nat :| JoinedAsExit(states, calls, n, j, k) {
      HoldsSince(cfg, keys, states, calls, n, j, k);
    }
  }

  lemma {:induction false} HoldsSince(
      cfg: Config, keys: map<string, string>, states: seq<State>, calls: seq<Call>, n: string, j: nat, k: nat)
    requires Run(cfg, keys, states, calls) && k <= |calls| && cfg.networkCIDR != DEFAULT_ROUTE
    requires Matches(states[0], keys) && JoinedAsExit(states, calls, n, j, k)
    ensures HoldsDefault(states[k], n)
    decreases k
  {
    var i := k - 1;
    assert |states| == |calls| + 1;
    hide Run, Matches, HoldsDefault;
    DefaultRouteInRun(cfg, keys, states, calls, i, n);
    if j < i {
      HoldsSince(cfg, keys, states, calls, n, j, i);
    }
  }

  /** After one call the default route is held by those who held it before and stayed, and by the choice
      if it joined. */
  lemma {:induction false} DefaultRouteStep(cfg: Config, s: State, c: Call, s': State, n: string)
    requires SyncStep(cfg, s, c, s') && OneKeyEach(c.w.keys) && Matches(s, c.w.keys) && cfg.networkCIDR != DEFAULT_ROUTE
    requires forall j :: 0 <= j < |c.peers| ==> c.peers[j].nodeId != ""
    ensures HoldsDefault(s', n) <==> n in s'.active && if n in s.active then HoldsDefault(s, n) else n == c.exit
    ensures HoldsDefault(s', n) && n !in s.active ==> cfg.useExitNode
  {
    if n in s'.active {
      if n in s.active {
        StayerKeepsRoute(cfg, s, c, s', n);
      } else {
        JoinerGetsRoute(cfg, s, c, s', n);
      }
    }
  }

  lemma {:induction false} StayerKeepsRoute(cfg: Config, s: State, c: Call, s': State, n: string)
    requires SyncStep(cfg, s, c, s') && OneKeyEach(c.w.keys) && Matches(s, c.w.keys)
    requires n in s.active && n in s'.active
    ensures HoldsDefault(s', n) <==> HoldsDefault(s, n)
  {
    SameKey(cfg, s, c, s', n);
    hide NewActive, IsExitChoice, Matches, OneKeyEach, RouteFor;
    assert n in Missing(s') <==> n in Missing(s);
  }

  lemma {:induction false} JoinerGetsRoute(cfg: Config, s: State, c: Call, s': State, n: string)
    requires SyncStep(cfg, s, c, s') && OneKeyEach(c.w.keys) && Matches(s, c.w.keys) && cfg.networkCIDR != DEFAULT_ROUTE
    requires forall j :: 0 <= j < |c.peers| ==> c.peers[j].nodeId != ""
    requires n !in s.active && n in s'.active
    ensures HoldsDefault(s', n) <==> n == c.exit
    ensures HoldsDefault(s', n) ==> cfg.useExitNode
  {
    OnlyChoiceGetsDefaultRoute(cfg, c.peers, c.exit, n);
    assert LookedUp(cfg, c.peers, c.w, n, |c.peers|);
    hide Matches, OneKeyEach, NewActive, AllowedIPs;
    assert n !in Missing(s) && n !in Missing(s');
  }

  lemma {:induction false} SameKey(cfg: Config, s: State, c: Call, s': State, n: string)
    requires SyncStep(cfg, s, c, s') && n in s.active && n in s'.active
    ensures s'.active[n] == s.active[n]
  {
    hide Online;
  }
}
