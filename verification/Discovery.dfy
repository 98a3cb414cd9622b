/** From the registry to the agent's table: the discovery service cuts its listing to the limit that the
    agent asks for, and the agent removes from its table whoever is not listed. */
module Discovery {
  import opened Text
  import Registry
  import Endpoint
  import opened Agent

  ghost predicate DistinctIds(all: seq<Peer>) {
    forall i, j :: 0 <= i < j < |all| ==> all[i].nodeId != all[j].nodeId
  }

  function Ids(all: seq<Peer>): set<string> {
    set i | 0 <= i < |all| :: all[i].nodeId
  }

  /** What the registry lists, each node once. */
  ghost predicate Lists(all: seq<Peer>, s: Registry.Store, now: int) {
    DistinctIds(all) && Ids(all) == Registry.Listing(s, now).Keys
  }

  /** What the agent gets to see of it. */
  function Cut(all: seq<Peer>, requested: int): seq<Peer> {
    all[..Endpoint.Shown(|all|, requested)]
  }

  /** No command and no lookup fails, and every node of `ids` has a key and a port. */
  ghost predicate AllWell(w: World, ids: set<string>) {
    && w.lookupFails == {} && w.addFails == {} && w.removeFails == {}
    && forall n :: n in ids ==> n in w.keys && n in w.ports && w.ports[n] != 0
  }

  ghost predicate AllAddressed(all: seq<Peer>) {
    forall i :: 0 <= i < |all| ==> all[i].p2pAddrs != []
  }

  lemma {:induction false} CutIsWell(cfg: Config, active: map<string, string>, all: seq<Peer>, requested: int, w: World)
    requires AllWell(w, Ids(all)) && AllAddressed(all)
    ensures NoFailure(cfg, active, Cut(all, requested), w)
  {
    var cut := Cut(all, requested);
    forall n | n in Others(cfg, cut) ensures n in w.keys && Port(cut, w, n) != 0 {
      var i :| 0 <= i < |cut| && cut[i].nodeId == n;
      assert all[i] == cut[i] && n in Ids(all);
      var p := Entry(cut, n);
      assert p in cut;
    }
  }

  /** If all goes well, the table becomes the live other nodes exactly when the limit cuts off nobody but
      the agent's own node. All others that are cut off are removed, though they are alive. */
  lemma {:induction false} TableIsLiveExactly(
      cfg: Config, active: map<string, string>, s: Registry.Store, now: int, all: seq<Peer>, requested: int, w: World)
    requires Registry.Coherent(s, now) && Lists(all, s, now) && AllAddressed(all) && AllWell(w, Ids(all))
    ensures var table, live := NewActive(cfg, active, Cut(all, requested), w).Keys, Registry.LivePeers(s, now).Keys;
            && (table == live - {cfg.self} <==>
                  forall i :: Endpoint.Shown(|all|, requested) <= i < |all| ==> all[i].nodeId == cfg.self)
            && (forall i :: Endpoint.Shown(|all|, requested) <= i < |all| ==>
                  all[i].nodeId in live && all[i].nodeId !in table)
  {
    var cut, k := Cut(all, requested), Endpoint.Shown(|all|, requested);
    CutIsWell(cfg, active, all, requested, w);
    Converges(cfg, active, cut, w);
    Registry.CoherentListing(s, now);
    hide NoFailure, NewActive, Registry.Coherent, Registry.Listing, Registry.LivePeers;
    OthersOfCut(cfg, all, k);
  }

  lemma {:induction false} OthersOfCut(cfg: Config, all: seq<Peer>, k: nat)
    requires DistinctIds(all) && k <= |all|
    ensures Others(cfg, all[..k]) == Ids(all) - {cfg.self} <==> forall i :: k <= i < |all| ==> all[i].nodeId == cfg.self
    ensures forall i :: k <= i < |all| ==> all[i].nodeId in Ids(all) && all[i].nodeId !in Others(cfg, all[..k])
  {
    forall i | k <= i < |all| ensures all[i].nodeId in Ids(all) && all[i].nodeId !in Others(cfg, all[..k]) {
    }
    if forall i :: k <= i < |all| ==> all[i].nodeId == cfg.self {
      forall n ensures n in Others(cfg, all[..k]) <==> n in Ids(all) - {cfg.self} {
        if n in Ids(all) - {cfg.self} {
          var i :| 0 <= i < |all| && all[i].nodeId == n;
          assert all[..k][i].nodeId == n;
        }
      }
    }
  }

  // ---------- Whatever the order ----------

  /** The nodes `ids`, each once, with some address. */
  lemma {:induction false} SomeListing(ids: set<string>) returns (all: seq<Peer>)
    ensures DistinctIds(all) && Ids(all) == ids && AllAddressed(all) && |all| == |ids|
  {
    all := [];
    var rest := ids;
    while rest != {}
      invariant rest <= ids && DistinctIds(all) && Ids(all) == ids - rest && AllAddressed(all)
      invariant |all| + |rest| == |ids|
    {
      var n :| n in rest;
      var p := Peer(n, "", [""], false);
      OneMoreId(all, p);
      all, rest := all + [p], rest - {n};
    }
  }

  lemma {:induction false} OneMoreId(all: seq<Peer>, p: Peer)
    ensures Ids(all + [p]) == Ids(all) + {p.nodeId}
    ensures DistinctIds(all) && p.nodeId !in Ids(all) ==> DistinctIds(all + [p])
  {
    forall n ensures n in Ids(all + [p]) <==> n in Ids(all) || n == p.nodeId {
      if n in Ids(all) {
        var i :| 0 <= i < |all| && all[i].nodeId == n;
        assert (all + [p])[i].nodeId == n;
      }
      assert (all + [p])[|all|] == p;
    }
  }

  lemma {:induction false} IdsCount(all: seq<Peer>)
    requires DistinctIds(all)
    ensures |Ids(all)| == |all|
  {
    if all != [] {
      var front, p := all[..|all| - 1], all[|all| - 1];
      IdsCount(front);
      OneMoreId(front, p);
      assert front + [p] == all;
      assert p.nodeId !in Ids(front);
    }
  }

  /** The set of members has no order. In every order the table becomes the live other nodes exactly when
      at most as many nodes are alive as the agent asks for, itself included. */
  lemma {:induction false} InEveryOrderExactly(
      cfg: Config, active: map<string, string>, s: Registry.Store, now: int, requested: nat, w: World)
    requires Registry.Coherent(s, now) && AllWell(w, Registry.LivePeers(s, now).Keys) && requested >= 1
    ensures var live := Registry.LivePeers(s, now).Keys;
            (forall all :: Lists(all, s, now) && AllAddressed(all) ==>
               NewActive(cfg, active, Cut(all, requested), w).Keys == live - {cfg.self})
            <==> |live| <= requested
  {
    var live := Registry.LivePeers(s, now).Keys;
    Registry.CoherentListing(s, now);
    hide NewActive, Registry.Coherent, Registry.Listing, Registry.LivePeers, AllWell, AllAddressed;
    if |live| <= requested {
      forall all | Lists(all, s, now) && AllAddressed(all)
        ensures NewActive(cfg, active, Cut(all, requested), w).Keys == live - {cfg.self}
      {
        IdsCount(all);
        TableIsLiveExactly(cfg, active, s, now, all, requested, w);
      }
    } else {
      var all := SomeCutListing(live, cfg.self);
      IdsCount(all);
      TableIsLiveExactly(cfg, active, s, now, all, requested, w);
      assert all[|all| - 1].nodeId != cfg.self;
    }
  }

  /** A listing that ends with another node. */
  lemma {:induction false} SomeCutListing(ids: set<string>, self: string) returns (all: seq<Peer>)
    requires |ids| >= 2
    ensures DistinctIds(all) && Ids(all) == ids && AllAddressed(all)
    ensures all != [] && all[|all| - 1].nodeId != self
  {
    var n: string;
    if ids <= {self} {
      SubsetSize(ids, {self});
    } else {
      n :| n in ids && n != self;
    }
    var front := SomeListing(ids - {n});
    var p := Peer(n, "", [""], false);
    OneMoreId(front, p);
    all := front + [p];
  }

  lemma {:induction false} SubsetSize<T>(a: set<T>, b: set<T>)
    requires a <= b
    ensures |a| <= |b|
  {
    if a != {} {
      var x :| x in a;
      SubsetSize(a - {x}, b - {x});
    }
  }
}
