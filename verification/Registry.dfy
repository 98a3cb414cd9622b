/** The peer registry of services/discovery/internal/registry/registry.go.

    Redis is modelled by the peer keys with their expiry and by the set of online node IDs; a key is
    alive strictly before its expiry. The clock is a parameter of every operation. */
module Registry {
  import opened Text

  datatype Peer = Peer(nodeId: string, endpoint: string, isExitNode: bool, lastSeen: int)

  datatype Entry = Entry(peer: Peer, expiry: int)

  datatype Store = Store(keys: map<string, Entry>, online: set<string>)

  predicate Live(s: Store, id: string, now: int) {
    id in s.keys && now < s.keys[id].expiry
  }

  /** The peers that are alive. */
  function LivePeers(s: Store, now: int): map<string, Peer> {
    map id | id in s.keys && Live(s, id, now) :: s.keys[id].peer
  }

  /** What `ListOnlinePeers` finds by way of the online set, by node ID. */
  function Listing(s: Store, now: int): map<string, Peer> {
    map id | id in s.online && Live(s, id, now) :: s.keys[id].peer
  }

  /** One uninterrupted operation, with what fails in it: each flag is false if the command it is named
      for fails without effect. In a listing `unreadable` are the node IDs whose Get fails; `stuck`
      are those whose SRem fails, which nobody notices. */
  datatype Op =
    | Register(peer: Peer, put: bool, add: bool)
    | Heartbeat(id: string, found: bool, expire: bool)
    | Unregister(id: string, del: bool, rem: bool)
    | List(members: bool, unreadable: set<string>, stuck: set<string>)
    | CleanupStale(lookups: bool, stuck: set<string>)

  function Step(s: Store, ttl: int, op: Op, now: int): Store {
    match op
    case Register(peer, put, add) =>
      if !put then s
      else
        Store(s.keys[peer.nodeId := Entry(peer.(lastSeen := now), now + ttl)],
              if add then s.online + {peer.nodeId} else s.online)
    case Heartbeat(id, found, expire) =>
      if found && expire && Live(s, id, now) then s.(keys := s.keys[id := s.keys[id].(expiry := now + ttl)]) else s
    case Unregister(id, del, rem) =>
      if !del then s
      else Store(s.keys - {id}, if rem then s.online - {id} else s.online)
    case List(members, unreadable, stuck) =>
      if members then s.(online := Remaining(s, unreadable, stuck, now)) else s
    case CleanupStale(lookups, stuck) =>
      if lookups then s.(online := Remaining(s, {}, stuck, now)) else s
  }

  /** The members that were found, or whose removal failed. */
  function Remaining(s: Store, unreadable: set<string>, stuck: set<string>, now: int): set<string> {
    set id | id in s.online && ((Live(s, id, now) && id !in unreadable) || id in stuck)
  }

  /** The members of the online set that a cleanup does not find among the keys. */
  function StaleMembers(s: Store, now: int): set<string> {
    set id | id in s.online && !Live(s, id, now)
  }

  class Registry {
    const ttl: int
    var keys: map<string, Entry>
    var online: set<string>

    function View(): Store
      reads this
    {
      Store(keys, online)
    }

    /** Every key is stored under the node ID of its peer. */
    ghost predicate Valid()
      reads this
    {
      forall id :: id in keys ==> keys[id].peer.nodeId == id
    }

    constructor (ttl: int)
      requires ttl > 0
      ensures Valid() && this.ttl == ttl && View() == Store(map[], {})
    {
      this.ttl := ttl;
      keys, online := map[], {};
    }

    method RegisterPeer(peer: Peer, put: bool, add: bool, now: int) returns (ok: bool)
      requires Valid()
      modifies this
      ensures Valid() && View() == Step(old(View()), ttl, Register(peer, put, add), now)
      ensures ok == (put && add)
    {
      if !put {
        return false;
      }
      keys := keys[peer.nodeId := Entry(peer.(lastSeen := now), now + ttl)];
      if !add {
        return false;
      }
      online := online + {peer.nodeId};
      return true;
    }

    /** `found` and `expire` are false if Exists or Expire fails. */
    method Renew(id: string, found: bool, expire: bool, now: int) returns (ok: bool)
      requires Valid()
      modifies this
      ensures Valid() && View() == Step(old(View()), ttl, Heartbeat(id, found, expire), now)
      ensures ok == (found && Live(old(View()), id, now) && expire)
    {
      if !found {
        return false;
      }
      if id !in keys || now >= keys[id].expiry {
        return false;
      }
      if !expire {
        return false;
      }
      keys := keys[id := keys[id].(expiry := now + ttl)];
      return true;
    }

    method UnregisterPeer(id: string, del: bool, rem: bool) returns (ok: bool)
      requires Valid()
      modifies this
      ensures Valid() && forall now :: View() == Step(old(View()), ttl, Unregister(id, del, rem), now)
      ensures ok == (del && rem)
    {
      if !del {
        return false;
      }
      keys := keys - {id};
      if !rem {
        return false;
      }
      online := online - {id};
      return true;
    }

    /** `readable` is false if Get or the decoding fails. */
    method GetPeer(id: string, readable: bool, now: int) returns (peer: Option<Peer>)
      ensures peer == if readable && id in LivePeers(View(), now) then Some(LivePeers(View(), now)[id]) else None
    {
      if !readable || id !in keys || now >= keys[id].expiry {
        return None;
      }
      return Some(keys[id].peer);
    }

    method ListOnlinePeers(members: bool, unreadable: set<string>, stuck: set<string>, now: int)
      returns (ok: bool, peers: seq<Peer>)
      requires Valid()
      modifies this
      ensures Valid() && View() == Step(old(View()), ttl, List(members, unreadable, stuck), now)
      ensures ok == members && (!ok ==> peers == [])
      ensures ok ==> forall id :: id in Listing(old(View()), now) && id !in unreadable ==>
                Listing(old(View()), now)[id] in peers
      ensures forall i :: 0 <= i < |peers| ==>
                && peers[i].nodeId in Listing(old(View()), now) && peers[i].nodeId !in unreadable
                && peers[i] == Listing(old(View()), now)[peers[i].nodeId]
      ensures forall i, j :: 0 <= i < j < |peers| ==> peers[i].nodeId != peers[j].nodeId
    {
      if !members {
        return false, [];
      }
      peers := [];
      ghost var listing := Listing(View(), now);
      var todo := online;
      while todo != {}
        invariant todo <= online <= old(online) && keys == old(keys) && Valid()
        invariant forall id :: id in old(online) && id !in todo ==>
                    (id in online <==> (Live(old(View()), id, now) && id !in unreadable) || id in stuck)
        invariant forall id :: id in listing && id !in unreadable && id !in todo ==> listing[id] in peers
        invariant forall i :: 0 <= i < |peers| ==>
                    var id := peers[i].nodeId;
                    id in listing && id !in unreadable && id !in todo && peers[i] == listing[id]
        invariant forall i, j :: 0 <= i < j < |peers| ==> peers[i].nodeId != peers[j].nodeId
        decreases todo
      {
        var id :| id in todo;
        todo := todo - {id};
        var peer := GetPeer(id, id !in unreadable, now);
        match peer {
          case None =>
            if id !in stuck {
              online := online - {id};
            }
          case Some(p) => peers := peers + [p];
        }
      }
      return true, peers;
    }

    /** Looks every member up first and then removes the ones it has not found; it counts a removal that
        fails. `members` and `lookups` are false if SMembers or a lookup fails. */
    method Cleanup(members: bool, lookups: bool, stuck: set<string>, now: int) returns (ok: bool, removed: nat)
      requires Valid()
      modifies this
      ensures Valid() && View() == Step(old(View()), ttl, CleanupStale(members && lookups, stuck), now)
      ensures ok == (members && (old(online) == {} || lookups))
      ensures removed == if members && lookups then |StaleMembers(old(View()), now)| else 0
      ensures keys == old(keys)
      ensures stuck == {} ==> removed == |old(online)| - |online|
    {
      if !members {
        return false, 0;
      }
      if online == {} {
        NothingStale(View(), stuck, now);
        return true, 0;
      }
      if !lookups {
        return false, 0;
      }
      ghost var before := View();
      var stale := StaleMembers(View(), now);
      ghost var all := stale;
      removed := 0;
      hide StaleMembers;
      while stale != {}
        invariant stale <= all && keys == before.keys
        invariant online == before.online - (all - stale - stuck)
        invariant removed == |all| - |stale|
        decreases stale
      {
        var id :| id in stale;
        stale := stale - {id};
        if id !in stuck {
          online := online - {id};
        }
        removed := removed + 1;
      }
      AllStaleGone(before, stuck, now);
      assert View() == Step(before, ttl, CleanupStale(true, stuck), now);
      hide Remaining, Live, Step;
      CleanupExactly(before, ttl, stuck, now);
      return true, removed;
    }
  }

  /** A cleanup whose lookups work leaves in the set the members that are alive and those whose SRem fails,
      and it leaves the keys alone. So many members fewer are in the set as were found stale, but for
      those; and if every live peer was in the set, then, no SRem failing, exactly the live ones are. */
  lemma {:induction false} CleanupExactly(s: Store, ttl: int, stuck: set<string>, now: int)
    ensures var s', stale := Step(s, ttl, CleanupStale(true, stuck), now), StaleMembers(s, now);
            && s'.keys == s.keys
            && s'.online == s.online - (stale - stuck) && StaleMembers(s', now) == stale * stuck
            && |s.online| - |s'.online| == |stale - stuck|
            && (Coherent(s, now) ==> s'.online == LivePeers(s, now).Keys + stale * stuck)
    ensures Step(s, ttl, CleanupStale(false, stuck), now) == s
  {
    var stale := StaleMembers(s, now);
    var s' := Step(s, ttl, CleanupStale(true, stuck), now);
    forall id ensures id in s'.online <==> id in s.online - (stale - stuck) {
    }
    assert s.online == s'.online + (stale - stuck);
    if Coherent(s, now) {
      forall id ensures id in s'.online <==> id in LivePeers(s, now).Keys + stale * stuck {
      }
    }
  }

  /** A listing whose SMembers works leaves in the set the members that it could read and those whose
      SRem fails. */
  lemma {:induction false} ListExactly(s: Store, ttl: int, unreadable: set<string>, stuck: set<string>, now: int)
    ensures var s' := Step(s, ttl, List(true, unreadable, stuck), now);
            && s'.keys == s.keys
            && s'.online == s.online - (StaleMembers(s, now) + unreadable - stuck)
    ensures Step(s, ttl, List(false, unreadable, stuck), now) == s
  {
    var s' := Step(s, ttl, List(true, unreadable, stuck), now);
    forall id ensures id in s'.online <==> id in s.online - (StaleMembers(s, now) + unreadable - stuck) {
    }
  }

  /** What the other operations do to the node they name; they leave all others alone. */
  lemma {:induction false} OwnEffect(s: Store, ttl: int, peer: Peer, now: int)
    requires ttl > 0
    ensures var id := peer.nodeId;
            var r, h, u := Step(s, ttl, Register(peer, true, true), now), Step(s, ttl, Heartbeat(id, true, true), now),
                           Step(s, ttl, Unregister(id, true, true), now);
            && id in r.online && id in r.keys && r.keys[id].peer == peer.(lastSeen := now)
            && (forall t :: Live(r, id, t) <==> t < now + ttl)
            && h.online == s.online && h.keys.Keys == s.keys.Keys
            && (forall t :: t >= now ==>
                  (Live(h, id, t) <==> if Live(s, id, now) then t < now + ttl else Live(s, id, t)))
            && (id in s.keys ==> h.keys[id].peer == s.keys[id].peer)
            && id !in u.online && id !in u.keys
            && (forall other :: other != id ==> SameNode(s, r, other) && SameNode(s, h, other) && SameNode(s, u, other))
  {
  }

  /** Nothing has changed for the node. */
  ghost predicate SameNode(s: Store, s': Store, id: string) {
    && (id in s'.online <==> id in s.online) && (id in s'.keys <==> id in s.keys)
    && (id in s.keys ==> s'.keys[id] == s.keys[id])
  }

  lemma NothingStale(s: Store, stuck: set<string>, now: int)
    requires s.online == {}
    ensures StaleMembers(s, now) == {} && Remaining(s, {}, stuck, now) == {}
  {
  }

  lemma AllStaleGone(s: Store, stuck: set<string>, now: int)
    ensures s.online - (StaleMembers(s, now) - {} - stuck) == Remaining(s, {}, stuck, now)
  {
  }

  // ---------- Coherence of the index ----------

  /** Every live peer is in the online set. */
  ghost predicate Coherent(s: Store, now: int) {
    forall id :: Live(s, id, now) ==> id in s.online
  }

  /** Then a listing shows exactly the live peers. */
  lemma CoherentListing(s: Store, now: int)
    ensures Coherent(s, now) <==> Listing(s, now) == LivePeers(s, now)
  {
    forall id | Live(s, id, now) ensures id in LivePeers(s, now) {
    }
  }

  /** What the operation must not do: register without reaching the online set, or fail to read a
      live member in a listing and yet remove it. */
  ghost predicate Harmless(s: Store, op: Op, now: int) {
    match op
    case Register(peer, put, add) => put && !add ==> peer.nodeId in s.online
    case List(members, unreadable, stuck) =>
      members ==> forall id :: id in s.online && Live(s, id, now) && id in unreadable ==> id in stuck
    case _ => true
  }

  /** Those two faults are exactly what breaks the index. */
  lemma {:induction false} CoherenceKeptExactly(s: Store, ttl: int, op: Op, last: int, now: int)
    requires ttl > 0 && last <= now && Coherent(s, last)
    ensures Coherent(Step(s, ttl, op, now), now) <==> Harmless(s, op, now)
  {
    var s' := Step(s, ttl, op, now);
    if !Harmless(s, op, now) {
      var id := match op
        case Register(peer, _, _) => peer.nodeId
        case List(_, unreadable, stuck) =>
          (var id :| id in s.online && Live(s, id, now) && id in unreadable && id !in stuck; id)
        case _ => "";
      assert Live(s', id, now) && id !in s'.online;
    }
  }

  // ---------- Runs ----------

  datatype Event = Event(op: Op, time: int)

  ghost predicate Monotone(es: seq<Event>) {
    forall i, j :: 0 <= i < j < |es| ==> es[i].time <= es[j].time
  }

  ghost predicate Within(es: seq<Event>, lo: int, hi: int) {
    lo <= hi && forall i :: 0 <= i < |es| ==> lo <= es[i].time <= hi
  }

  /** No SAdd fails after its Set, and no Get of a listing fails; every other command may fail. */
  predicate Safe(op: Op) {
    match op
    case Register(_, put, add) => put ==> add
    case List(_, unreadable, _) => unreadable == {}
    case _ => true
  }

  ghost predicate AllSafe(es: seq<Event>) {
    forall i :: 0 <= i < |es| ==> Safe(es[i].op)
  }

  function After(s: Store, ttl: int, es: seq<Event>): Store {
    if es == [] then s
    else Step(After(s, ttl, es[..|es| - 1]), ttl, es[|es| - 1].op, es[|es| - 1].time)
  }

  lemma {:induction false} CoherentForever(s: Store, ttl: int, es: seq<Event>, start: int, now: int)
    requires ttl > 0 && Coherent(s, start) && Monotone(es) && Within(es, start, now) && AllSafe(es)
    ensures Coherent(After(s, ttl, es), now)
  {
    if es != [] {
      var e := es[|es| - 1];
      CoherentForever(s, ttl, es[..|es| - 1], start, e.time);
      CoherenceKeptExactly(After(s, ttl, es[..|es| - 1]), ttl, e.op, e.time, e.time);
    }
  }

  /** The run without its listings and cleanups. */
  function Essential(es: seq<Event>): seq<Event> {
    if es == [] then []
    else
      var e := es[|es| - 1];
      Essential(es[..|es| - 1]) + if e.op.List? || e.op.CleanupStale? then [] else [e]
  }

  lemma {:induction false} AfterOneMore(s: Store, ttl: int, es: seq<Event>, e: Event)
    ensures After(s, ttl, es + [e]) == Step(After(s, ttl, es), ttl, e.op, e.time)
  {
    assert (es + [e])[..|es|] == es;
  }

  lemma StepKeys(s: Store, s': Store, ttl: int, op: Op, now: int)
    requires s.keys == s'.keys
    ensures Step(s, ttl, op, now).keys == Step(s', ttl, op, now).keys
    ensures op.List? || op.CleanupStale? ==> Step(s, ttl, op, now).keys == s.keys
  {
  }

  lemma {:induction false} EssentialKeys(s: Store, ttl: int, es: seq<Event>)
    ensures After(s, ttl, es).keys == After(s, ttl, Essential(es)).keys
  {
    if es != [] {
      var es', e := es[..|es| - 1], es[|es| - 1];
      EssentialKeys(s, ttl, es');
      AfterOneMore(s, ttl, Essential(es'), e);
      StepKeys(After(s, ttl, es'), After(s, ttl, Essential(es')), ttl, e.op, e.time);
      assert After(s, ttl, es) == Step(After(s, ttl, es'), ttl, e.op, e.time);
      hide Step, After;
      assert Essential(es') + [] == Essential(es');
    }
  }

  /** In safe runs every listing shows exactly the live peers, and cleanups and other
      listings, wherever they are inserted or left out, change no listing. */
  lemma {:induction false} CleanupTransparent(
      s: Store, ttl: int, es1: seq<Event>, es2: seq<Event>, start: int, now: int)
    requires ttl > 0 && Coherent(s, start) && Essential(es1) == Essential(es2)
    requires Monotone(es1) && Within(es1, start, now) && AllSafe(es1)
    requires Monotone(es2) && Within(es2, start, now) && AllSafe(es2)
    ensures Listing(After(s, ttl, es1), now) == LivePeers(After(s, ttl, es1), now)
    ensures Listing(After(s, ttl, es1), now) == Listing(After(s, ttl, es2), now)
  {
    CoherentForever(s, ttl, es1, start, now);
    CoherentForever(s, ttl, es2, start, now);
    CoherentListing(After(s, ttl, es1), now);
    CoherentListing(After(s, ttl, es2), now);
    EssentialKeys(s, ttl, es1);
    EssentialKeys(s, ttl, es2);
  }

  // ---------- Leases ----------

  datatype Renewal = Never | At(time: int)

  /** When `id` last renewed its lease, by registering or by a heartbeat in time, unless it unregistered
      since. A late heartbeat, and a command that fails, change nothing. */
  function LastRenewal(es: seq<Event>, id: string, ttl: int): Renewal {
    if es == [] then Never
    else
      var e, last := es[|es| - 1], LastRenewal(es[..|es| - 1], id, ttl);
      match e.op
      case Register(peer, put, _) => if put && peer.nodeId == id then At(e.time) else last
      case Heartbeat(id', found, expire) =>
        if id' == id && found && expire && last.At? && e.time < last.time + ttl then At(e.time) else last
      case Unregister(id', del, _) => if del && id' == id then Never else last
      case _ => last
  }

  /** The peer that `id` last registered as, stamped with the time. */
  function Registered(es: seq<Event>, id: string): Peer {
    if es == [] then Peer(id, "", false, 0)
    else
      var e := es[|es| - 1];
      if e.op.Register? && e.op.put && e.op.peer.nodeId == id then e.op.peer.(lastSeen := e.time)
      else Registered(es[..|es| - 1], id)
  }

  lemma {:induction false} KeyIsLease(ttl: int, es: seq<Event>, id: string)
    ensures var s, last := After(Store(map[], {}), ttl, es), LastRenewal(es, id, ttl);
            && (id in s.keys <==> last.At?)
            && (id in s.keys ==> s.keys[id] == Entry(Registered(es, id), last.time + ttl))
  {
    if es != [] {
      KeyIsLease(ttl, es[..|es| - 1], id);
      hide Remaining;
    }
  }

  /** In safe runs a node is live and listed at every instant before its last renewal + ttl and at no
      later one, whatever it lets lapse and takes up again; it is listed as it last registered. */
  lemma {:induction false} Lease(ttl: int, es: seq<Event>, id: string, start: int, now: int)
    requires ttl > 0 && Monotone(es) && Within(es, start, now) && AllSafe(es)
    ensures var s, last := After(Store(map[], {}), ttl, es), LastRenewal(es, id, ttl);
            && (Live(s, id, now) <==> last.At? && now < last.time + ttl)
            && (id in Listing(s, now) <==> last.At? && now < last.time + ttl)
            && (id in Listing(s, now) ==> Listing(s, now)[id] == Registered(es, id))
  {
    KeyIsLease(ttl, es, id);
    CoherentForever(Store(map[], {}), ttl, es, start, now);
    hide After, LastRenewal, Registered;
  }

  ghost predicate NoRegister(es: seq<Event>, id: string) {
    forall i :: 0 <= i < |es| && es[i].op.Register? ==> es[i].op.peer.nodeId != id
  }

  /** Once the lease is over, the node stays dead and every heartbeat fails, whatever else happens,
      until it registers again. */
  lemma {:induction false} DeadUntilRegistered(s: Store, ttl: int, es: seq<Event>, id: string, start: int, now: int)
    requires !Live(s, id, start) && Monotone(es) && Within(es, start, now) && NoRegister(es, id)
    ensures !Live(After(s, ttl, es), id, now)
  {
    if es != [] {
      DeadUntilRegistered(s, ttl, es[..|es| - 1], id, start, es[|es| - 1].time);
    }
  }
}
