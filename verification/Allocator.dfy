/** The IP allocator of services/config/internal/allocator/allocator.go.

    `inUse` and `nodes` are the Redis set of allocated addresses and the Redis keys. The mutex is held
    over each operation, so operations do not interleave, but every single Redis command in them
    may fail, before or after it took effect. */
module Allocator {
  import opened Bytes
  import opened Text
  import opened Address
  import opened FirstFit

  /** A command is done; fails without effect; or takes effect and its reply is lost. */
  datatype Fate = Done | NoEffect | ReplyLost

  /** What happens to the commands of `AllocateIP`: Get, SMembers, SAdd, Set. A read that fails
      counts as failed whether or not it reached the server. */
  datatype AllocFaults = AllocFaults(get: bool, members: bool, add: Fate, put: Fate)

  const NO_FAULTS := AllocFaults(true, true, Done, Done)

  datatype Result = Ok(ip: string) | NoAvailableIPs | StoreError

  datatype Store = Store(inUse: set<string>, nodes: map<string, string>)

  function Add(s: set<string>, x: string, fate: Fate): set<string> {
    if fate == NoEffect then s else s + {x}
  }

  function Remove(s: set<string>, x: string, fate: Fate): set<string> {
    if fate == NoEffect then s else s - {x}
  }

  /** What `AllocateIP` does and answers. A failed Get is taken for a node without an address. */
  function Allocate(net: Network, s: Store, node: string, f: AllocFaults): (Store, Result)
    requires |net.base| == 4 && net.prefix <= 32
  {
    if f.get && node in s.nodes then (s, Ok(s.nodes[node]))
    else if !f.members then (s, StoreError)
    else
      match Search(net, s.inUse, Start(net))
      case None => (s, NoAvailableIPs)
      case Some(found) =>
        var ip := Dotted(found);
        var s1 := s.(inUse := Add(s.inUse, ip, f.add));
        if f.add != Done then (s1, StoreError)
        else
          (s1.(nodes := if f.put == NoEffect then s.nodes else s.nodes[node := ip]),
           if f.put == Done then Ok(ip) else StoreError)
  }

  /** What `ReleaseIP` does. */
  function Release(s: Store, node: string, ip: string, rem: Fate, del: Fate): Store {
    var s1 := s.(inUse := Remove(s.inUse, ip, rem));
    if rem != Done || del == NoEffect then s1 else s1.(nodes := s.nodes - {node})
  }

  class Allocator {
    const network: Network
    const gateway: seq<byte>
    var inUse: set<string>
    var nodes: map<string, string>

    ghost predicate Valid() {
      network.Valid() && gateway == Gateway(network)
    }

    function View(): Store
      reads this
    {
      Store(inUse, nodes)
    }

    /** Starts on what Redis already holds. */
    constructor (network: Network, s: Store)
      requires network.Valid()
      ensures Valid() && this.network == network && View() == s
    {
      this.network := network;
      this.gateway := network.base[|network.base| - 1 := 1];
      inUse, nodes := s.inUse, s.nodes;
    }

    method AllocateIP(node: string, f: AllocFaults) returns (r: Result)
      requires Valid() && !Wraps(network, inUse)
      modifies this
      ensures (View(), r) == Allocate(network, old(View()), node, f)
    {
      if f.get && node in nodes {
        return Ok(nodes[node]);
      }
      if !f.members {
        return StoreError;
      }
      if network.prefix == 0 {
        NotFullUnlessWraps(network, inUse);
      }
      var found := FindAvailableIP(network, inUse);
      SearchIsFirstFit(network, inUse, Start(network));
      FirstFitUnique(network, inUse, found, Search(network, inUse, Start(network)));
      hide Search, IsFirstFit, Dotted;
      if found == None {
        return NoAvailableIPs;
      }
      var ip := Dotted(found.value);
      inUse := Add(inUse, ip, f.add);
      if f.add != Done {
        return StoreError;
      }
      if f.put != NoEffect {
        nodes := nodes[node := ip];
      }
      return if f.put == Done then Ok(ip) else StoreError;
    }

    method ReleaseIP(node: string, ip: string, rem: Fate, del: Fate) returns (ok: bool)
      modifies this
      ensures View() == Release(old(View()), node, ip, rem, del)
      ensures ok == (rem == Done && del == Done)
    {
      inUse := Remove(inUse, ip, rem);
      if rem != Done {
        return false;
      }
      if del != NoEffect {
        nodes := nodes - {node};
      }
      return del == Done;
    }
  }

  lemma NotFullUnlessWraps(net: Network, inUse: set<string>)
    requires net.Valid() && net.prefix == 0 && !Wraps(net, inUse)
    ensures SomeUnused(inUse)
  {
  }

  /** A node that holds an address is told it, and nothing changes. */
  lemma {:induction false} HolderIsTold(net: Network, s: Store, node: string, f: AllocFaults)
    requires net.Valid() && f.get && node in s.nodes
    ensures Allocate(net, s, node, f) == (s, Ok(s.nodes[node]))
  {
  }

  /** Any other node is promised the least usable address `v` that is not marked. The address is marked
      unless SAdd has no effect, and it is the node's unless SAdd fails or Set has no effect; the node is
      told it if nothing fails. If the members cannot be read, nothing happens. */
  lemma {:induction false} AllocateExactly(net: Network, s: Store, node: string, f: AllocFaults, v: nat)
    requires net.Valid() && !(f.get && node in s.nodes)
    requires v < LIMIT && v in Usable(net) && TextOf(v) !in s.inUse && TakenBelow(net, s.inUse, v)
    ensures var (s', r) := Allocate(net, s, node, f);
            if !f.members then s' == s && r == StoreError
            else
              && (s'.inUse == if f.add == NoEffect then s.inUse else s.inUse + {TextOf(v)})
              && (s'.nodes == if f.add != Done || f.put == NoEffect then s.nodes else s.nodes[node := TextOf(v)])
              && (r == if f.add == Done && f.put == Done then Ok(TextOf(v)) else StoreError)
  {
    IpOfValue(Ip(v));
    hide Usable, TakenBelow, Dotted, Ip, Value, Start, Search;
    SearchFinds(net, s.inUse);
    FirstFitUnique(net, s.inUse, Search(net, s.inUse, Start(net)), Some(Ip(v)));
  }

  /** With every usable address marked it is refused. */
  lemma {:induction false} FullRefuses(net: Network, s: Store, node: string, f: AllocFaults)
    requires net.Valid() && !(f.get && node in s.nodes) && f.members && TakenBelow(net, s.inUse, LIMIT)
    ensures Allocate(net, s, node, f) == (s, NoAvailableIPs)
  {
    hide Usable, TakenBelow, Dotted, Ip, Value, Start, Search;
    SearchFinds(net, s.inUse);
    FirstFitUnique(net, s.inUse, Search(net, s.inUse, Start(net)), None);
  }

  /** A release unmarks exactly the address it names, unless SRem has no effect, and takes away exactly the
      key of the node it names, unless SRem fails or Del has no effect. */
  lemma {:induction false} ReleaseExactly(s: Store, node: string, ip: string, rem: Fate, del: Fate)
    ensures var s' := Release(s, node, ip, rem, del);
            && (forall x :: x in s'.inUse <==> x in s.inUse && !(x == ip && rem != NoEffect))
            && (forall n :: n in s'.nodes <==> n in s.nodes && !(n == node && rem == Done && del != NoEffect))
            && (forall n :: n in s'.nodes ==> s'.nodes[n] == s.nodes[n])
  {
  }

  // ---------- Uniqueness over all runs ----------

  /** No two nodes hold one address, and every held address is marked as allocated. */
  ghost predicate Unique(s: Store) {
    && (forall n, m :: n in s.nodes && m in s.nodes && n != m ==> s.nodes[n] != s.nodes[m])
    && (forall n :: n in s.nodes ==> s.nodes[n] in s.inUse)
  }

  datatype Op =
    | Alloc(node: string, faults: AllocFaults)
    | Free(node: string, ip: string, rem: Fate, del: Fate)

  function Step(net: Network, s: Store, op: Op): Store
    requires |net.base| == 4 && net.prefix <= 32
  {
    match op
    case Alloc(node, f) => Allocate(net, s, node, f).0
    case Free(node, ip, rem, del) => Release(s, node, ip, rem, del)
  }

  function After(net: Network, s: Store, ops: seq<Op>): Store
    requires |net.base| == 4 && net.prefix <= 32
  {
    if ops == [] then s else Step(net, After(net, s, ops[..|ops| - 1]), ops[|ops| - 1])
  }

  /** The release takes nobody's address but that of `node` itself, and then its Del comes through. */
  ghost predicate Matched(s: Store, op: Op) {
    op.Free? && op.rem != NoEffect ==>
      forall n :: n in s.nodes && s.nodes[n] == op.ip ==> n == op.node && op.rem == Done && op.del != NoEffect
  }

  /** Allocation keeps addresses unique whatever fails in it; a release does exactly when it is
      matched. */
  lemma {:induction false} UniqueKept(net: Network, s: Store, op: Op)
    requires net.Valid() && Unique(s)
    ensures Unique(Step(net, s, op)) <==> Matched(s, op)
  {
    hide Search, Dotted, Start;
    var s' := Step(net, s, op);
    if !Matched(s, op) {
      var n :| n in s.nodes && s.nodes[n] == op.ip && !(n == op.node && op.rem == Done && op.del != NoEffect);
      assert n in s'.nodes && s'.nodes[n] !in s'.inUse;
    }
  }

  ghost predicate AllMatched(net: Network, s: Store, ops: seq<Op>)
    requires |net.base| == 4 && net.prefix <= 32
  {
    forall i :: 0 <= i < |ops| ==> Matched(After(net, s, ops[..i]), ops[i])
  }

  /** In every run whose releases are matched no two nodes ever hold one address. */
  lemma {:induction false} UniqueForever(net: Network, s: Store, ops: seq<Op>)
    requires net.Valid() && Unique(s) && AllMatched(net, s, ops)
    ensures Unique(After(net, s, ops))
  {
    if ops != [] {
      var front := ops[..|ops| - 1];
      assert forall i :: 0 <= i <= |front| ==> front[..i] == ops[..i];
      UniqueForever(net, s, front);
      UniqueKept(net, After(net, s, front), ops[|ops| - 1]);
    }
  }

  // ---------- Runs without faults ----------

  ghost predicate UsableText(net: Network, ip: string)
    requires |net.base| == 4 && net.prefix <= 32
  {
    exists v: nat :: v in Usable(net) && v < LIMIT && TextOf(v) == ip
  }

  /** Exactly the held addresses are marked, and the search reaches all of them. */
  ghost predicate Exact(net: Network, s: Store)
    requires |net.base| == 4 && net.prefix <= 32
  {
    && Unique(s)
    && (forall ip :: ip in s.inUse ==> exists n :: n in s.nodes && s.nodes[n] == ip)
    && (forall ip :: ip in s.inUse ==> UsableText(net, ip))
  }

  /** No fault, and a release names the address that the node holds, or a node and an address that
      nobody holds. */
  ghost predicate Clean(s: Store, op: Op) {
    match op
    case Alloc(_, f) => f == NO_FAULTS
    case Free(node, ip, rem, del) =>
      && rem == Done && del == Done
      && if node in s.nodes then s.nodes[node] == ip else forall n :: n in s.nodes ==> s.nodes[n] != ip
  }

  /** A fault-free allocation for a new node fails, or marks and hands out one unmarked address. */
  lemma {:induction false} AllocateNew(net: Network, s: Store, node: string) returns (ip: string)
    requires net.Valid() && node !in s.nodes
    ensures var (s', r) := Allocate(net, s, node, NO_FAULTS);
            (r == NoAvailableIPs && s' == s) ||
            (r == Ok(ip) && s' == Store(s.inUse + {ip}, s.nodes[node := ip]) && ip !in s.inUse && UsableText(net, ip))
  {
    SearchFinds(net, s.inUse);
    hide Dotted, Usable, Ip, Start, Value, TakenBelow;
    match Search(net, s.inUse, Start(net))
    case Some(found) => ip := Dotted(found);
    case None => ip := "";
  }

  lemma {:induction false} ExactWithOneMore(net: Network, s: Store, node: string, ip: string)
    requires net.Valid() && Exact(net, s) && node !in s.nodes && ip !in s.inUse && UsableText(net, ip)
    ensures Exact(net, Store(s.inUse + {ip}, s.nodes[node := ip]))
  {
    hide UsableText;
    var s' := Store(s.inUse + {ip}, s.nodes[node := ip]);
    forall x | x in s'.inUse ensures exists n :: n in s'.nodes && s'.nodes[n] == x {
      var n := if x == ip then node else (var n :| n in s.nodes && s.nodes[n] == x; n);
      assert n in s'.nodes && s'.nodes[n] == x;
    }
  }

  lemma {:induction false} ExactWithOneLess(net: Network, s: Store, node: string, ip: string)
    requires net.Valid() && Exact(net, s) && Clean(s, Free(node, ip, Done, Done))
    ensures Exact(net, Release(s, node, ip, Done, Done))
  {
    hide UsableText;
    var s' := Release(s, node, ip, Done, Done);
    forall x | x in s'.inUse ensures exists n :: n in s'.nodes && s'.nodes[n] == x {
      var n :| n in s.nodes && s.nodes[n] == x;
      assert n in s'.nodes && s'.nodes[n] == x;
    }
  }

  lemma {:induction false} ExactKept(net: Network, s: Store, op: Op)
    requires net.Valid() && Exact(net, s) && Clean(s, op)
    ensures Exact(net, Step(net, s, op))
  {
    match op
    case Alloc(node, f) =>
      if node !in s.nodes {
        var ip := AllocateNew(net, s, node);
        hide Allocate, Exact;
        if Allocate(net, s, node, f).0 != s {
          ExactWithOneMore(net, s, node, ip);
        }
      }
    case Free(node, ip, rem, del) => ExactWithOneLess(net, s, node, ip);
  }

  lemma {:induction false} ExactForever(net: Network, s: Store, ops: seq<Op>)
    requires net.Valid() && Exact(net, s)
    requires forall i :: 0 <= i < |ops| ==> Clean(After(net, s, ops[..i]), ops[i])
    ensures Exact(net, After(net, s, ops))
    ensures |After(net, s, ops).inUse| == |After(net, s, ops).nodes|
  {
    if ops != [] {
      var front := ops[..|ops| - 1];
      assert forall i :: 0 <= i <= |front| ==> front[..i] == ops[..i];
      ExactForever(net, s, front);
      ExactKept(net, After(net, s, front), ops[|ops| - 1]);
    }
    HeldCount(net, After(net, s, ops).nodes, After(net, s, ops).inUse);
  }

  /** An injective map has as many values as keys. */
  lemma {:induction false} HeldCount(net: Network, nodes: map<string, string>, inUse: set<string>)
    requires Unique(Store(inUse, nodes))
    requires forall ip :: ip in inUse ==> exists n :: n in nodes && nodes[n] == ip
    ensures |inUse| == |nodes|
    decreases nodes
  {
    if nodes == map[] {
      assert inUse == {};
    } else {
      var n :| n in nodes;
      var nodes', inUse' := nodes - {n}, inUse - {nodes[n]};
      forall ip | ip in inUse' ensures exists m :: m in nodes' && nodes'[m] == ip {
        var m :| m in nodes && nodes[m] == ip;
        assert m in nodes' && nodes'[m] == ip;
      }
      HeldCount(net, nodes', inUse');
    }
  }

  /** The texts of a set of addresses. */
  ghost function Texts(vs: set<nat>): (ips: set<string>)
    requires forall v :: v in vs ==> v < LIMIT
    ensures forall ip :: ip in ips <==> exists v :: v in vs && TextOf(v) == ip
    ensures |ips| == |vs|
    decreases vs
  {
    if vs == {} then {}
    else
      var v :| v in vs;
      TextFresh(vs - {v}, v);
      Texts(vs - {v}) + {TextOf(v)}
  }

  lemma {:induction false} TextFresh(vs: set<nat>, v: nat)
    requires v < LIMIT && v !in vs && forall w :: w in vs ==> w < LIMIT
    ensures forall w :: w in vs ==> TextOf(w) != TextOf(v)
  {
    forall w | w in vs ensures TextOf(w) != TextOf(v) {
      if TextOf(w) == TextOf(v) {
        TextInjective(w, v);
      }
    }
  }

  lemma {:induction false} UsableBounded(net: Network)
    requires net.Valid()
    ensures forall v :: v in Usable(net) ==> v < LIMIT
  {
    ContainsIsInterval(net, net.base);
  }

  lemma {:induction false} SubsetOfSameSize(a: set<string>, b: set<string>)
    requires a <= b
    ensures a == b <==> |a| == |b|
  {
    assert b == a + (b - a);
  }

  /** Without faults a new node gets no address exactly when as many nodes hold one as the search
      can reach: 2 to the power of (32 - prefix), less 2, up to prefix 24. */
  lemma {:induction false} ExhaustedExactlyWhenFull(net: Network, s: Store, node: string)
    requires net.Valid() && Exact(net, s) && node !in s.nodes
    ensures Allocate(net, s, node, NO_FAULTS).1 == NoAvailableIPs <==> |s.nodes| == |Usable(net)|
    ensures 1 <= net.prefix <= 24 ==> |Usable(net)| == net.Size() - 2
  {
    UsableBounded(net);
    if 1 <= net.prefix <= 24 {
      UsableUpTo24(net);
    }
    SearchFinds(net, s.inUse);
    HeldCount(net, s.nodes, s.inUse);
    var all := Texts(Usable(net));
    assert (Allocate(net, s, node, NO_FAULTS).1 == NoAvailableIPs) == Search(net, s.inUse, Start(net)).None?;
    assert s.inUse <= all;
    SubsetOfSameSize(s.inUse, all);
    hide *;
    FullExactly(net, s.inUse, Search(net, s.inUse, Start(net)));
  }

  lemma {:induction false} FullExactly(net: Network, inUse: set<string>, found: Option<seq<byte>>)
    requires net.Valid() && IsFirstFit(net, inUse, found)
    requires forall v :: v in Usable(net) ==> v < LIMIT
    requires inUse <= Texts(Usable(net))
    ensures found.None? <==> inUse == Texts(Usable(net))
  {
    hide Usable, Dotted, Ip, Texts, Value;
    if found.Some? {
      IpOfValue(found.value);
      assert TextOf(Value(found.value)) in Texts(Usable(net));
    }
  }

  /** Asking again gives the same address and changes nothing. */
  lemma {:induction false} AllocateTwice(net: Network, s: Store, node: string)
    requires net.Valid() && Allocate(net, s, node, NO_FAULTS).1.Ok?
    ensures var (s', r) := Allocate(net, s, node, NO_FAULTS);
            Allocate(net, s', node, NO_FAULTS) == (s', r)
  {
    hide Search, Dotted, Start;
  }

  /** Releasing what was just allocated restores the store. */
  lemma {:induction false} ReleaseUndoesAllocate(net: Network, s: Store, node: string)
    requires net.Valid() && node !in s.nodes && Allocate(net, s, node, NO_FAULTS).1.Ok?
    ensures var (s', r) := Allocate(net, s, node, NO_FAULTS);
            Release(s', node, r.ip, Done, Done) == s
  {
    hide Dotted, Start;
    var ip := Allocate(net, s, node, NO_FAULTS).1.ip;
    assert s.inUse + {ip} - {ip} == s.inUse;
    assert s.nodes[node := ip] - {node} == s.nodes;
  }

  // ---------- What an unmatched release leads to ----------

  /** Fault-free allocations for the nodes, one after the other. */
  function AllocateAll(net: Network, s: Store, names: seq<string>): Store
    requires |net.base| == 4 && net.prefix <= 32
    decreases names
  {
    if names == [] then s else AllocateAll(net, Allocate(net, s, names[0], NO_FAULTS).0, names[1..])
  }

  lemma {:induction false} OthersUntouched(net: Network, s: Store, names: seq<string>, n: string)
    requires |net.base| == 4 && net.prefix <= 32 && n in s.nodes
    ensures var s' := AllocateAll(net, s, names); n in s'.nodes && s'.nodes[n] == s.nodes[n]
    decreases names
  {
    hide Search, Dotted, Start;
    if names != [] {
      OthersUntouched(net, Allocate(net, s, names[0], NO_FAULTS).0, names[1..], n);
    }
  }

  ghost predicate NewNames(s: Store, names: seq<string>) {
    && (forall i :: 0 <= i < |names| ==> names[i] !in s.nodes)
    && (forall i, j :: 0 <= i < j < |names| ==> names[i] != names[j])
  }

  ghost predicate Shared(s: Store, names: seq<string>, holder: string) {
    holder in s.nodes && exists n :: n in names && n != holder && n in s.nodes && s.nodes[n] == s.nodes[holder]
  }

  lemma {:induction false} SharedByMore(s: Store, names: seq<string>, holder: string)
    requires names != [] && Shared(s, names[1..], holder)
    ensures Shared(s, names, holder)
  {
    assert forall n :: n in names[1..] ==> n in names;
  }

  /** While a usable address is unmarked, the next allocation takes one at or below it. */
  lemma {:induction false} AllocateBelow(net: Network, s: Store, n: string, v: nat) returns (u: nat)
    requires net.Valid() && n !in s.nodes && v < LIMIT && v in Usable(net) && TextOf(v) !in s.inUse
    ensures u <= v < LIMIT && u in Usable(net) && TextOf(u) !in s.inUse
    ensures Allocate(net, s, n, NO_FAULTS).0 == Store(s.inUse + {TextOf(u)}, s.nodes[n := TextOf(u)])
    ensures TakenBelow(net, s.inUse + {TextOf(u)}, u + 1)
    ensures u != v ==> TextOf(v) !in s.inUse + {TextOf(u)}
  {
    SearchFinds(net, s.inUse);
    u := Value(Search(net, s.inUse, Start(net)).value);
    if TextOf(u) == TextOf(v) {
      TextInjective(u, v);
    }
    TakenWith(net, s.inUse, u);
    hide Dotted, Usable, Ip, Start, Search, TextOf, TakenBelow, Value;
  }

  lemma {:induction false} TakenWith(net: Network, inUse: set<string>, u: nat)
    requires net.Valid() && u < LIMIT && TakenBelow(net, inUse, u)
    ensures TakenBelow(net, inUse + {TextOf(u)}, u + 1)
  {
    hide TextOf, Usable;
  }

  /** `holder` holds the usable address `v`, which is not marked, and all below `low` are. */
  ghost predicate Unmarked(net: Network, s: Store, holder: string, v: nat, low: nat) {
    && net.Valid() && low <= v < LIMIT && v in Usable(net)
    && holder in s.nodes && s.nodes[holder] == TextOf(v) && TextOf(v) !in s.inUse
    && TakenBelow(net, s.inUse, low)
  }

  /** The next allocation takes it, or one below it. */
  lemma {:induction false} UnmarkedNext(
      net: Network, s: Store, holder: string, v: nat, low: nat, n: string) returns (u: nat)
    requires Unmarked(net, s, holder, v, low) && n !in s.nodes
    ensures var s' := Allocate(net, s, n, NO_FAULTS).0;
            && low <= u <= v && s'.nodes.Keys == s.nodes.Keys + {n}
            && (u == v ==> holder in s'.nodes && n != holder && s'.nodes[n] == s'.nodes[holder])
            && (u != v ==> Unmarked(net, s', holder, v, u + 1))
  {
    hide Allocate, TextOf, Usable, TakenBelow;
    u := AllocateBelow(net, s, n, v);
    NotBelow(net, s.inUse, low, u);
  }

  /** An address that is held but not marked goes to a second node within `v - low + 1` allocations. */
  lemma {:induction false} UnmarkedIsHandedOut(
      net: Network, s: Store, holder: string, v: nat, low: nat, names: seq<string>)
    requires net.Valid() && Unmarked(net, s, holder, v, low) && NewNames(s, names) && |names| > v - low
    ensures Shared(AllocateAll(net, s, names), names, holder)
    decreases names
  {
    assert low <= v && |net.base| == 4 && net.prefix <= 32;
    hide *;
    var n, rest := names[0], names[1..];
    var s' := Allocate(net, s, n, NO_FAULTS).0;
    AllocateFirst(net, s, names);
    FirstIsNew(s, names);
    var u := UnmarkedNext(net, s, holder, v, low, n);
    if u == v {
      assert names == [n] + rest;
      SharedAtOnce(net, s', n, rest, holder);
    } else {
      StillNew(s, s', names);
      UnmarkedIsHandedOut(net, s', holder, v, u + 1, rest);
      SharedByMore(AllocateAll(net, s', rest), names, holder);
    }
  }

  lemma AllocateFirst(net: Network, s: Store, names: seq<string>)
    requires |net.base| == 4 && net.prefix <= 32 && names != []
    ensures AllocateAll(net, s, names) == AllocateAll(net, Allocate(net, s, names[0], NO_FAULTS).0, names[1..])
  {
    hide Allocate;
  }

  lemma FirstIsNew(s: Store, names: seq<string>)
    requires NewNames(s, names) && names != []
    ensures names[0] !in s.nodes
  {
  }

  lemma NotBelow(net: Network, inUse: set<string>, low: nat, u: nat)
    requires net.Valid() && TakenBelow(net, inUse, low)
    requires u < LIMIT && u in Usable(net) && TextOf(u) !in inUse
    ensures low <= u
  {
    hide TextOf, Usable;
  }

  lemma StillNew(s: Store, s': Store, names: seq<string>)
    requires names != [] && NewNames(s, names) && s'.nodes.Keys == s.nodes.Keys + {names[0]}
    ensures NewNames(s', names[1..])
  {
  }

  /** `n` has just got the address of `holder`. */
  lemma {:induction false} SharedAtOnce(net: Network, s: Store, n: string, rest: seq<string>, holder: string)
    requires |net.base| == 4 && net.prefix <= 32 && n != holder
    requires n in s.nodes && holder in s.nodes && s.nodes[n] == s.nodes[holder]
    ensures Shared(AllocateAll(net, s, rest), [n] + rest, holder)
  {
    OthersUntouched(net, s, rest, n);
    OthersUntouched(net, s, rest, holder);
    assert n in [n] + rest;
    hide AllocateAll;
  }

  lemma {:induction false} UsableSpan(net: Network, v: nat)
    requires |net.base| == 4 && net.prefix <= 32 && v in Usable(net)
    ensures 0 <= v - Start(net) < |Usable(net)|
    ensures forall w :: w in Usable(net) ==> w >= Start(net)
  {
  }

  /** Each unmatched release that takes effect, a mismatched one as well as one whose Del is lost, is
      followed by two nodes with one address once enough new nodes ask. */
  lemma {:induction false} UnmatchedReleaseShares(net: Network, s: Store, op: Op, names: seq<string>)
    requires net.Valid() && Exact(net, s) && op.Free? && !Matched(s, op)
    requires NewNames(s, names) && |names| >= |Usable(net)|
    ensures exists holder :: holder in s.nodes && Shared(AllocateAll(net, Step(net, s, op), names), names, holder)
  {
    var s' := Step(net, s, op);
    var holder :| holder in s.nodes && s.nodes[holder] == op.ip
                  && !(holder == op.node && op.rem == Done && op.del != NoEffect);
    assert holder in s'.nodes && s'.nodes[holder] == op.ip && op.ip !in s'.inUse && NewNames(s', names);
    assert UsableText(net, op.ip);
    hide *;
    HolderShares(net, s', holder, op.ip, names);
  }

  lemma {:induction false} HolderShares(net: Network, s: Store, holder: string, ip: string, names: seq<string>)
    requires net.Valid() && UsableText(net, ip)
    requires holder in s.nodes && s.nodes[holder] == ip && ip !in s.inUse
    requires NewNames(s, names) && |names| >= |Usable(net)|
    ensures Shared(AllocateAll(net, s, names), names, holder)
  {
    var v: nat :| v in Usable(net) && v < LIMIT && TextOf(v) == ip;
    UsableSpan(net, v);
    assert TakenBelow(net, s.inUse, Start(net));
    hide *;
    UnmarkedIsHandedOut(net, s, holder, v, Start(net), names);
  }
}
