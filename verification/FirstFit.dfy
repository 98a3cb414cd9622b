/** The address search of services/config/internal/allocator/allocator.go: the in-place increment
    and the first-fit loop over the byte buffer, against plain arithmetic. */
module FirstFit {
  import opened Bytes
  import opened Text
  import opened Address

  // ---------- incrementIP ----------

  /** The bytes after one increment, the carry running from the last byte up. */
  function Increment(ip: seq<byte>): (r: seq<byte>)
    ensures |r| == |ip|
  {
    if ip == [] then []
    else
      var front, last := ip[..|ip| - 1], ip[|ip| - 1];
      if last == 255 then Increment(front) + [0] else front + [last + 1]
  }

  /** Where the carry stops: behind byte `k` there are only 255s. */
  lemma {:induction false} IncrementAt(ip: seq<byte>, k: int)
    requires -1 <= k < |ip|
    requires k >= 0 ==> ip[k] < 255
    requires forall j :: k < j < |ip| ==> ip[j] == 255
    ensures forall j :: 0 <= j < |ip| ==> Increment(ip)[j] == if j < k then ip[j] else if j == k then ip[k] + 1 else 0
  {
    if k < |ip| - 1 {
      IncrementAt(ip[..|ip| - 1], k);
    }
  }

  method IncrementIP(ip: array<byte>)
    modifies ip
    ensures ip[..] == Increment(old(ip[..]))
  {
    ghost var was := ip[..];
    var i := ip.Length - 1;
    while i >= 0
      invariant -1 <= i < ip.Length
      invariant forall j :: 0 <= j <= i ==> ip[j] == was[j]
      invariant forall j :: i < j < ip.Length ==> ip[j] == 0 && was[j] == 255
    {
      var last: int := ip[i];
      ip[i] := (last + 1) % 256;
      if ip[i] != 0 {
        break;
      }
      i := i - 1;
    }
    IncrementAt(was, i);
  }

  function IncrementBy(ip: seq<byte>, n: nat): (r: seq<byte>)
    ensures |r| == |ip|
  {
    if n == 0 then ip else Increment(IncrementBy(ip, n - 1))
  }

  lemma {:induction false} IncrementAddsOne(ip: seq<byte>)
    ensures Value(Increment(ip)) == if Value(ip) + 1 == Pow256(|ip|) then 0 else Value(ip) + 1
  {
    if ip != [] {
      var front, last := ip[..|ip| - 1], ip[|ip| - 1];
      IncrementAddsOne(front);
      ValueBounded(front);
      if last == 255 {
        assert (Increment(front) + [0])[..|front|] == Increment(front);
      } else {
        assert (front + [last + 1])[..|front|] == front;
      }
    }
  }

  /** `n` increments add `n` modulo 256 to the power of the length. */
  lemma {:induction false} IncrementByAdds(ip: seq<byte>, n: nat)
    ensures Value(IncrementBy(ip, n)) == (Value(ip) + n) % Pow256(|ip|)
  {
    ValueBounded(ip);
    var m := Pow256(|ip|);
    if n > 0 {
      IncrementByAdds(ip, n - 1);
      IncrementAddsOne(IncrementBy(ip, n - 1));
      ModNext(Value(ip) + n - 1, m);
    } else {
      ModUnique(Value(ip), m, 0, Value(ip));
    }
    hide Value, Pow256, Increment;
  }

  lemma {:induction false} ModNext(x: nat, m: nat)
    requires m > 0
    ensures (x + 1) % m == if x % m + 1 == m then 0 else x % m + 1
  {
    var q, r := x / m, x % m;
    assert x == m * q + r;
    if r + 1 == m {
      assert x + 1 == m * (q + 1) + 0;
      ModUnique(x + 1, m, q + 1, 0);
    } else {
      ModUnique(x + 1, m, q, r + 1);
    }
  }

  // ---------- findAvailableIP ----------

  /** The text under which the address with this number is stored. */
  function TextOf(v: nat): string
    requires v < LIMIT
  {
    Dotted(Ip(v))
  }

  lemma {:induction false} TextInjective(v: nat, w: nat)
    requires v < LIMIT && w < LIMIT && TextOf(v) == TextOf(w)
    ensures v == w
  {
    DottedInjective(Ip(v), Ip(w));
  }

  /** Where the search begins: the last byte of the base set to 2. */
  function Start(net: Network): nat
    requires |net.base| == 4
  {
    Value(net.base) - net.base[3] + 2
  }

  function End(net: Network): nat
    requires |net.base| == 4 && net.prefix <= 32
  {
    Value(net.base) + net.Size()
  }

  function Range(lo: nat, hi: nat): (s: set<nat>)
    ensures forall v :: v in s <==> lo <= v < hi
    ensures |s| == if lo <= hi then hi - lo else 0
    decreases hi
  {
    if lo >= hi then {} else Range(lo, hi - 1) + {hi - 1}
  }

  /** The numbers of the addresses that the search can reach. */
  function Usable(net: Network): (s: set<nat>)
    requires |net.base| == 4 && net.prefix <= 32
    ensures forall v :: v in s <==> Value(net.base) <= Start(net) <= v < End(net)
  {
    if Start(net) < Value(net.base) then {} else Range(Start(net), End(net))
  }

  /** Every usable address below `v` is in use. */
  ghost predicate TakenBelow(net: Network, used: set<string>, v: nat)
    requires net.Valid()
  {
    forall w: nat :: w in Usable(net) && w < v && w < LIMIT ==> TextOf(w) in used
  }

  /** What first fit is: the least usable address whose text is not in use. */
  ghost predicate IsFirstFit(net: Network, used: set<string>, r: Option<seq<byte>>)
    requires net.Valid()
  {
    match r
    case Some(ip) =>
      && |ip| == 4 && Value(ip) in Usable(net) && Dotted(ip) !in used
      && TakenBelow(net, used, Value(ip))
    case None => TakenBelow(net, used, LIMIT)
  }

  /** With prefix 0 every address is a member, and past the last one the search goes on at 0.0.0.0. */
  ghost predicate Wraps(net: Network, used: set<string>)
    requires net.Valid()
  {
    net.prefix == 0 && TakenBelow(net, used, LIMIT)
  }

  ghost predicate SomeUnused(used: set<string>) {
    exists v: nat :: v < LIMIT && TextOf(v) !in used
  }

  /** The loop over the byte buffer. With prefix 0 and every address in use it would not end. */
  method FindAvailableIP(net: Network, used: set<string>) returns (r: Option<seq<byte>>)
    requires net.Valid() && (net.prefix == 0 ==> SomeUnused(used))
    ensures !Wraps(net, used) ==> IsFirstFit(net, used, r)
    ensures Wraps(net, used) ==> r == Some(Ip(if TextOf(0) !in used then 0 else 1))
  {
    var ip: array<byte> := new byte[4](i requires 0 <= i < 4 => net.base[i]);
    assert ip[..] == net.base;
    ip[3] := 2;
    ghost var v := Start(net);
    SearchStarts(net, used, ip[..]);
    var inside := net.Contains(ip[..]);
    hide *;
    while inside
      invariant ip.Length == 4 && inside == net.Contains(ip[..])
      invariant Searching(net, used, v, ip[..])
      decreases LIMIT + 2 - v
    {
      if Dotted(ip[..]) !in used {
        Found(net, used, v, ip[..]);
        return Some(ip[..]);
      }
      ghost var was := ip[..];
      IncrementIP(ip);
      SearchGoesOn(net, used, v, was, ip[..]);
      v := v + 1;
      inside := net.Contains(ip[..]);
    }
    NoneFound(net, used, v, ip[..]);
    return None;
  }

  /** The loop has come to `v`, below which every usable address is in use. */
  ghost predicate Ascending(net: Network, used: set<string>, v: nat, ip: seq<byte>)
    requires net.Valid() && |ip| == 4
  {
    && v >= Start(net) && TakenBelow(net, used, v)
    && (net.Contains(ip) <==> v in Usable(net)) && (net.Contains(ip) ==> Value(ip) == v < LIMIT)
  }

  /** The loop has gone past the last address. */
  ghost predicate Over(net: Network, used: set<string>, v: nat, ip: seq<byte>)
    requires net.Valid() && |ip| == 4
  {
    && Wraps(net, used) && LIMIT <= v <= LIMIT + 1 && Value(ip) == v - LIMIT
    && (v > LIMIT ==> TextOf(0) in used)
  }

  /** Where the loop is after `v - Start(net)` rounds. */
  ghost predicate Searching(net: Network, used: set<string>, v: nat, ip: seq<byte>)
    requires net.Valid() && |ip| == 4
  {
    if net.prefix == 0 && v >= LIMIT then Over(net, used, v, ip) else Ascending(net, used, v, ip)
  }

  lemma {:induction false} SearchStarts(net: Network, used: set<string>, ip: seq<byte>)
    requires net.Valid() && ip == net.base[3 := 2]
    ensures Searching(net, used, Start(net), ip)
  {
    StartByte(net, ip);
    if net.prefix == 0 {
      WholeSpace(net);
    }
    assert TakenBelow(net, used, Start(net));
    hide TakenBelow, Usable, Network.Contains, Value, Over;
    assert net.Contains(ip) ==> Start(net) < LIMIT by {
      ValueBounded(ip);
      FourBytes();
    }
  }

  lemma {:induction false} WholeSpace(net: Network)
    requires net.Valid() && net.prefix == 0
    ensures Start(net) == 2 && forall v :: v in Usable(net) <==> 2 <= v < LIMIT
    ensures forall ip: seq<byte> :: |ip| == 4 ==> net.Contains(ip)
  {
    Pow2Shift(0);
    Pow2Shift(8);
    Pow2Shift(16);
    Pow2Shift(24);
    ContainsIsInterval(net, net.base);
    QuadValue(net.base);
    forall ip: seq<byte> | |ip| == 4 ensures net.Contains(ip) {
      ContainsIsInterval(net, ip);
      ValueBounded(ip);
    }
    FourBytes();
  }

  lemma {:induction false} Found(net: Network, used: set<string>, v: nat, ip: seq<byte>)
    requires net.Valid() && |ip| == 4 && net.Contains(ip) && Searching(net, used, v, ip) && Dotted(ip) !in used
    ensures !Wraps(net, used) ==> IsFirstFit(net, used, Some(ip))
    ensures Wraps(net, used) ==> ip == Ip(if TextOf(0) !in used then 0 else 1)
  {
    IpOfValue(ip);
    hide Dotted, Usable, Ip, Value, Network.Contains;
  }

  lemma {:induction false} NoneFound(net: Network, used: set<string>, v: nat, ip: seq<byte>)
    requires net.Valid() && |ip| == 4 && !net.Contains(ip) && Searching(net, used, v, ip)
    ensures !Wraps(net, used) && IsFirstFit(net, used, None)
  {
    if net.prefix == 0 {
      WholeSpace(net);
    } else {
      hide Usable, Network.Contains;
      NoneAbove(net, used, v);
    }
  }

  lemma {:induction false} SearchGoesOn(net: Network, used: set<string>, v: nat, ip: seq<byte>, next: seq<byte>)
    requires net.Valid() && |ip| == |next| == 4 && net.Contains(ip) && Searching(net, used, v, ip)
    requires Dotted(ip) in used && next == Increment(ip) && (net.prefix == 0 ==> SomeUnused(used))
    ensures Searching(net, used, v + 1, next) && v < LIMIT + 1
  {
    hide Ascending, Over, Increment, Network.Contains, SomeUnused, Dotted;
    if net.prefix > 0 || v + 1 < LIMIT {
      Ascends(net, used, v, ip, next);
    } else if v + 1 == LIMIT {
      GoesOver(net, used, ip, next);
    } else {
      GoesOn(net, used, v, ip, next);
    }
  }

  lemma {:induction false} Ascends(net: Network, used: set<string>, v: nat, ip: seq<byte>, next: seq<byte>)
    requires net.Valid() && |ip| == |next| == 4 && net.Contains(ip) && Ascending(net, used, v, ip)
    requires Dotted(ip) in used && next == Increment(ip) && (net.prefix == 0 ==> v + 1 < LIMIT)
    ensures Ascending(net, used, v + 1, next) && v < LIMIT
  {
    assert v in Usable(net) && Value(ip) == v && v >= Start(net);
    IpOfValue(ip);
    IpOfNumber(net, v, ip);
    hide Usable, Network.Contains, Ip, Dotted, Value, Increment, TakenBelow, Start, Pow256, TextOf;
    OneMoreTaken(net, used, v);
    NextMember(net, v, next);
    BelowLimit(next);
  }

  lemma BelowLimit(ip: seq<byte>)
    requires |ip| == 4
    ensures Value(ip) < LIMIT
  {
    ValueBounded(ip);
    FourBytes();
  }

  lemma IpOfNumber(net: Network, v: nat, ip: seq<byte>)
    requires |ip| == 4 && Value(ip) == v < LIMIT && Ip(Value(ip)) == ip
    ensures TextOf(v) == Dotted(ip)
  {
  }

  /** Behind 255.255.255.255 comes 0.0.0.0. */
  lemma {:induction false} GoesOver(net: Network, used: set<string>, ip: seq<byte>, next: seq<byte>)
    requires net.Valid() && |ip| == |next| == 4 && net.prefix == 0 && net.Contains(ip)
    requires Ascending(net, used, LIMIT - 1, ip) && Dotted(ip) in used && next == Increment(ip)
    ensures Over(net, used, LIMIT, next)
  {
    IpOfValue(ip);
    IpOfNumber(net, LIMIT - 1, ip);
    IncrementAddsOne(ip);
    FourBytes();
    hide Usable, Network.Contains, Ip, Dotted, Value, Increment, TakenBelow, Pow256;
    OneMoreTaken(net, used, LIMIT - 1);
  }

  lemma {:induction false} GoesOn(net: Network, used: set<string>, v: nat, ip: seq<byte>, next: seq<byte>)
    requires net.Valid() && |ip| == |next| == 4 && Over(net, used, v, ip)
    requires Dotted(ip) in used && next == Increment(ip) && SomeUnused(used)
    ensures Over(net, used, v + 1, next) && v == LIMIT
  {
    IpOfValue(ip);
    IpOfNumber(net, v - LIMIT, ip);
    IncrementAddsOne(ip);
    FourBytes();
    WholeSpace(net);
    hide Usable, Network.Contains, Ip, Dotted, Value, Increment, Pow256;
    if v > LIMIT {
      NoneUnused(net, used);
    }
  }

  lemma {:induction false} NoneUnused(net: Network, used: set<string>)
    requires net.Valid() && Wraps(net, used) && TextOf(0) in used && TextOf(1) in used
    ensures !SomeUnused(used)
  {
    WholeSpace(net);
    hide Ip, Dotted, Usable;
    forall v: nat | v < LIMIT ensures TextOf(v) in used {
      assert v == 0 || v == 1 || v in Usable(net);
    }
  }

  lemma {:induction false} OneMoreTaken(net: Network, used: set<string>, v: nat)
    requires net.Valid() && TakenBelow(net, used, v) && v < LIMIT && TextOf(v) in used
    ensures TakenBelow(net, used, v + 1)
  {
  }

  lemma {:induction false} StartByte(net: Network, ip: seq<byte>)
    requires net.Valid() && ip == net.base[3 := 2]
    ensures Value(ip) == Start(net)
    ensures net.Contains(ip) <==> Start(net) in Usable(net)
  {
    QuadValue(net.base);
    QuadValue(ip);
    ContainsIsInterval(net, ip);
  }

  lemma {:induction false} NoneAbove(net: Network, used: set<string>, v: nat)
    requires net.Valid() && v >= Start(net) && (v >= LIMIT || v !in Usable(net)) && TakenBelow(net, used, v)
    ensures TakenBelow(net, used, LIMIT)
  {
  }

  /** Incrementing a member leaves the network exactly past its last address; there the carry may
      run over the top, to address 0, which is no member either. */
  lemma {:induction false} NextMember(net: Network, v: nat, next: seq<byte>)
    requires net.Valid() && v < LIMIT && v in Usable(net) && (net.prefix == 0 ==> v + 1 < LIMIT)
    requires next == Increment(Ip(v))
    ensures net.Contains(next) <==> v + 1 in Usable(net)
    ensures net.Contains(next) ==> Value(next) == v + 1
  {
    ContainsIsInterval(net, next);
    IncrementAddsOne(Ip(v));
    FourBytes();
    if net.prefix >= 1 {
      HalfAtMost(net);
    }
    hide Pow2, Pow256, Increment, Ip, Value, Network.Contains, Network.Size;
  }

  lemma {:induction false} HalfAtMost(net: Network)
    requires 1 <= net.prefix <= 32
    ensures net.Size() < LIMIT
  {
    Pow2Bounded(32 - net.prefix, 31);
    Pow2Shift(0);
    Pow2Shift(8);
    Pow2Shift(16);
    assert Pow2(24) == 0x100_0000;
    assert Pow2(31) == 2 * Pow2(30) == 4 * Pow2(29) == 8 * Pow2(28) == 16 * Pow2(27);
    assert Pow2(27) == 2 * Pow2(26) == 4 * Pow2(25) == 8 * Pow2(24);
  }

  lemma {:induction false} FourBytes()
    ensures Pow256(4) == LIMIT
  {
    assert Pow256(2) == 256 * Pow256(1) == 65536;
  }

  /** First fit as a function: the search from number `v` on. */
  function Search(net: Network, used: set<string>, v: nat): (r: Option<seq<byte>>)
    requires |net.base| == 4 && net.prefix <= 32
    ensures r.Some? ==> |r.value| == 4 && Dotted(r.value) !in used
    decreases LIMIT - v
  {
    if v >= LIMIT || v !in Usable(net) then None
    else if TextOf(v) !in used then Some(Ip(v))
    else Search(net, used, v + 1)
  }

  lemma {:induction false} SearchIsFirstFit(net: Network, used: set<string>, v: nat)
    requires net.Valid() && v >= Start(net) && TakenBelow(net, used, v)
    ensures IsFirstFit(net, used, Search(net, used, v))
    decreases LIMIT - v
  {
    hide Usable, Ip, Dotted, Value;
    if v >= LIMIT || v !in Usable(net) {
      NoneAbove(net, used, v);
    } else if TextOf(v) in used {
      OneMoreTaken(net, used, v);
      SearchIsFirstFit(net, used, v + 1);
    }
  }

  /** What the search finds, by its number. */
  lemma {:induction false} SearchFinds(net: Network, used: set<string>)
    requires net.Valid()
    ensures IsFirstFit(net, used, Search(net, used, Start(net)))
    ensures match Search(net, used, Start(net))
            case Some(ip) =>
              && Value(ip) in Usable(net) && Value(ip) < LIMIT && TextOf(Value(ip)) == Dotted(ip)
              && TakenBelow(net, used, Value(ip))
            case None => TakenBelow(net, used, LIMIT)
  {
    var r := Search(net, used, Start(net));
    SearchIsFirstFit(net, used, Start(net));
    if r.Some? {
      IpOfValue(r.value);
    }
    hide Search, Ip, Dotted, Usable, Value, TakenBelow, Start;
  }

  /** There is only one first fit. */
  lemma {:induction false} FirstFitUnique(net: Network, used: set<string>, r: Option<seq<byte>>, r': Option<seq<byte>>)
    requires net.Valid() && IsFirstFit(net, used, r) && IsFirstFit(net, used, r')
    ensures r == r'
  {
    hide TakenBelow, Dotted, Usable, Value, Ip;
    if r.Some? {
      NotTakenBelow(net, used, r.value, if r'.Some? then Value(r'.value) else LIMIT);
    }
    if r'.Some? {
      NotTakenBelow(net, used, r'.value, if r.Some? then Value(r.value) else LIMIT);
    }
  }

  lemma {:induction false} NotTakenBelow(net: Network, used: set<string>, ip: seq<byte>, v: nat)
    requires net.Valid() && |ip| == 4 && Value(ip) in Usable(net) && Dotted(ip) !in used && TakenBelow(net, used, v)
    ensures v <= Value(ip) < LIMIT && Ip(Value(ip)) == ip
  {
    IpOfValue(ip);
    BelowLimit(ip);
    hide Dotted, Usable, Value, Ip;
  }

  /** The gateway: the base with its last byte set to 1. */
  function Gateway(net: Network): (ip: seq<byte>)
    requires |net.base| == 4
    ensures |ip| == 4
  {
    net.base[3 := 1]
  }

  /** The gateway is never handed out, whatever the prefix. */
  lemma {:induction false} NeverGateway(net: Network, used: set<string>, ip: seq<byte>)
    requires net.Valid() && IsFirstFit(net, used, Some(ip))
    ensures ip != Gateway(net) && Value(ip) > Value(Gateway(net))
  {
    QuadValue(net.base);
    QuadValue(Gateway(net));
  }

  /** Up to prefix 24 the search covers base + 2 to the end: all of the block but the base and the
      gateway. */
  lemma {:induction false} UsableUpTo24(net: Network)
    requires net.Valid() && 1 <= net.prefix <= 24
    ensures Start(net) == Value(net.base) + 2
    ensures Usable(net) == Range(Value(net.base) + 2, End(net))
    ensures |Usable(net)| == net.Size() - 2
  {
    LastByteFree(net);
    hide Pow2, Value, Range, Network.Valid, Network.Size;
  }

  /** Up to prefix 24 the block falls into its base, the gateway next to it, and the usable addresses. */
  lemma {:induction false} BlockParts(net: Network, v: nat)
    requires net.Valid() && net.prefix <= 24
    ensures var base, gateway := Value(net.base), Value(Gateway(net));
            && gateway == base + 1
            && (base <= v < End(net) <==> v == base || v == gateway || v in Usable(net))
            && base !in Usable(net) && gateway !in Usable(net)
  {
    if net.prefix == 0 {
      WholeSpace(net);
    } else {
      LastByteFree(net);
    }
    QuadValue(net.base);
    QuadValue(Gateway(net));
    assert net.base[3] == 0 && Start(net) == Value(net.base) + 2 <= End(net);
    hide Value, Pow2, Network.Size, Network.Valid;
  }

  lemma {:induction false} LastByteFree(net: Network)
    requires net.Valid() && 1 <= net.prefix <= 24
    ensures net.base[3] == 0 && net.Size() >= 256
  {
    ByteRun(net, net.base, 3);
    Pow2Bounded(8, 32 - net.prefix);
    assert Mask(net.prefix, 3) == MaskByte(0) == 0;
    hide Pow2, And, Mask, MaskByte, Network.ByteAgrees;
  }

  /** From prefix 25 on the search may start outside the block: then it fails at once, although
      the block is free. */
  lemma {:induction false} NothingUsable(net: Network)
    requires net.Valid() && net.prefix >= 25
    ensures Usable(net) == {} <==> net.base[3] > 2 || net.Size() + net.base[3] <= 2
  {
    QuadValue(net.base);
    if Start(net) >= Value(net.base) && Start(net) < End(net) {
      assert Start(net) in Usable(net);
    }
  }
}
