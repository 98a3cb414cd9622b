/** IPv4 addresses, their dotted text and CIDR blocks (prefix notation: section 3.1 of RFC 4632),
    as services/config/internal/allocator/allocator.go uses them through Go's net package. */
module Address {
  import opened Bytes
  import opened Text

  // ---------- Bit masks ----------

  /** The bitwise and of two numbers. */
  function And(x: nat, y: nat): nat {
    if x == 0 || y == 0 then 0
    else (if x % 2 == 1 && y % 2 == 1 then 1 else 0) + 2 * And(x / 2, y / 2)
  }

  /** The byte whose highest `k` bits are set. */
  function MaskByte(k: nat): (m: byte)
    requires k <= 8
    ensures m == 256 - Pow2(8 - k)
  {
    Pow2Bounded(8 - k, 8);
    256 - Pow2(8 - k)
  }

  /** Byte `i` of net.CIDRMask(prefix, 32). */
  function Mask(prefix: nat, i: nat): byte
    requires i < 4
  {
    MaskByte(if prefix >= 8 * i + 8 then 8 else if prefix <= 8 * i then 0 else prefix - 8 * i)
  }

  lemma {:induction false} Pow2Bounded(k: nat, n: nat)
    requires k <= n
    ensures Pow2(k) <= Pow2(n) && Pow2(8) == 256
  {
    assert Pow2(8) == 2 * Pow2(7) == 4 * Pow2(6) == 8 * Pow2(5) == 16 * Pow2(4) == 32 * Pow2(3);
    if k < n {
      Pow2Bounded(k, n - 1);
    }
  }

  /** x % 2p by way of the halves. */
  lemma {:induction false} ModDouble(x: nat, p: nat)
    requires p > 0
    ensures x % (2 * p) == x % 2 + 2 * (x / 2 % p)
  {
    var q, r := x / 2 / p, x / 2 % p;
    assert x / 2 == p * q + r;
    assert x == 2 * (x / 2) + x % 2 == (2 * p) * q + (2 * r + x % 2);
    ModUnique(x, 2 * p, q, 2 * r + x % 2);
  }

  lemma {:induction false} ModUnique(x: nat, d: nat, q: nat, r: nat)
    requires 0 <= r < d && x == d * q + r
    ensures x % d == r
  {
    var k := x / d - q;
    assert d * k == d * (x / d) - d * q == r - x % d;
    AtLeastOnce(d, k);
  }

  lemma {:induction false} Product(d: nat, k: nat)
    ensures d * k >= 0
  {
  }

  lemma {:induction false} AtLeastOnce(d: nat, k: int)
    requires d > 0
    ensures (k > 0 ==> d * k >= d) && (k < 0 ==> d * k <= 0 - d)
  {
    if k > 0 {
      Product(d, k - 1);
      assert d * k == d * (k - 1) + d;
    } else if k < 0 {
      Product(d, -1 - k);
      assert d * k == -(d * (-1 - k)) - d;
    }
  }

  /** The lowest `s` bits of a number. */
  function LowBits(x: nat, s: nat): nat {
    if s == 0 then 0 else x % 2 + 2 * LowBits(x / 2, s - 1)
  }

  lemma {:induction false} LowBitsAreMod(x: nat, s: nat)
    ensures LowBits(x, s) == x % Pow2(s)
  {
    if s > 0 {
      LowBitsAreMod(x / 2, s - 1);
      ModDouble(x, Pow2(s - 1));
    }
  }

  lemma {:induction false} AndOnes(x: nat, w: nat)
    requires x < Pow2(w)
    ensures And(x, Pow2(w) - 1) == x
  {
    if x > 0 {
      AndOnes(x / 2, w - 1);
      assert (Pow2(w) - 1) / 2 == Pow2(w - 1) - 1 && (Pow2(w) - 1) % 2 == 1;
    }
  }

  /** Masking with the bits s .. w - 1 clears the lowest s bits. */
  lemma {:induction false} AndClears(x: nat, w: nat, s: nat)
    requires s <= w && x < Pow2(w)
    ensures Pow2(s) <= Pow2(w)
    ensures And(x, Pow2(w) - Pow2(s)) == x - LowBits(x, s)
  {
    Pow2Bounded(s, w);
    if x == 0 {
      LowBitsOfZero(s);
    } else if s == 0 {
      AndOnes(x, w);
    } else {
      Pow2Bounded(s - 1, w - 1);
      var m := Pow2(w - 1) - Pow2(s - 1);
      AndClears(x / 2, w - 1, s - 1);
      assert Pow2(w) - Pow2(s) == 2 * m;
      if m == 0 {
        assert And(x / 2, m) == 0;
      }
      assert And(x, 2 * m) == 2 * And(x / 2, m);
    }
  }

  lemma {:induction false} LowBitsOfZero(s: nat)
    ensures LowBits(0, s) == 0
  {
    if s > 0 {
      LowBitsOfZero(s - 1);
    }
  }

  // ---------- Addresses as numbers ----------

  const LIMIT := 0x1_0000_0000

  function Quad(a: byte, b: byte, c: byte, d: byte): (ip: seq<byte>)
    ensures |ip| == 4
  {
    [a, b, c, d]
  }

  lemma {:induction false} QuadValue(ip: seq<byte>)
    requires |ip| == 4
    ensures Value(ip) == 0x100_0000 * (ip[0] as int) + 0x1_0000 * (ip[1] as int) + 0x100 * (ip[2] as int) + ip[3]
    ensures Value(ip) < LIMIT
  {
    var ip3, ip2, ip1 := ip[..3], ip[..2], ip[..1];
    assert ip3[..2] == ip2 && ip2[..1] == ip1 && ip1[..0] == [];
    assert Value(ip1) == Value([]) * 256 + ip[0];
    assert Value(ip2) == Value(ip1) * 256 + ip[1];
    assert Value(ip3) == Value(ip2) * 256 + ip[2];
  }

  /** The four bytes of a number. */
  function Ip(v: nat): (ip: seq<byte>)
    requires v < LIMIT
    ensures |ip| == 4 && Value(ip) == v
  {
    var ip := Quad(v / 0x100_0000, v / 0x1_0000 % 256, v / 0x100 % 256, v % 256);
    QuadValue(ip);
    assert v / 0x100 / 0x100 == v / 0x1_0000 && v / 0x1_0000 / 0x100 == v / 0x100_0000;
    ip
  }

  lemma {:induction false} IpOfValue(ip: seq<byte>)
    requires |ip| == 4
    ensures Value(ip) < LIMIT && Ip(Value(ip)) == ip
  {
    QuadValue(ip);
    ValueInjective(Ip(Value(ip)), ip);
  }

  // ---------- Dotted text ----------

  /** net.IP.String of a four-byte address. */
  function Dotted(ip: seq<byte>): string
    requires |ip| == 4
  {
    Digits(ip[0]) + "." + (Digits(ip[1]) + "." + (Digits(ip[2]) + "." + Digits(ip[3])))
  }

  lemma {:induction false} DottedParts(ip: seq<byte>)
    requires |ip| == 4
    ensures Split(Dotted(ip), '.') == [Digits(ip[0]), Digits(ip[1]), Digits(ip[2]), Digits(ip[3])]
  {
    for i := 0 to 4
      invariant forall j :: 0 <= j < i ==> Split(Digits(ip[j]), '.') == [Digits(ip[j])]
    {
      SprintHasNo(ip[i], '.');
      SplitWhole(Digits(ip[i]), '.');
    }
    var third := Digits(ip[2]) + "." + Digits(ip[3]);
    var second := Digits(ip[1]) + "." + third;
    SplitAt(Digits(ip[0]), '.', second);
    SplitAt(Digits(ip[1]), '.', third);
    SplitAt(Digits(ip[2]), '.', Digits(ip[3]));
    hide Split, Digits;
  }

  /** Dotted text is injective, so looking up a text is looking up an address. */
  lemma {:induction false} DottedInjective(a: seq<byte>, b: seq<byte>)
    requires |a| == |b| == 4 && Dotted(a) == Dotted(b)
    ensures a == b
  {
    DottedParts(a);
    DottedParts(b);
    for i := 0 to 4
      invariant forall j :: 0 <= j < i ==> a[j] == b[j]
    {
      assert Split(Dotted(a), '.')[i] == Split(Dotted(b), '.')[i];
      DigitsRead(a[i]);
      DigitsRead(b[i]);
    }
  }

  // ---------- Networks ----------

  /** A parsed CIDR block: the host bits of `base` are zero. */
  datatype Network = Network(base: seq<byte>, prefix: nat) {
    ghost predicate Valid() {
      |base| == 4 && prefix <= 32 && forall i :: 0 <= i < 4 ==> And(base[i], Mask(prefix, i)) == base[i]
    }

    /** net.IPNet.Contains: the masked bytes agree. */
    predicate Contains(ip: seq<byte>)
      requires |base| == 4 && |ip| == 4
    {
      ByteAgrees(ip, 0) && ByteAgrees(ip, 1) && ByteAgrees(ip, 2) && ByteAgrees(ip, 3)
    }

    predicate ByteAgrees(ip: seq<byte>, i: nat)
      requires |base| == 4 && |ip| == 4 && i < 4
    {
      And(base[i], Mask(prefix, i)) == And(ip[i], Mask(prefix, i))
    }

    /** The number of addresses in the block. */
    function Size(): (n: nat)
      requires prefix <= 32
      ensures n > 0
    {
      Pow2(32 - prefix)
    }
  }

  lemma {:induction false} MaskClears(b: byte, k: nat)
    requires k <= 8
    ensures And(b, MaskByte(k)) == b - b % Pow2(8 - k)
  {
    Pow2Bounded(8 - k, 8);
    AndClears(b, 8, 8 - k);
    LowBitsAreMod(b, 8 - k);
  }

  lemma {:induction false} AndAtMost(x: nat, y: nat)
    ensures And(x, y) <= y
  {
    if x != 0 && y != 0 {
      AndAtMost(x / 2, y / 2);
    }
  }

  /** The run of values that byte `i` of a member may take is this long. */
  function Span(prefix: nat, i: nat): (n: nat)
    requires i < 4
    ensures n == 256 - Mask(prefix, i)
  {
    256 - Mask(prefix, i)
  }

  /** Masked bytes agree exactly within one run. */
  lemma {:induction false} ByteRun(net: Network, ip: seq<byte>, i: nat)
    requires net.Valid() && |ip| == 4 && i < 4
    ensures net.ByteAgrees(ip, i) <==> net.base[i] <= ip[i] < net.base[i] + Span(net.prefix, i)
    ensures net.base[i] + Span(net.prefix, i) <= 256
  {
    hide And, Pow2;
    var k := if net.prefix >= 8 * i + 8 then 8 else if net.prefix <= 8 * i then 0 else net.prefix - 8 * i;
    assert Mask(net.prefix, i) == MaskByte(k);
    MaskedRun(net.base[i], ip[i], k);
  }

  lemma {:induction false} MaskedRun(a: byte, b: byte, k: nat)
    requires k <= 8 && And(a, MaskByte(k)) == a
    ensures And(b, MaskByte(k)) == a <==> a <= b < a + (256 - MaskByte(k))
    ensures a + (256 - MaskByte(k)) <= 256
  {
    MaskClears(a, k);
    MaskClears(b, k);
    AndAtMost(a, MaskByte(k));
    hide And, Pow2, MaskByte;
    RunExactly(a, b, Pow2(8 - k));
  }

  lemma {:induction false} RunExactly(a: nat, b: nat, p: nat)
    requires p > 0 && a == a - a % p
    ensures a == b - b % p <==> a <= b < a + p
  {
    assert a == p * (a / p);
    if a <= b < a + p {
      ModUnique(b, p, a / p, b - a);
    }
  }

  /** The spans multiply to the size of the block, and at most one of them is neither 1 nor 256. */
  lemma {:induction false} SpansMakeSize(prefix: nat, a: nat, b: nat, c: nat, d: nat, size: nat)
    requires prefix <= 32 && size == Pow2(32 - prefix)
    requires a == Span(prefix, 0) && b == Span(prefix, 1) && c == Span(prefix, 2) && d == Span(prefix, 3)
    ensures (b == c == d == 256 && size == 0x100_0000 * a)
         || (a == 1 && c == d == 256 && size == 0x1_0000 * b)
         || (a == b == 1 && d == 256 && size == 0x100 * c)
         || (a == b == c == 1 && size == d)
  {
    var n := 32 - prefix;
    assert Pow2(0) == 1;
    Pow2Bounded(0, 8);
    if n >= 24 {
      Pow2Shift(n - 8);
      Pow2Shift(n - 16);
      Pow2Shift(n - 24);
    } else if n >= 16 {
      Pow2Shift(n - 8);
      Pow2Shift(n - 16);
    } else if n >= 8 {
      Pow2Shift(n - 8);
    }
  }

  lemma {:induction false} Pow2Shift(k: nat)
    ensures Pow2(8 + k) == 256 * Pow2(k)
  {
    assert Pow2(8 + k) == 2 * Pow2(7 + k) == 4 * Pow2(6 + k) == 8 * Pow2(5 + k) == 16 * Pow2(4 + k);
    assert Pow2(4 + k) == 2 * Pow2(3 + k) == 4 * Pow2(2 + k) == 8 * Pow2(1 + k);
  }

  ghost predicate InRuns(x: seq<byte>, y: seq<byte>, a: nat, b: nat, c: nat, d: nat)
    requires |x| == |y| == 4
  {
    x[0] <= y[0] < x[0] + a && x[1] <= y[1] < x[1] + b && x[2] <= y[2] < x[2] + c && x[3] <= y[3] < x[3] + d
  }

  lemma {:induction false} ContainsIsRuns(net: Network, ip: seq<byte>)
    requires net.Valid() && |ip| == 4
    ensures var p := net.prefix;
            net.Contains(ip) <==> InRuns(net.base, ip, Span(p, 0), Span(p, 1), Span(p, 2), Span(p, 3))
  {
    hide And, Mask, Span, Network.ByteAgrees;
    ByteRun(net, ip, 0);
    ByteRun(net, ip, 1);
    ByteRun(net, ip, 2);
    ByteRun(net, ip, 3);
  }

  /** Masking byte by byte is membership in one interval of numbers. */
  lemma {:induction false} ContainsIsInterval(net: Network, ip: seq<byte>)
    requires net.Valid() && |ip| == 4
    ensures net.Contains(ip) <==> Value(net.base) <= Value(ip) < Value(net.base) + net.Size()
    ensures Value(net.base) + net.Size() <= LIMIT
  {
    var p := net.prefix;
    ContainsIsRuns(net, ip);
    ByteRun(net, ip, 0);
    ByteRun(net, ip, 1);
    ByteRun(net, ip, 2);
    ByteRun(net, ip, 3);
    SpansMakeSize(p, Span(p, 0), Span(p, 1), Span(p, 2), Span(p, 3), net.Size());
    QuadValue(net.base);
    QuadValue(ip);
    hide *;
    IntervalOfBytes(net.base, ip, Span(p, 0), Span(p, 1), Span(p, 2), Span(p, 3), net.Size(),
                    Value(net.base), Value(ip));
  }

  lemma {:induction false} IntervalOfBytes(
      x: seq<byte>, y: seq<byte>, a: nat, b: nat, c: nat, d: nat, size: nat, v: nat, w: nat)
    requires |x| == |y| == 4
    requires x[0] + a <= 256 && x[1] + b <= 256 && x[2] + c <= 256 && x[3] + d <= 256
    requires (b == c == d == 256 && size == 0x100_0000 * a)
          || (a == 1 && c == d == 256 && size == 0x1_0000 * b)
          || (a == b == 1 && d == 256 && size == 0x100 * c)
          || (a == b == c == 1 && size == d)
    requires v == 0x100_0000 * (x[0] as int) + 0x1_0000 * (x[1] as int) + 0x100 * (x[2] as int) + x[3]
    requires w == 0x100_0000 * (y[0] as int) + 0x1_0000 * (y[1] as int) + 0x100 * (y[2] as int) + y[3]
    ensures v <= w < v + size <==> InRuns(x, y, a, b, c, d)
    ensures v + size <= LIMIT
  {
    var x0: int, x1: int, x2: int, x3: int := x[0], x[1], x[2], x[3];
    var y0: int, y1: int, y2: int, y3: int := y[0], y[1], y[2], y[3];
    if b == c == d == 256 {
      LeadingRun(0x100_0000, x0, y0, a, 0x1_0000 * y1 + 0x100 * y2 + y3);
    } else if a == 1 && c == d == 256 {
      LeadingRun(0x1_0000, 0x100 * x0 + x1, 0x100 * y0 + y1, b, 0x100 * y2 + y3);
    } else if a == b == 1 && d == 256 {
      LeadingRun(0x100, 0x1_0000 * x0 + 0x100 * x1 + x2, 0x1_0000 * y0 + 0x100 * y1 + y2, c, y3);
    } else {
      assert v <= w < v + size <==> InRuns(x, y, a, b, c, d);
    }
  }

  /** Digits below the unit do not decide whether `y` is within `n` units of `x`. */
  lemma {:induction false} LeadingRun(unit: nat, x: int, y: int, n: nat, rest: nat)
    requires rest < unit
    ensures unit * x <= unit * y + rest < unit * x + unit * n <==> x <= y < x + n
  {
    var p, q := unit * (y - x), unit * n;
    assert unit * y == unit * x + p;
    assert unit * (x - y) == -p && unit * (x + n - y) == q - p;
    Multiple(unit, x - y);
    Multiple(unit, x + n - y);
  }

  lemma Multiple(unit: nat, k: int)
    ensures if k >= 1 then unit * k >= unit else unit * k <= 0
  {
  }
}
