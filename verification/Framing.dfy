/** The length-prefixed framing of services/agent/internal/p2p/bridge.go, which carries UDP
    datagrams over a byte stream, and the two loops that pump datagrams through it. */
module Framing {
  import opened Bytes

  const MAX_DATAGRAM := 65535

  /** io.EOF, or io.ErrUnexpectedEOF when the stream ends inside a read. */
  datatype ReadError = Eof | UnexpectedEof

  datatype ReadResult = Got(data: seq<byte>) | Err(error: ReadError)

  // ---------- The format ----------

  /** The 16-bit length, high byte first and cut to 16 bits, then the data. */
  function Encode(data: seq<byte>): seq<byte> {
    [|data| / 256 % 256, |data| % 256] + data
  }

  function EncodeAll(packets: seq<seq<byte>>): seq<byte> {
    if packets == [] then [] else Encode(packets[0]) + EncodeAll(packets[1..])
  }

  /** What io.ReadFull gives for `n` bytes when `bytes` is all that will ever arrive. */
  function FullRead(bytes: seq<byte>, n: nat): ReadResult {
    if n <= |bytes| then Got(bytes[..n]) else if bytes == [] then Err(Eof) else Err(UnexpectedEof)
  }

  /** binary.BigEndian.Uint16 */
  function Uint16(header: seq<byte>): nat
    requires |header| == 2
  {
    var high: nat := header[0];
    high * 256 + header[1]
  }

  /** What `readPacket` gives. */
  function Decode(bytes: seq<byte>): ReadResult {
    match FullRead(bytes, 2)
    case Err(e) => Err(e)
    case Got(header) => FullRead(bytes[2..], Uint16(header))
  }

  datatype Received = Received(packets: seq<seq<byte>>, error: ReadError)

  /** `readPacket` until it fails. */
  function DecodeAll(bytes: seq<byte>): Received
    decreases |bytes|
  {
    match Decode(bytes)
    case Err(e) => Received([], e)
    case Got(data) =>
      var rest := DecodeAll(bytes[2 + |data|..]);
      Received([data] + rest.packets, rest.error)
  }

  /** Datagrams that fit the 16-bit length. */
  ghost predicate Fit(packets: seq<seq<byte>>) {
    forall i :: 0 <= i < |packets| ==> |packets[i]| <= MAX_DATAGRAM
  }

  /** On the wire the length comes first, as two bytes of which the first is the higher, and then the
      datagram itself. */
  lemma {:induction false} EncodeShape(data: seq<byte>)
    requires |data| <= MAX_DATAGRAM
    ensures |Encode(data)| == 2 + |data| && Value(Encode(data)[..2]) == |data| && Encode(data)[2..] == data
  {
    var header := Encode(data)[..2];
    HeaderValue(header);
  }

  lemma {:induction false} HeaderValue(header: seq<byte>)
    requires |header| == 2
    ensures Value(header) == Uint16(header)
  {
    var first := header[..1];
    assert first[..0] == [] && Value(first) == Value([]) * 256 + header[0];
  }

  /** How many of the datagrams are complete in the first `k` bytes of their encoding. */
  function Complete(packets: seq<seq<byte>>, k: nat): (n: nat)
    ensures n <= |packets|
  {
    if packets == [] || k < 2 + |packets[0]| then 0 else 1 + Complete(packets[1..], k - 2 - |packets[0]|)
  }

  /** Whether byte `k` of the encoding is where a datagram starts, or where its data starts. */
  predicate CleanCut(packets: seq<seq<byte>>, k: nat) {
    if packets == [] || k < 2 + |packets[0]| then k == 0 || k == 2
    else CleanCut(packets[1..], k - 2 - |packets[0]|)
  }

  // ---------- The round trip ----------

  lemma {:induction false} DecodeFirst(data: seq<byte>, more: seq<byte>)
    requires |data| <= MAX_DATAGRAM
    ensures Decode(Encode(data) + more) == Got(data)
  {
    var bytes := Encode(data) + more;
    assert bytes[..2] == [|data| / 256 % 256, |data| % 256];
    assert bytes[2..] == data + more && (data + more)[..|data|] == data;
  }

  lemma {:induction false} DecodeCut(data: seq<byte>, k: nat)
    requires |data| <= MAX_DATAGRAM && k < 2 + |data|
    ensures Decode(Encode(data)[..k]) == Err(if k == 0 || k == 2 then Eof else UnexpectedEof)
  {
    if k >= 2 {
      assert Encode(data)[..k][..2] == [|data| / 256 % 256, |data| % 256];
    }
  }

  /** Reading any prefix of the encoding gives exactly the datagrams that are complete in it and
      then an error: io.EOF at a clean cut, io.ErrUnexpectedEOF anywhere else. */
  lemma {:induction false} PrefixDecodes(packets: seq<seq<byte>>, k: nat)
    requires Fit(packets) && k <= |EncodeAll(packets)|
    ensures DecodeAll(EncodeAll(packets)[..k]) ==
              Received(packets[..Complete(packets, k)], if CleanCut(packets, k) then Eof else UnexpectedEof)
    decreases packets
  {
    if packets == [] {
      NothingDecodes();
      hide DecodeAll, Encode;
    } else if k < 2 + |packets[0]| {
      hide Encode, DecodeAll, EncodeAll, Complete, CleanCut;
      CutInside(packets, k);
    } else {
      hide Encode, DecodeAll, EncodeAll, Complete, CleanCut;
      var data, rest, k' := packets[0], packets[1..], k - 2 - |packets[0]|;
      CutBehind(packets, k);
      PrefixDecodes(rest, k');
      DecodeNext(data, EncodeAll(rest)[..k']);
    }
  }

  lemma NothingDecodes()
    ensures DecodeAll(EncodeAll([])[..0]) == Received([], Eof) && Complete([], 0) == 0 && CleanCut([], 0)
  {
  }

  /** A cut behind the first datagram is a cut of the rest. */
  lemma {:induction false} CutBehind(packets: seq<seq<byte>>, k: nat)
    requires packets != [] && 2 + |packets[0]| <= k <= |EncodeAll(packets)|
    ensures var rest, k' := packets[1..], k - 2 - |packets[0]|;
            && k' <= |EncodeAll(rest)|
            && EncodeAll(packets)[..k] == Encode(packets[0]) + EncodeAll(rest)[..k']
            && packets[..Complete(packets, k)] == [packets[0]] + rest[..Complete(rest, k')]
            && (CleanCut(packets, k) <==> CleanCut(rest, k'))
  {
    var first, rest, k' := Encode(packets[0]), EncodeAll(packets[1..]), k - 2 - |packets[0]|;
    assert (first + rest)[..k] == first + rest[..k'];
  }

  lemma {:induction false} CutInside(packets: seq<seq<byte>>, k: nat)
    requires packets != [] && |packets[0]| <= MAX_DATAGRAM && k < 2 + |packets[0]| && k <= |EncodeAll(packets)|
    ensures DecodeAll(EncodeAll(packets)[..k]) == Received([], if CleanCut(packets, k) then Eof else UnexpectedEof)
    ensures Complete(packets, k) == 0
  {
    assert EncodeAll(packets)[..k] == Encode(packets[0])[..k];
    DecodeCut(packets[0], k);
    hide Encode, Decode;
  }

  lemma {:induction false} DecodeNext(data: seq<byte>, more: seq<byte>)
    requires |data| <= MAX_DATAGRAM
    ensures DecodeAll(Encode(data) + more) == Received([data] + DecodeAll(more).packets, DecodeAll(more).error)
  {
    DecodeFirst(data, more);
    assert (Encode(data) + more)[2 + |data|..] == more;
    hide Encode, Decode;
  }

  lemma {:induction false} AllComplete(packets: seq<seq<byte>>)
    ensures Complete(packets, |EncodeAll(packets)|) == |packets|
    ensures CleanCut(packets, |EncodeAll(packets)|)
  {
    if packets != [] {
      AllComplete(packets[1..]);
    }
  }

  /** Any list of datagrams comes back whole, and then the stream ends cleanly. */
  lemma {:induction false} RoundTrip(packets: seq<seq<byte>>)
    requires Fit(packets)
    ensures DecodeAll(EncodeAll(packets)) == Received(packets, Eof)
  {
    var bytes := EncodeAll(packets);
    AllComplete(packets);
    PrefixDecodes(packets, |bytes|);
    assert bytes[..|bytes|] == bytes && packets[..|packets|] == packets;
  }

  /** Different lists never share an encoding. */
  lemma {:induction false} EncodeInjective(packets: seq<seq<byte>>, packets': seq<seq<byte>>)
    requires Fit(packets) && Fit(packets') && EncodeAll(packets) == EncodeAll(packets')
    ensures packets == packets'
  {
    RoundTrip(packets);
    RoundTrip(packets');
  }

  /** One datagram survives exactly when its length fits 16 bits. */
  lemma {:induction false} FitsExactly(data: seq<byte>)
    ensures Decode(Encode(data)) == Got(data) <==> |data| <= MAX_DATAGRAM
  {
    var bytes := Encode(data);
    if |data| <= MAX_DATAGRAM {
      DecodeFirst(data, []);
      assert bytes + [] == bytes;
    } else {
      assert bytes[..2] == [|data| / 256 % 256, |data| % 256] && bytes[2..] == data;
    }
  }

  // ---------- The reading side ----------

  /** A byte stream as its reader sees it: `rest` is all that will still arrive. */
  class Reader {
    var rest: seq<byte>

    constructor (bytes: seq<byte>)
      ensures rest == bytes
    {
      rest := bytes;
    }

    /** A read hands out any nonempty chunk that fits. */
    method Read(max: nat) returns (chunk: seq<byte>)
      requires max > 0 && rest != []
      modifies this
      ensures 1 <= |chunk| <= max && chunk + rest == old(rest)
    {
      var n: nat :| 1 <= n <= max && n <= |rest|;
      chunk, rest := rest[..n], rest[n..];
    }

    /** io.ReadFull, however the chunks fall. */
    method ReadFull(n: nat) returns (r: ReadResult)
      modifies this
      ensures r == FullRead(old(rest), n)
      ensures rest == if n <= |old(rest)| then old(rest)[n..] else []
    {
      var data := [];
      while |data| < n && rest != []
        invariant |data| <= n && data + rest == old(rest)
        decreases |rest|
      {
        ghost var left := rest;
        var chunk := Read(n - |data|);
        assert data + left == data + chunk + rest;
        data := data + chunk;
      }
      assert data == old(rest)[..|data|];
      if |data| == n {
        return Got(data);
      }
      return Err(if data == [] then Eof else UnexpectedEof);
    }

    method ReadPacket() returns (r: ReadResult)
      modifies this
      ensures r == Decode(old(rest))
      ensures r.Got? ==> |old(rest)| >= 2 + |r.data| && rest == old(rest)[2 + |r.data|..]
    {
      var header := ReadFull(2);
      if header.Err? {
        return header;
      }
      r := ReadFull(Uint16(header.data));
    }
  }

  /** The loop of `streamToUDP`: what it hands to WireGuard and the error that ends it. */
  method StreamToUdp(s: Reader) returns (received: Received)
    modifies s
    ensures received == DecodeAll(old(s.rest))
  {
    var packets: seq<seq<byte>> := [];
    while true
      invariant DecodeAll(old(s.rest)) ==
                  Received(packets + DecodeAll(s.rest).packets, DecodeAll(s.rest).error)
      decreases |s.rest|
    {
      ghost var before := DecodeAll(s.rest).packets;
      var r := s.ReadPacket();
      match r
      case Err(e) =>
        return Received(packets, e);
      case Got(data) =>
        assert packets + before == packets + [data] + DecodeAll(s.rest).packets;
        packets := packets + [data];
    }
  }

  // ---------- The writing side ----------

  /** A byte stream as its writer sees it: `sent` is what reaches the reader. A failed write may
      still have sent a part, and nothing gets through after it. */
  class Writer {
    var sent: seq<byte>
    var broken: bool

    constructor ()
      ensures sent == [] && !broken
    {
      sent, broken := [], false;
    }

    /** `room` is how many bytes the stream still takes before it breaks. */
    method Write(data: seq<byte>, room: nat) returns (ok: bool)
      modifies this
      ensures ok == (!old(broken) && |data| <= room)
      ensures broken == !ok
      ensures sent == if old(broken) then old(sent)
                      else if ok then old(sent) + data else old(sent) + data[..room]
    {
      if broken {
        return false;
      }
      if |data| <= room {
        sent := sent + data;
        return true;
      }
      sent, broken := sent + data[..room], true;
      return false;
    }

    method WritePacket(data: seq<byte>, room: nat) returns (ok: bool)
      modifies this
      ensures ok == (!old(broken) && 2 + |data| <= room)
      ensures broken == !ok
      ensures sent == if old(broken) then old(sent)
                      else if ok then old(sent) + Encode(data) else old(sent) + Encode(data)[..room]
    {
      var header: seq<byte> := [|data| / 256 % 256, |data| % 256];
      ok := Write(header, room);
      if !ok {
        assert !old(broken) ==> header[..room] == Encode(data)[..room];
        return;
      }
      ok := Write(data, room - 2);
      if ok {
        assert header + data == Encode(data);
      } else {
        assert header + data[..room - 2] == Encode(data)[..room];
      }
    }
  }

  /** What gets through of the datagrams when the stream has room[i] bytes left at number `i`. */
  function Through(packets: seq<seq<byte>>, room: seq<nat>): seq<byte>
    requires |room| == |packets|
  {
    if packets == [] then []
    else if room[0] < 2 + |packets[0]| then Encode(packets[0])[..room[0]]
    else Encode(packets[0]) + Through(packets[1..], room[1..])
  }

  /** The loop of `udpToStream` for the datagrams it reads while it holds the stream `w`. */
  method UdpToStream(w: Writer, packets: seq<seq<byte>>, room: seq<nat>)
    requires |room| == |packets| && !w.broken
    modifies w
    ensures w.sent == old(w.sent) + Through(packets, room)
  {
    ghost var was, goal := w.sent, Through(packets, room);
    ghost var rest, room' := packets, room;
    for i := 0 to |packets|
      invariant rest == packets[i..] && room' == room[i..]
      invariant w.sent + (if w.broken then [] else Through(rest, room')) == was + goal
    {
      assert rest[0] == packets[i] && room'[0] == room[i];
      ghost var sent, encoded, more := w.sent, Encode(rest[0]), Through(rest[1..], room'[1..]);
      assert Through(rest, room') == if room[i] < 2 + |rest[0]| then encoded[..room[i]] else encoded + more;
      assert sent + (encoded + more) == sent + encoded + more;
      hide Through, Encode;
      var ok := w.WritePacket(packets[i], room[i]);
      rest, room' := rest[1..], room'[1..];
    }
  }

  /** The bytes that get through are a prefix of the encoding, so by `PrefixDecodes` the other side
      receives the first of the datagrams, unaltered, and all of them unless a write fails. */
  lemma {:induction false} ThroughIsPrefix(packets: seq<seq<byte>>, room: seq<nat>)
    requires |room| == |packets|
    ensures var n := |Through(packets, room)|;
            n <= |EncodeAll(packets)| && Through(packets, room) == EncodeAll(packets)[..n]
    ensures (forall i :: 0 <= i < |room| ==> room[i] >= 2 + |packets[i]|) <==>
              Through(packets, room) == EncodeAll(packets)
  {
    if packets != [] {
      ThroughIsPrefix(packets[1..], room[1..]);
      if room[0] >= 2 + |packets[0]| {
        var first, rest, through := Encode(packets[0]), EncodeAll(packets[1..]), Through(packets[1..], room[1..]);
        assert (first + rest)[..|first| + |through|] == first + rest[..|through|];
        assert (first + rest)[|first|..] == rest && (first + through)[|first|..] == through;
        assert forall i :: 0 <= i < |room[1..]| ==> room[1..][i] == room[i + 1] && packets[1..][i] == packets[i + 1];
        assert forall i :: 0 < i < |room| ==> room[i] == room[1..][i - 1] && packets[i] == packets[1..][i - 1];
      }
    }
  }

  /** How many datagrams are written before the first write that fails. */
  function Intact(packets: seq<seq<byte>>, room: seq<nat>): (n: nat)
    requires |room| == |packets|
    ensures n <= |packets|
    ensures n == |packets| <==> forall i :: 0 <= i < |room| ==> room[i] >= 2 + |packets[i]|
  {
    if packets == [] || room[0] < 2 + |packets[0]| then 0
    else
      var n := Intact(packets[1..], room[1..]);
      assert forall i :: 0 < i < |room| ==> room[i] == room[1..][i - 1] && packets[i] == packets[1..][i - 1];
      1 + n
  }

  lemma {:induction false} CompleteThrough(packets: seq<seq<byte>>, room: seq<nat>)
    requires |room| == |packets|
    ensures Complete(packets, |Through(packets, room)|) == Intact(packets, room)
  {
    if packets != [] && room[0] >= 2 + |packets[0]| {
      CompleteThrough(packets[1..], room[1..]);
    }
  }

  /** End to end, whatever writes fail and however the other side reads: it receives exactly the
      datagrams before the first failed write, in order and unaltered, and then an error, which is
      io.EOF if no write fails. */
  lemma {:induction false} EndToEnd(packets: seq<seq<byte>>, room: seq<nat>)
    requires |room| == |packets| && Fit(packets)
    ensures var received := DecodeAll(Through(packets, room));
            && received.packets == packets[..Intact(packets, room)]
            && (Intact(packets, room) == |packets| ==> received == Received(packets, Eof))
  {
    ThroughIsPrefix(packets, room);
    CompleteThrough(packets, room);
    PrefixDecodes(packets, |Through(packets, room)|);
    RoundTrip(packets);
    hide DecodeAll, EncodeAll, Through, Complete;
  }
}
