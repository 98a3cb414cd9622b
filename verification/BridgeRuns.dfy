/** Runs of one bridge in which operations interleave wherever the mutex is free: what becomes of
    every socket and every stream. */
module BridgeRuns {
  import opened Text
  import opened RelayTable

  /** An operation between two of its sections: the waiting side of `AddPeer` that found no relay; an
      operation that holds a stream not yet attached; `RemovePeer` or `Close` with relays that they
      took out of the table and have still to close. */
  datatype Thread =
    | Waiting(peer: PeerId)
    | Attaching(peer: PeerId, stream: Stream)
    | Closing(relays: map<PeerId, Relay>)

  /** `seen` are all streams ever opened or accepted, `handed` all ports ever bound, in order. */
  datatype World = World(t: Table, threads: map<nat, Thread>, nextThread: nat, seen: set<Stream>, handed: seq<int>)

  /** `AddPeer` up to the point where it gives the mutex up, with the stream that NewStream gave it;
      the stream handler up to that point; the next section of a waiting or attaching operation;
      the first sections of `RemovePeer` and `Close`; the closing of one relay. */
  datatype Event =
    | Add(peer: PeerId, newStream: Option<Stream>)
    | Incoming(peer: PeerId, stream: Stream)
    | Resume(tid: nat, bindOk: bool)
    | Remove(peer: PeerId)
    | Close
    | CloseOne(tid: nat, peer: PeerId)

  function Start(baseProxyPort: int): World {
    World(Table(baseProxyPort, map[], {}, {}), map[], 0, {}, [])
  }

  function Spawn(w: World, th: Thread): World {
    w.(threads := w.threads[w.nextThread := th], nextThread := w.nextThread + 1)
  }

  /** A stream token comes into being. */
  function Open(w: World, s: Stream): World {
    w.(t := w.t.(live := w.t.live + {s}), seen := w.seen + {s})
  }

  function Finish(w: World, tid: nat, t: Table): World {
    w.(t := t, threads := w.threads - {tid},
       handed := if t.bound == w.t.bound then w.handed else w.handed + [w.t.nextPort])
  }

  function Step(w: World, self: PeerId, e: Event): World {
    match e
    case Add(peer, newStream) =>
      if Less(self, peer) then
        if peer in w.t.peers then w else Spawn(w, Waiting(peer))
      else if newStream.None? || newStream.value in w.seen then w
      else Spawn(Open(w, newStream.value), Attaching(peer, newStream.value))
    case Incoming(peer, s) =>
      if s in w.seen then w
      else if SwapsAtOnce(w.t, peer) then Open(w, s).(t := AttachStream(Open(w, s).t, peer, s, true))
      else Spawn(Open(w, s), Attaching(peer, s))
    case Resume(tid, bindOk) =>
      if tid !in w.threads then w
      else
        (match w.threads[tid]
         case Waiting(peer) => Finish(w, tid, AllocateWaiting(w.t, peer, bindOk).0)
         case Attaching(peer, s) => Finish(w, tid, AttachStream(w.t, peer, s, bindOk))
         case Closing(_) => w)
    case Remove(peer) =>
      if peer !in w.t.peers then w
      else Spawn(w.(t := w.t.(peers := w.t.peers - {peer})), Closing(map[peer := w.t.peers[peer]]))
    case Close => Spawn(w.(t := w.t.(peers := map[])), Closing(w.t.peers))
    case CloseOne(tid, peer) =>
      if tid !in w.threads || !w.threads[tid].Closing? || peer !in w.threads[tid].relays then w
      else
        var relays := w.threads[tid].relays;
        w.(t := CloseRelay(w.t, relays[peer]), threads := w.threads[tid := Closing(relays - {peer})])
  }

  function After(w: World, self: PeerId, es: seq<Event>): World {
    if es == [] then w else Step(After(w, self, es[..|es| - 1]), self, es[|es| - 1])
  }

  /** A new stream replaces the one that a relay of its peer holds, at once. If there is no relay, or it
      holds no stream yet, the stream waits for the second section of its handler, and the table stays. */
  lemma {:induction false} IncomingExactly(w: World, self: PeerId, peer: PeerId, s: Stream)
    requires s !in w.seen
    ensures var w' := Step(w, self, Incoming(peer, s));
            if peer in w.t.peers && w.t.peers[peer].stream.Some? then
              && w'.threads == w.threads
              && w'.t.peers == w.t.peers[peer := Relay(w.t.peers[peer].port, Some(s))]
            else
              w'.threads == w.threads[w.nextThread := Attaching(peer, s)] && w'.t.peers == w.t.peers
  {
  }

  /** One operation with nothing in between: its first section, and the next one if there is one. */
  function Uninterrupted(w: World, self: PeerId, e: Event, bindOk: bool): World {
    var w1 := Step(w, self, e);
    if w1.nextThread == w.nextThread then w1 else Step(w1, self, Resume(w.nextThread, bindOk))
  }

  /** The sections of `AddPeer` make up the operation. The smaller ID keeps the relay that it has, or gets
      one that waits; the larger one attaches the stream that it has opened, relay or no relay. */
  lemma {:induction false} AddUninterrupted(
      w: World, self: PeerId, peer: PeerId, newStream: Option<Stream>, bindOk: bool)
    requires newStream.Some? ==> newStream.value !in w.seen
    ensures Uninterrupted(w, self, Add(peer, newStream), bindOk).t ==
              if Before(self, peer) then
                if peer in w.t.peers then w.t else AllocateWaiting(w.t, peer, bindOk).0
              else
                match newStream
                case None => w.t
                case Some(s) => AttachStream(w.t.(live := w.t.live + {s}), peer, s, bindOk)
  {
    LessIsBefore(self, peer);
    hide Less, Before, AttachStream, AllocateWaiting;
  }

  // ---------- Accounts ----------

  /** Where a socket or a stream can belong. */
  datatype Owner = InTable(peer: PeerId) | InClosing(tid: nat, peer: PeerId) | InThread(tid: nat)

  function RelayAt(w: World, o: Owner): Option<Relay> {
    match o
    case InTable(peer) => if peer in w.t.peers then Some(w.t.peers[peer]) else None
    case InClosing(tid, peer) =>
      if tid in w.threads && w.threads[tid].Closing? && peer in w.threads[tid].relays
      then Some(w.threads[tid].relays[peer]) else None
    case InThread(_) => None
  }

  function PortAt(w: World, o: Owner): Option<int> {
    match RelayAt(w, o) case Some(r) => Some(r.port) case None => None
  }

  function StreamAt(w: World, o: Owner): Option<Stream> {
    if o.InThread? then
      if o.tid in w.threads && w.threads[o.tid].Attaching? then Some(w.threads[o.tid].stream) else None
    else
      match RelayAt(w, o) case Some(r) => r.stream case None => None
  }

  /** Each of the things `xs` belongs to exactly one owner, and no owner holds anything else. */
  ghost predicate Owned<X(!new)>(at: Owner -> Option<X>, xs: set<X>) {
    && (forall o, o' :: at(o).Some? && at(o) == at(o') ==> o == o')
    && (forall o :: at(o).Some? ==> at(o).value in xs)
    && (forall x :: x in xs ==> exists o :: at(o) == Some(x))
  }

  ghost function PortsOf(w: World): Owner -> Option<int> {
    o => PortAt(w, o)
  }

  ghost function StreamsOf(w: World): Owner -> Option<Stream> {
    o => StreamAt(w, o)
  }

  /** Every bound socket and every live stream belongs to exactly one owner: a relay of the table, a
      relay about to be closed, or an operation that will attach it. */
  ghost predicate Accounts(w: World) {
    Owned(PortsOf(w), w.t.bound) && Owned(StreamsOf(w), w.t.live)
  }

  /** What holds in all runs: ports only grow, streams are known, threads are numbered. */
  ghost predicate Sane(w: World) {
    && (forall p :: p in w.t.bound ==> p < w.t.nextPort)
    && (forall o :: PortAt(w, o).Some? ==> PortAt(w, o).value < w.t.nextPort)
    && (forall i :: 0 <= i < |w.handed| ==> w.handed[i] < w.t.nextPort)
    && (forall i, j :: 0 <= i < j < |w.handed| ==> w.handed[i] < w.handed[j])
    && w.t.live <= w.seen
    && (forall tid :: tid in w.threads ==> tid < w.nextThread)
  }

  /** Another allocation for the peer has come between the check of the waiting side and its own. */
  ghost predicate Overwrites(w: World, e: Event) {
    e.Resume? && e.bindOk && e.tid in w.threads && w.threads[e.tid].Waiting? && w.threads[e.tid].peer in w.t.peers
  }

  /** Every relay of the new state is an old one, perhaps with another stream, or has the next port. */
  lemma {:induction false} PortsCome(w: World, self: PeerId, e: Event, o: Owner)
    ensures var w' := Step(w, self, e);
            PortAt(w', o).Some? ==>
              || PortAt(w', o) == PortAt(w, o)
              || (o.InClosing? && PortAt(w', o) == PortAt(w, InTable(o.peer)))
              || (PortAt(w', o) == Some(w.t.nextPort) && w'.t.nextPort == w.t.nextPort + 1)
  {
  }

  lemma {:induction false} SaneKept(w: World, self: PeerId, e: Event)
    requires Sane(w)
    ensures Sane(Step(w, self, e))
  {
    var w' := Step(w, self, e);
    assert w.t.nextPort <= w'.t.nextPort;
    forall o | PortAt(w', o).Some? ensures PortAt(w', o).value < w'.t.nextPort {
      PortsCome(w, self, e, o);
      hide PortAt, Step;
    }
    hide PortAt;
  }

  // ---------- Ways of moving ----------

  /** One owner gets what another had; nothing else changes. */
  lemma {:induction false} Moves<X(!new)>(
      at: Owner -> Option<X>, at': Owner -> Option<X>, xs: set<X>, from: Owner, to: Owner)
    requires Owned(at, xs) && from != to && at(to) == None && at'(to) == at(from) && at'(from) == None
    requires forall o :: o != from && o != to ==> at'(o) == at(o)
    ensures Owned(at', xs)
  {
    forall x | x in xs ensures exists o :: at'(o) == Some(x) {
      var o :| at(o) == Some(x);
      assert at'(if o == from then to else o) == Some(x);
    }
  }

  lemma {:induction false} Stays<X(!new)>(at: Owner -> Option<X>, at': Owner -> Option<X>, xs: set<X>)
    requires Owned(at, xs) && forall o :: at'(o) == at(o)
    ensures Owned(at', xs)
  {
    forall x | x in xs ensures exists o :: at'(o) == Some(x) {
      var o :| at(o) == Some(x);
      assert at'(o) == Some(x);
    }
  }

  /** An owner drops what it has, if anything, and takes something new, if anything. */
  lemma {:induction false} Replaces<X(!new)>(
      at: Owner -> Option<X>, at': Owner -> Option<X>, xs: set<X>, xs': set<X>, me: Owner)
    requires Owned(at, xs) && forall o :: o != me ==> at'(o) == at(o)
    requires at'(me).Some? && at'(me) != at(me) ==> at'(me).value !in xs
    requires forall x :: x in xs' <==> (x in xs && at(me) != Some(x)) || at'(me) == Some(x)
    ensures Owned(at', xs')
  {
    forall x | x in xs' ensures exists o :: at'(o) == Some(x) {
      if at'(me) != Some(x) {
        var o :| at(o) == Some(x);
        assert at'(o) == Some(x);
      }
    }
  }

  /** Everything in the table goes to one closing thread. */
  lemma {:induction false} MovesTable<X(!new)>(at: Owner -> Option<X>, at': Owner -> Option<X>, xs: set<X>, tid: nat)
    requires Owned(at, xs)
    requires forall p ::
               && at(InClosing(tid, p)) == None && at'(InClosing(tid, p)) == at(InTable(p))
               && at'(InTable(p)) == None
    requires forall o: Owner :: !o.InTable? && !(o.InClosing? && o.tid == tid) ==> at'(o) == at(o)
    ensures Owned(at', xs)
  {
    forall x | x in xs ensures exists o :: at'(o) == Some(x) {
      var o :| at(o) == Some(x);
      assert at'(if o.InTable? then InClosing(tid, o.peer) else o) == Some(x);
    }
    forall o, o' | at'(o).Some? && at'(o) == at'(o') ensures o == o' {
      var q := if o.InClosing? && o.tid == tid then InTable(o.peer) else o;
      var q' := if o'.InClosing? && o'.tid == tid then InTable(o'.peer) else o';
      assert at(q) == at'(o) && at(q') == at'(o');
    }
  }

  // ---------- Every kind of step ----------

  lemma {:induction false} AccountsAdd(w: World, self: PeerId, peer: PeerId, newStream: Option<Stream>)
    requires Sane(w) && Accounts(w)
    ensures Accounts(Step(w, self, Add(peer, newStream)))
  {
    var w', me := Step(w, self, Add(peer, newStream)), InThread(w.nextThread);
    assert forall o :: PortAt(w', o) == PortAt(w, o);
    assert forall o :: o != me ==> StreamAt(w', o) == StreamAt(w, o);
    assert StreamAt(w, me) == None;
    assert StreamAt(w', me) == if w'.seen == w.seen then None else newStream;
    assert w'.t.bound == w.t.bound && w'.t.live == w.t.live + Only(StreamAt(w', me));
    hide PortAt, StreamAt, RelayAt, Step, Owned, Less;
    Stays(PortsOf(w), PortsOf(w'), w.t.bound);
    Replaces(StreamsOf(w), StreamsOf(w'), w.t.live, w'.t.live, me);
  }

  lemma {:induction false} AccountsIncoming(w: World, self: PeerId, peer: PeerId, s: Stream)
    requires Sane(w) && Accounts(w)
    ensures Accounts(Step(w, self, Incoming(peer, s)))
  {
    var w' := Step(w, self, Incoming(peer, s));
    if s !in w.seen {
      var me := if SwapsAtOnce(w.t, peer) then InTable(peer) else InThread(w.nextThread);
      assert forall o :: PortAt(w', o) == PortAt(w, o);
      assert forall o :: o != me ==> StreamAt(w', o) == StreamAt(w, o);
      assert StreamsOf(w)(me) == StreamAt(w, me);
      assert StreamAt(w', me) == Some(s) && StreamAt(w, me) != Some(s);
      assert w'.t.live == (w.t.live - Only(StreamAt(w, me))) + {s};
      hide PortAt, StreamAt, RelayAt, Step, Owned, SwapsAtOnce;
      Stays(PortsOf(w), PortsOf(w'), w.t.bound);
      Replaces(StreamsOf(w), StreamsOf(w'), w.t.live, w'.t.live, me);
    }
  }

  /** The waiting side keeps the accounts exactly when no relay has appeared meanwhile. */
  lemma {:induction false} AccountsWaiting(w: World, self: PeerId, tid: nat, bindOk: bool)
    requires Sane(w) && Accounts(w) && tid in w.threads && w.threads[tid].Waiting?
    ensures Accounts(Step(w, self, Resume(tid, bindOk))) <==> !Overwrites(w, Resume(tid, bindOk))
  {
    var w' := Step(w, self, Resume(tid, bindOk));
    var peer := w.threads[tid].peer;
    if bindOk && peer in w.t.peers {
      OrphanMade(w, w', peer);
    } else {
      AccountsFreshPort(w, self, tid, bindOk);
    }
  }

  lemma {:induction false} AccountsFreshPort(w: World, self: PeerId, tid: nat, bindOk: bool)
    requires Sane(w) && Accounts(w) && tid in w.threads && w.threads[tid].Waiting?
    requires bindOk ==> w.threads[tid].peer !in w.t.peers
    ensures Accounts(Step(w, self, Resume(tid, bindOk)))
  {
    var w', me := Step(w, self, Resume(tid, bindOk)), InTable(w.threads[tid].peer);
    assert forall o :: StreamAt(w', o) == StreamAt(w, o) && (o != me ==> PortAt(w', o) == PortAt(w, o));
    assert PortAt(w', me) == if bindOk then Some(w.t.nextPort) else PortAt(w, me);
    assert bindOk ==> PortAt(w, me) == None;
    assert w'.t.bound == (if bindOk then w.t.bound + {w.t.nextPort} else w.t.bound) && w'.t.live == w.t.live;
    hide PortAt, StreamAt, RelayAt, Step, Owned;
    Stays(StreamsOf(w), StreamsOf(w'), w.t.live);
    if bindOk {
      Replaces(PortsOf(w), PortsOf(w'), w.t.bound, w'.t.bound, me);
    } else {
      Stays(PortsOf(w), PortsOf(w'), w.t.bound);
    }
  }

  lemma {:induction false} OrphanMade(w: World, w': World, peer: PeerId)
    requires Sane(w) && Accounts(w) && peer in w.t.peers
    requires w'.t == AllocateWaiting(w.t, peer, true).0
    requires forall o :: o != InTable(peer) ==> PortAt(w', o) == PortAt(w, o)
    ensures w.t.peers[peer].port in w'.t.bound && forall o :: PortAt(w', o) != Some(w.t.peers[peer].port)
    ensures !Accounts(w')
  {
    var p := w.t.peers[peer].port;
    assert PortsOf(w)(InTable(peer)) == Some(p);
    forall o ensures PortAt(w', o) != Some(p) {
      assert PortsOf(w)(o) == PortAt(w, o);
    }
    assert forall o :: PortsOf(w')(o) != Some(p);
  }

  lemma {:induction false} AccountsSwap(w: World, self: PeerId, tid: nat, bindOk: bool)
    requires Sane(w) && Accounts(w) && tid in w.threads && w.threads[tid].Attaching?
    requires w.threads[tid].peer in w.t.peers
    ensures Accounts(Step(w, self, Resume(tid, bindOk)))
  {
    var w' := Step(w, self, Resume(tid, bindOk));
    var me, it := InThread(tid), InTable(w.threads[tid].peer);
    var dropped: Owner -> Option<Stream> := o => if o == it then None else StreamAt(w, o);
    assert forall o :: PortAt(w', o) == PortAt(w, o);
    assert StreamAt(w, it) == w.t.peers[it.peer].stream && StreamAt(w, me) == Some(w.threads[tid].stream);
    assert forall o :: o != me && o != it ==> StreamAt(w', o) == StreamAt(w, o);
    assert StreamAt(w', it) == StreamAt(w, me) && StreamAt(w', me) == None;
    assert w'.t.bound == w.t.bound && w'.t.live == w.t.live - Only(StreamAt(w, it));
    hide PortAt, StreamAt, RelayAt, Step, Owned;
    Stays(PortsOf(w), PortsOf(w'), w.t.bound);
    Replaces(StreamsOf(w), dropped, w.t.live, w'.t.live, it);
    Moves(dropped, StreamsOf(w'), w'.t.live, me, it);
  }

  lemma {:induction false} AccountsAttaching(w: World, self: PeerId, tid: nat, bindOk: bool)
    requires Sane(w) && Accounts(w) && tid in w.threads && w.threads[tid].Attaching?
    ensures Accounts(Step(w, self, Resume(tid, bindOk)))
  {
    var w' := Step(w, self, Resume(tid, bindOk));
    var peer, me, it := w.threads[tid].peer, InThread(tid), InTable(w.threads[tid].peer);
    if peer in w.t.peers {
      AccountsSwap(w, self, tid, bindOk);
    } else {
      assert forall o :: o != it ==> PortAt(w', o) == PortAt(w, o);
      assert forall o :: o != it && o != me ==> StreamAt(w', o) == StreamAt(w, o);
      assert PortAt(w, it) == None && StreamAt(w, it) == None && StreamAt(w', me) == None;
      assert PortAt(w', it) == if bindOk then Some(w.t.nextPort) else None;
      assert StreamAt(w', it) == if bindOk then StreamAt(w, me) else None;
      assert w'.t.bound == if bindOk then w.t.bound + {w.t.nextPort} else w.t.bound;
      assert w'.t.live == if bindOk then w.t.live else w.t.live - Only(StreamAt(w, me));
      hide PortAt, StreamAt, RelayAt, Step, Owned;
      Replaces(PortsOf(w), PortsOf(w'), w.t.bound, w'.t.bound, it);
      if bindOk {
        Moves(StreamsOf(w), StreamsOf(w'), w.t.live, me, it);
      } else {
        Replaces(StreamsOf(w), StreamsOf(w'), w.t.live, w'.t.live, me);
      }
    }
  }

  lemma {:induction false} AccountsRemove(w: World, self: PeerId, peer: PeerId)
    requires Sane(w) && Accounts(w)
    ensures Accounts(Step(w, self, Remove(peer)))
  {
    if peer in w.t.peers {
      var w' := Step(w, self, Remove(peer));
      var from, to := InTable(peer), InClosing(w.nextThread, peer);
      assert forall o :: o != from && o != to ==> PortAt(w', o) == PortAt(w, o) && StreamAt(w', o) == StreamAt(w, o);
      assert PortAt(w', from) == None && PortAt(w', to) == PortAt(w, from) && PortAt(w, to) == None;
      assert StreamAt(w', from) == None && StreamAt(w', to) == StreamAt(w, from) && StreamAt(w, to) == None;
      assert w'.t.bound == w.t.bound && w'.t.live == w.t.live;
      hide PortAt, StreamAt, RelayAt, Step, Owned;
      Moves(PortsOf(w), PortsOf(w'), w.t.bound, from, to);
      Moves(StreamsOf(w), StreamsOf(w'), w.t.live, from, to);
    }
  }

  lemma {:induction false} AccountsClose(w: World, self: PeerId)
    requires Sane(w) && Accounts(w)
    ensures Accounts(Step(w, self, Close))
  {
    var w' := Step(w, self, Close);
    var tid := w.nextThread;
    assert forall o: Owner :: !o.InTable? && !(o.InClosing? && o.tid == tid) ==>
             PortAt(w', o) == PortAt(w, o) && StreamAt(w', o) == StreamAt(w, o);
    assert forall p :: PortAt(w, InClosing(tid, p)) == None && StreamAt(w, InClosing(tid, p)) == None;
    assert forall p :: PortAt(w', InClosing(tid, p)) == PortAt(w, InTable(p))
                       && StreamAt(w', InClosing(tid, p)) == StreamAt(w, InTable(p));
    assert forall p :: PortAt(w', InTable(p)) == None && StreamAt(w', InTable(p)) == None;
    assert w'.t.bound == w.t.bound && w'.t.live == w.t.live;
    hide PortAt, StreamAt, RelayAt, Step, Owned;
    MovesTable(PortsOf(w), PortsOf(w'), w.t.bound, w.nextThread);
    MovesTable(StreamsOf(w), StreamsOf(w'), w.t.live, w.nextThread);
  }

  lemma {:induction false} CloseOneEffect(w: World, self: PeerId, tid: nat, peer: PeerId)
    ensures var w', me := Step(w, self, CloseOne(tid, peer)), InClosing(tid, peer);
            && (forall o :: o != me ==> PortAt(w', o) == PortAt(w, o) && StreamAt(w', o) == StreamAt(w, o))
            && PortAt(w', me) == None && StreamAt(w', me) == None
            && w'.t.bound == (if PortAt(w, me).Some? then w.t.bound - {PortAt(w, me).value} else w.t.bound)
            && w'.t.live == w.t.live - Only(StreamAt(w, me))
  {
  }

  lemma {:induction false} AccountsCloseOne(w: World, self: PeerId, tid: nat, peer: PeerId)
    requires Sane(w) && Accounts(w)
    ensures Accounts(Step(w, self, CloseOne(tid, peer)))
  {
    var w', me := Step(w, self, CloseOne(tid, peer)), InClosing(tid, peer);
    CloseOneEffect(w, self, tid, peer);
    hide PortAt, StreamAt, RelayAt, Step, Owned;
    Replaces(PortsOf(w), PortsOf(w'), w.t.bound, w'.t.bound, me);
    Replaces(StreamsOf(w), StreamsOf(w'), w.t.live, w'.t.live, me);
  }

  /** One step keeps the accounts exactly when it is not the waiting side overwriting a relay. */
  lemma {:induction false} AccountsKeptExactly(w: World, self: PeerId, e: Event)
    requires Sane(w) && Accounts(w)
    ensures Accounts(Step(w, self, e)) <==> !Overwrites(w, e)
  {
    match e
    case Add(peer, newStream) => AccountsAdd(w, self, peer, newStream);
    case Incoming(peer, s) => AccountsIncoming(w, self, peer, s);
    case Resume(tid, bindOk) =>
      if tid in w.threads && w.threads[tid].Waiting? {
        AccountsWaiting(w, self, tid, bindOk);
      } else if tid in w.threads && w.threads[tid].Attaching? {
        AccountsAttaching(w, self, tid, bindOk);
      }
    case Remove(peer) => AccountsRemove(w, self, peer);
    case Close => AccountsClose(w, self);
    case CloseOne(tid, peer) => AccountsCloseOne(w, self, tid, peer);
  }

  // ---------- Whole runs ----------

  /** No waiting side ever overwrites a relay. */
  ghost predicate NoOverwrite(w: World, self: PeerId, es: seq<Event>) {
    forall i :: 0 <= i < |es| ==> !Overwrites(After(w, self, es[..i]), es[i])
  }

  lemma {:induction false} SaneForever(self: PeerId, base: int, es: seq<Event>)
    ensures Sane(After(Start(base), self, es))
  {
    if es != [] {
      SaneForever(self, base, es[..|es| - 1]);
      SaneKept(After(Start(base), self, es[..|es| - 1]), self, es[|es| - 1]);
    }
  }

  /** All ports that are ever handed out are different, in every run. */
  lemma {:induction false} PortsDistinct(self: PeerId, base: int, es: seq<Event>, i: nat, j: nat)
    requires var handed := After(Start(base), self, es).handed; i < j < |handed|
    ensures var handed := After(Start(base), self, es).handed; handed[i] != handed[j]
  {
    SaneForever(self, base, es);
  }

  lemma {:induction false} FrontNoOverwrite(w: World, self: PeerId, es: seq<Event>)
    requires es != []
    ensures var front := es[..|es| - 1];
            NoOverwrite(w, self, es) <==>
              NoOverwrite(w, self, front) && !Overwrites(After(w, self, front), es[|es| - 1])
  {
    var front := es[..|es| - 1];
    assert forall i :: 0 <= i <= |front| ==> front[..i] == es[..i];
    assert forall i :: 0 <= i < |front| ==> front[i] == es[i];
    hide After, Overwrites;
  }

  lemma {:induction false} OneMoreNoOverwrite(w: World, self: PeerId, es: seq<Event>, e: Event)
    ensures NoOverwrite(w, self, es + [e]) <==> NoOverwrite(w, self, es) && !Overwrites(After(w, self, es), e)
  {
    FrontNoOverwrite(w, self, es + [e]);
    assert (es + [e])[..|es|] == es;
  }

  lemma {:induction false} AccountsWithout(self: PeerId, base: int, es: seq<Event>)
    requires NoOverwrite(Start(base), self, es)
    ensures Accounts(After(Start(base), self, es))
  {
    if es != [] {
      var front := es[..|es| - 1];
      FrontNoOverwrite(Start(base), self, es);
      AccountsWithout(self, base, front);
      SaneForever(self, base, front);
      AccountsKeptExactly(After(Start(base), self, front), self, es[|es| - 1]);
      hide Accounts, Sane, Step, Overwrites, NoOverwrite;
    } else {
      StartInOrder(base);
    }
  }

  /** Each bound socket belongs to exactly one relay, and each stream ever seen is attached to exactly
      one relay, on its way to one, or no longer open: in exactly the runs without an overwrite. */
  lemma {:induction false} AccountsForever(self: PeerId, base: int, es: seq<Event>)
    ensures Accounts(After(Start(base), self, es)) <==> NoOverwrite(Start(base), self, es)
  {
    if NoOverwrite(Start(base), self, es) {
      AccountsWithout(self, base, es);
    } else {
      var p := OverwriteOrphans(self, base, es);
      assert forall o :: PortsOf(After(Start(base), self, es))(o) != Some(p);
      hide After, NoOverwrite;
    }
  }

  /** The waiting side overwrites the relay of this peer. */
  ghost predicate OverwritesOf(w: World, e: Event, peer: PeerId) {
    Overwrites(w, e) && w.threads[e.tid].peer == peer
  }

  ghost predicate NoOverwriteOf(w: World, self: PeerId, es: seq<Event>, peer: PeerId) {
    forall i :: 0 <= i < |es| ==> !OverwritesOf(After(w, self, es[..i]), es[i], peer)
  }

  lemma {:induction false} FrontNoOverwriteOf(w: World, self: PeerId, es: seq<Event>, peer: PeerId)
    requires es != []
    ensures var front := es[..|es| - 1];
            NoOverwriteOf(w, self, es, peer) <==>
              NoOverwriteOf(w, self, front, peer) && !OverwritesOf(After(w, self, front), es[|es| - 1], peer)
  {
    var front := es[..|es| - 1];
    assert forall i :: 0 <= i <= |front| ==> front[..i] == es[..i];
    assert forall i :: 0 <= i < |front| ==> front[i] == es[i];
    hide After, OverwritesOf;
  }

  /** Unless it is removed, a peer keeps its port in one step exactly when its relay is not overwritten;
      otherwise it gets a higher one. */
  lemma {:induction false} PortKept(w: World, self: PeerId, e: Event, peer: PeerId)
    requires Sane(w) && peer in w.t.peers && e != Remove(peer) && e != Close
    ensures var w' := Step(w, self, e);
            && peer in w'.t.peers && w'.t.peers[peer].port >= w.t.peers[peer].port
            && (w'.t.peers[peer].port == w.t.peers[peer].port <==> !OverwritesOf(w, e, peer))
  {
    assert PortAt(w, InTable(peer)) == Some(w.t.peers[peer].port);
  }

  /** In every run without `Remove` of the peer and without `Close`, the port of the peer never falls,
      and it stays the same exactly when no waiting call overwrites the relay of that peer. */
  lemma {:induction false} PortStable(w: World, self: PeerId, es: seq<Event>, peer: PeerId)
    requires Sane(w) && peer in w.t.peers
    requires forall i :: 0 <= i < |es| ==> es[i] != Remove(peer) && es[i] != Close
    ensures var w' := After(w, self, es);
            && Sane(w') && peer in w'.t.peers && w'.t.peers[peer].port >= w.t.peers[peer].port
            && (w'.t.peers[peer].port == w.t.peers[peer].port <==> NoOverwriteOf(w, self, es, peer))
  {
    if es != [] {
      var front, e := es[..|es| - 1], es[|es| - 1];
      PortStable(w, self, front, peer);
      FrontNoOverwriteOf(w, self, es, peer);
      hide Sane, Step, NoOverwriteOf, OverwritesOf;
      SaneKept(After(w, self, front), self, e);
      PortKept(After(w, self, front), self, e, peer);
    }
  }

  /** A bound socket that no relay has. */
  ghost predicate Orphan(w: World, p: int) {
    p in w.t.bound && forall o :: PortAt(w, o) != Some(p)
  }

  lemma {:induction false} OrphanStays(w: World, self: PeerId, e: Event, p: int)
    requires Sane(w) && Orphan(w, p)
    ensures Orphan(Step(w, self, e), p)
  {
    var w' := Step(w, self, e);
    forall o ensures PortAt(w', o) != Some(p) {
      PortsCome(w, self, e, o);
      hide Step;
    }
    if e.CloseOne? {
      assert PortAt(w, InClosing(e.tid, e.peer)) != Some(p);
    }
  }

  lemma {:induction false} OrphanForever(w: World, self: PeerId, es: seq<Event>, p: int)
    requires Sane(w) && Orphan(w, p)
    ensures Sane(After(w, self, es)) && Orphan(After(w, self, es), p)
  {
    if es != [] {
      OrphanForever(w, self, es[..|es| - 1], p);
      SaneKept(After(w, self, es[..|es| - 1]), self, es[|es| - 1]);
      OrphanStays(After(w, self, es[..|es| - 1]), self, es[|es| - 1], p);
    }
  }

  /** An overwrite leaves the socket of the old relay bound in every continuation of the run, whatever
      is removed or closed in it. */
  lemma {:induction false} OverwriteLeaks(w: World, self: PeerId, e: Event, es: seq<Event>)
    requires Sane(w) && Accounts(w) && Overwrites(w, e)
    ensures w.t.peers[w.threads[e.tid].peer].port in After(Step(w, self, e), self, es).t.bound
  {
    var peer := w.threads[e.tid].peer;
    OrphanMade(w, Step(w, self, e), peer);
    SaneKept(w, self, e);
    OrphanForever(Step(w, self, e), self, es, w.t.peers[peer].port);
  }

  /** Such a run: the waiting side looks, the stream of the other side comes in and gets a relay, the
      waiting side allocates another one. */
  lemma {:induction false} GapReached(self: PeerId, peer: PeerId, base: int, s: Stream)
    requires Less(self, peer)
    ensures var w := After(Start(base), self, [] + [Add(peer, None)] + [Incoming(peer, s)] + [Resume(1, true)]);
            Sane(w) && Accounts(w) && Overwrites(w, Resume(0, true))
  {
    var w0, e0, e1, e2 := Start(base), Add(peer, None), Incoming(peer, s), Resume(1, true);
    AfterOneMore(w0, self, [], e0);
    AfterOneMore(w0, self, [] + [e0], e1);
    AfterOneMore(w0, self, [] + [e0] + [e1], e2);
    hide After;
    var w1 := Step(w0, self, e0);
    var w2 := Step(w1, self, e1);
    var w3 := Step(w2, self, e2);
    assert w2.threads == map[0 := Waiting(peer), 1 := Attaching(peer, s)];
    assert Overwrites(w3, Resume(0, true)) && !Overwrites(w2, e2);
    StartInOrder(base);
    hide Step, Accounts, Sane, Start, Less;
    SaneKept(w0, self, e0);
    SaneKept(w1, self, e1);
    SaneKept(w2, self, e2);
    AccountsKeptExactly(w0, self, e0);
    AccountsKeptExactly(w1, self, e1);
    AccountsKeptExactly(w2, self, e2);
  }

  /** A run with an overwrite ends with a bound socket that no relay has. */
  lemma {:induction false} OverwriteOrphans(self: PeerId, base: int, es: seq<Event>) returns (p: int)
    requires !NoOverwrite(Start(base), self, es)
    ensures Orphan(After(Start(base), self, es), p)
  {
    var front, e := es[..|es| - 1], es[|es| - 1];
    var w := After(Start(base), self, front);
    FrontNoOverwrite(Start(base), self, es);
    SaneForever(self, base, front);
    if NoOverwrite(Start(base), self, front) {
      AccountsWithout(self, base, front);
      p := w.t.peers[w.threads[e.tid].peer].port;
      OrphanMade(w, Step(w, self, e), w.threads[e.tid].peer);
    } else {
      p := OverwriteOrphans(self, base, front);
      OrphanStays(w, self, e, p);
    }
  }

  lemma {:induction false} StartInOrder(base: int)
    ensures Sane(Start(base)) && Accounts(Start(base))
  {
    assert forall o :: PortsOf(Start(base))(o) == None && StreamsOf(Start(base))(o) == None;
  }

  lemma {:induction false} AfterOneMore(w: World, self: PeerId, es: seq<Event>, e: Event)
    ensures After(w, self, es + [e]) == Step(After(w, self, es), self, e)
  {
    assert (es + [e])[..|es|] == es;
  }

  lemma {:induction false} AfterAppend(w: World, self: PeerId, es: seq<Event>, es': seq<Event>)
    ensures After(w, self, es + es') == After(After(w, self, es), self, es')
  {
    if es' == [] {
      assert es + es' == es;
    } else {
      assert (es + es')[..|es + es'| - 1] == es + es'[..|es'| - 1];
      AfterAppend(w, self, es, es'[..|es'| - 1]);
    }
  }
}
