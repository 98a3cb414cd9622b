/** What `Close` leaves behind: the code takes the relays out of the table under the mutex and closes
    them afterwards, while operations that were in flight go on and the stream handler stays in place. */
module BridgeClose {
  import opened Text
  import opened RelayTable
  import opened BridgeRuns

  /** `Close` number `tid` closes the relays of `order` one by one. */
  function CloseAll(tid: nat, order: seq<PeerId>): seq<Event> {
    if order == [] then [] else CloseAll(tid, order[..|order| - 1]) + [CloseOne(tid, order[|order| - 1])]
  }

  function Without(relays: map<PeerId, Relay>, order: seq<PeerId>): map<PeerId, Relay> {
    map p | p in relays && p !in order :: relays[p]
  }

  lemma {:induction false} OneLess(w: World, self: PeerId, tid: nat, p: PeerId)
    requires tid in w.threads && w.threads[tid].Closing?
    ensures var w' := Step(w, self, CloseOne(tid, p));
            w'.threads == w.threads[tid := Closing(w.threads[tid].relays - {p})] && w'.t.peers == w.t.peers
  {
    if p !in w.threads[tid].relays {
      assert w.threads[tid].relays - {p} == w.threads[tid].relays;
      assert w.threads == w.threads[tid := w.threads[tid]];
    }
  }

  lemma {:induction false} WithoutMore(relays: map<PeerId, Relay>, order: seq<PeerId>)
    ensures order == [] ==> Without(relays, order) == relays
    ensures order != [] ==>
              Without(relays, order) == Without(relays, order[..|order| - 1]) - {order[|order| - 1]}
  {
    if order != [] {
      var front, p := order[..|order| - 1], order[|order| - 1];
      assert forall q :: q in order <==> q in front || q == p;
    }
  }

  lemma {:induction false} CloseAllCloses(w: World, self: PeerId, tid: nat, order: seq<PeerId>)
    requires tid in w.threads && w.threads[tid].Closing?
    ensures var w' := After(w, self, CloseAll(tid, order));
            w'.threads == w.threads[tid := Closing(Without(w.threads[tid].relays, order))] && w'.t.peers == w.t.peers
  {
    WithoutMore(w.threads[tid].relays, order);
    if order == [] {
      assert w.threads == w.threads[tid := w.threads[tid]];
    } else {
      var front, p := order[..|order| - 1], order[|order| - 1];
      assert CloseAll(tid, order) == CloseAll(tid, front) + [CloseOne(tid, p)];
      CloseAllCloses(w, self, tid, front);
      hide After, Step, Without, CloseAll;
      AfterOneMore(w, self, CloseAll(tid, front), CloseOne(tid, p));
      OneLess(After(w, self, CloseAll(tid, front)), self, tid, p);
    }
  }

  /** The operation neither holds a socket or a stream, nor is going to. */
  predicate Done(th: Thread) {
    th == Closing(map[])
  }

  /** The operation holds no socket and no stream yet. */
  predicate HoldsNothing(th: Thread) {
    th.Waiting? || Done(th)
  }

  ghost predicate AllClosed(w: World) {
    w.t.bound == {} && w.t.live == {}
  }

  /** With an empty table, everything is closed exactly when no operation holds anything. */
  lemma {:induction false} NothingLeft(w: World)
    requires Accounts(w) && w.t.peers == map[]
    ensures AllClosed(w) <==> forall tid :: tid in w.threads ==> HoldsNothing(w.threads[tid])
  {
    if forall tid :: tid in w.threads ==> HoldsNothing(w.threads[tid]) {
      assert forall o :: PortsOf(w)(o) == None && StreamsOf(w)(o) == None;
    } else {
      var tid :| tid in w.threads && !HoldsNothing(w.threads[tid]);
      if w.threads[tid].Attaching? {
        assert StreamsOf(w)(InThread(tid)).Some?;
      } else {
        var p :| p in w.threads[tid].relays;
        assert PortsOf(w)(InClosing(tid, p)).Some?;
      }
    }
  }

  lemma {:induction false} OnlyClosing(self: PeerId, base: int, es: seq<Event>, tid: nat, order: seq<PeerId>)
    ensures NoOverwrite(Start(base), self, es + CloseAll(tid, order)) <==> NoOverwrite(Start(base), self, es)
  {
    if order == [] {
      assert es + CloseAll(tid, order) == es;
    } else {
      var front, e := CloseAll(tid, order[..|order| - 1]), CloseOne(tid, order[|order| - 1]);
      OnlyClosing(self, base, es, tid, order[..|order| - 1]);
      assert es + CloseAll(tid, order) == (es + front) + [e];
      OneMoreNoOverwrite(Start(base), self, es + front, e);
      hide NoOverwrite, After;
    }
  }

  /** The run `es`, then `Close`, then the closing of the relays that it took. */
  function Closed(self: PeerId, base: int, es: seq<Event>, order: seq<PeerId>): seq<Event> {
    es + [Close] + CloseAll(After(Start(base), self, es).nextThread, order)
  }

  lemma {:induction false} CloseTakes(w: World, self: PeerId, order: seq<PeerId>)
    requires forall p :: p in w.t.peers ==> p in order
    ensures var w1 := Step(w, self, Close);
            && w1.threads == w.threads[w.nextThread := Closing(w.t.peers)] && w1.t.peers == map[]
            && !Overwrites(w, Close) && Without(w.t.peers, order) == map[]
  {
  }

  lemma SetTwice(threads: map<nat, Thread>, tid: nat, th: Thread, th': Thread)
    ensures threads[tid := th][tid := th'] == threads[tid := th']
  {
  }

  /** What that leaves: an empty table and the other operations. */
  lemma {:induction false} AfterClose(self: PeerId, base: int, es: seq<Event>, order: seq<PeerId>)
    requires forall p :: p in After(Start(base), self, es).t.peers ==> p in order
    ensures var w := After(Start(base), self, es);
            var w' := After(Start(base), self, Closed(self, base, es, order));
            && w'.t.peers == map[] && w'.threads == w.threads[w.nextThread := Closing(map[])]
            && (NoOverwrite(Start(base), self, Closed(self, base, es, order)) <==> NoOverwrite(Start(base), self, es))
  {
    var w := After(Start(base), self, es);
    var tid := w.nextThread;
    CloseTakes(w, self, order);
    SetTwice(w.threads, tid, Closing(w.t.peers), Closing(map[]));
    assert Closed(self, base, es, order) == es + [Close] + CloseAll(tid, order);
    hide *;
    AfterOneMore(Start(base), self, es, Close);
    AfterAppend(Start(base), self, es + [Close], CloseAll(tid, order));
    CloseAllCloses(Step(w, self, Close), self, tid, order);
    OneMoreNoOverwrite(Start(base), self, es, Close);
    OnlyClosing(self, base, es + [Close], tid, order);
  }

  lemma {:induction false} OverwriteStaysOpen(self: PeerId, base: int, es: seq<Event>)
    requires !NoOverwrite(Start(base), self, es)
    ensures !AllClosed(After(Start(base), self, es))
  {
    var p := OverwriteOrphans(self, base, es);
    assert p in After(Start(base), self, es).t.bound;
  }

  /** Once `Close` has closed the relays it took, in any order, everything is closed exactly when no
      relay was ever overwritten and no operation in flight at `Close` held a socket or a stream. */
  lemma {:induction false} CloseExactly(self: PeerId, base: int, es: seq<Event>, order: seq<PeerId>)
    requires forall p :: p in After(Start(base), self, es).t.peers ==> p in order
    ensures var w := After(Start(base), self, es);
            AllClosed(After(Start(base), self, Closed(self, base, es, order))) <==>
              && NoOverwrite(Start(base), self, es)
              && forall tid :: tid in w.threads ==> HoldsNothing(w.threads[tid])
  {
    var w := After(Start(base), self, es);
    var w' := After(Start(base), self, Closed(self, base, es, order));
    AfterClose(self, base, es, order);
    SaneForever(self, base, es);
    assert w.nextThread !in w.threads;
    hide After, Accounts, NoOverwrite, Closed, Sane, Step, Start;
    assert forall tid :: tid in w.threads ==> w'.threads[tid] == w.threads[tid];
    assert forall tid :: tid in w'.threads ==> tid in w.threads || HoldsNothing(w'.threads[tid]);
    AccountsForever(self, base, Closed(self, base, es, order));
    if NoOverwrite(Start(base), self, es) {
      NothingLeft(w');
    } else {
      OverwriteStaysOpen(self, base, Closed(self, base, es, order));
    }
  }

  /** In every run, nothing is open exactly when no relay was ever overwritten, none is in the table,
      and no operation in flight holds a socket or a stream. */
  lemma {:induction false} NothingOpenExactly(self: PeerId, base: int, es: seq<Event>)
    ensures var w := After(Start(base), self, es);
            AllClosed(w) <==>
              && NoOverwrite(Start(base), self, es) && w.t.peers == map[]
              && forall tid :: tid in w.threads ==> HoldsNothing(w.threads[tid])
  {
    var w := After(Start(base), self, es);
    AccountsForever(self, base, es);
    if !NoOverwrite(Start(base), self, es) {
      OverwriteStaysOpen(self, base, es);
    } else if w.t.peers == map[] {
      NothingLeft(w);
    } else {
      var peer :| peer in w.t.peers;
      assert PortsOf(w)(InTable(peer)) == Some(w.t.peers[peer].port);
    }
    hide After, NoOverwrite;
  }

  /** No stream comes in and `AddPeer` is not called. */
  ghost predicate NothingBegins(es: seq<Event>) {
    forall i :: 0 <= i < |es| ==> !es[i].Incoming? && !es[i].Add?
  }

  /** The `Close` that follows the run `es` has closed all relays it took; meanwhile, and after that,
      `rest` has happened, in which nothing begins. */
  ghost predicate CloseOver(self: PeerId, base: int, es: seq<Event>, rest: seq<Event>) {
    var tid, w := After(Start(base), self, es).nextThread, After(Start(base), self, es + [Close] + rest);
    NothingBegins(rest) && tid in w.threads && Done(w.threads[tid])
  }

  /** Everything has finished but this `Close`. */
  ghost predicate OnlyLeft(w: World, tid: nat) {
    && w.t.peers == map[] && Accounts(w) && Sane(w) && tid < w.nextThread
    && forall k :: k in w.threads ==> if k == tid then w.threads[k].Closing? else Done(w.threads[k])
  }

  lemma {:induction false} OnlyLeftKept(w: World, self: PeerId, tid: nat, e: Event)
    requires OnlyLeft(w, tid) && !e.Incoming? && !e.Add?
    ensures OnlyLeft(Step(w, self, e), tid)
  {
    AccountsKeptExactly(w, self, e);
    SaneKept(w, self, e);
    assert !Overwrites(w, e);
    hide Accounts, Sane;
  }

  lemma {:induction false} OnlyLeftStays(w: World, self: PeerId, tid: nat, rest: seq<Event>)
    requires OnlyLeft(w, tid) && NothingBegins(rest)
    ensures OnlyLeft(After(w, self, rest), tid)
  {
    if rest != [] {
      OnlyLeftStays(w, self, tid, rest[..|rest| - 1]);
      OnlyLeftKept(After(w, self, rest[..|rest| - 1]), self, tid, rest[|rest| - 1]);
    }
  }

  lemma {:induction false} CloseLeavesOnly(w: World, self: PeerId)
    requires Sane(w) && Accounts(w) && forall tid :: tid in w.threads ==> Done(w.threads[tid])
    ensures OnlyLeft(Step(w, self, Close), w.nextThread)
  {
    SaneKept(w, self, Close);
    AccountsKeptExactly(w, self, Close);
    hide Accounts, Sane;
  }

  lemma {:induction false} OnlyLeftClosed(w: World, tid: nat)
    requires OnlyLeft(w, tid) && tid in w.threads && Done(w.threads[tid])
    ensures AllClosed(w)
  {
    NothingLeft(w);
    hide Accounts, Sane;
  }

  lemma {:induction false} DoneMeansClosed(self: PeerId, base: int, es: seq<Event>, rest: seq<Event>)
    requires NoOverwrite(Start(base), self, es) && CloseOver(self, base, es, rest)
    requires var w := After(Start(base), self, es); forall tid :: tid in w.threads ==> Done(w.threads[tid])
    ensures AllClosed(After(Start(base), self, es + [Close] + rest))
  {
    var w, w' := After(Start(base), self, es), After(Start(base), self, es + [Close] + rest);
    assert NothingBegins(rest) && w.nextThread in w'.threads && Done(w'.threads[w.nextThread]);
    hide *;
    AfterOneMore(Start(base), self, es, Close);
    AfterAppend(Start(base), self, es + [Close], rest);
    SaneForever(self, base, es);
    AccountsWithout(self, base, es);
    CloseLeavesOnly(w, self);
    OnlyLeftStays(Step(w, self, Close), self, w.nextThread, rest);
    OnlyLeftClosed(w', w.nextThread);
  }

  lemma Listed(ps: set<PeerId>) returns (order: seq<PeerId>)
    ensures forall p :: p in ps ==> p in order
  {
    order := [];
    var rest := ps;
    while rest != {}
      invariant forall p :: p in ps ==> p in order || p in rest
    {
      var p :| p in rest;
      order, rest := order + [p], rest - {p};
    }
  }

  lemma {:induction false} CloseAllBegins(tid: nat, order: seq<PeerId>)
    ensures NothingBegins(CloseAll(tid, order))
  {
    if order != [] {
      CloseAllBegins(tid, order[..|order| - 1]);
    }
  }

  /** A waiting operation that goes on binds a socket. */
  lemma {:induction false} WaitingBinds(w: World, self: PeerId, k: nat, tid: nat)
    requires k in w.threads && w.threads[k].Waiting? && tid in w.threads && Done(w.threads[tid])
    ensures var w' := Step(w, self, Resume(k, true));
            w'.t.bound != {} && tid in w'.threads && Done(w'.threads[tid])
  {
    assert w.t.nextPort in Step(w, self, Resume(k, true)).t.bound;
  }

  lemma {:induction false} CloseIsOver(self: PeerId, base: int, es: seq<Event>, order: seq<PeerId>)
    requires forall p :: p in After(Start(base), self, es).t.peers ==> p in order
    ensures CloseOver(self, base, es, CloseAll(After(Start(base), self, es).nextThread, order))
  {
    AfterClose(self, base, es, order);
    CloseAllBegins(After(Start(base), self, es).nextThread, order);
    hide After, NoOverwrite, CloseAll, Start;
  }

  /** An operation in flight at `Close` can end with something open. */
  lemma {:induction false} UndoneLeavesOpen(self: PeerId, base: int, es: seq<Event>, k: nat) returns (rest: seq<Event>)
    requires var w := After(Start(base), self, es); k in w.threads && !Done(w.threads[k])
    ensures CloseOver(self, base, es, rest) && !AllClosed(After(Start(base), self, es + [Close] + rest))
  {
    var w := After(Start(base), self, es);
    var order := Listed(w.t.peers.Keys);
    rest := CloseAll(w.nextThread, order);
    assert Closed(self, base, es, order) == es + [Close] + rest;
    SaneForever(self, base, es);
    assert k != w.nextThread;
    hide After, NoOverwrite, Closed, CloseAll, Start, CloseOver, Sane, AllClosed, Step;
    CloseIsOver(self, base, es, order);
    AfterClose(self, base, es, order);
    if w.threads[k].Waiting? {
      WaitingGoesOn(self, base, es, rest, k);
      rest := rest + [Resume(k, true)];
    } else {
      CloseExactly(self, base, es, order);
    }
  }

  lemma {:induction false} WaitingGoesOn(self: PeerId, base: int, es: seq<Event>, rest: seq<Event>, k: nat)
    requires CloseOver(self, base, es, rest)
    requires var w := After(Start(base), self, es + [Close] + rest); k in w.threads && w.threads[k].Waiting?
    ensures var more := rest + [Resume(k, true)];
            CloseOver(self, base, es, more) && !AllClosed(After(Start(base), self, es + [Close] + more))
  {
    var more := rest + [Resume(k, true)];
    AfterOneMore(Start(base), self, es + [Close] + rest, Resume(k, true));
    assert es + [Close] + more == es + [Close] + rest + [Resume(k, true)];
    hide After, Start, Step;
    WaitingBinds(After(Start(base), self, es + [Close] + rest), self, k, After(Start(base), self, es).nextThread);
  }

  /** As long as no stream comes in and `AddPeer` is not called, and however the operations in flight
      interleave with it, a `Close` that has closed its relays leaves nothing open, exactly when no
      relay was ever overwritten and all operations in flight at `Close` had finished: one that waits
      or attaches goes on to bind a socket of its own. */
  lemma {:induction false} ClosedUntilBegun(self: PeerId, base: int, es: seq<Event>)
    ensures var w := After(Start(base), self, es);
            (forall rest ::
               CloseOver(self, base, es, rest) ==> AllClosed(After(Start(base), self, es + [Close] + rest)))
            <==> NoOverwrite(Start(base), self, es) && forall tid :: tid in w.threads ==> Done(w.threads[tid])
  {
    var w := After(Start(base), self, es);
    hide *;
    if !(forall tid :: tid in w.threads ==> Done(w.threads[tid])) {
      var k :| k in w.threads && !Done(w.threads[k]);
      var rest := UndoneLeavesOpen(self, base, es, k);
    } else if NoOverwrite(Start(base), self, es) {
      forall rest | CloseOver(self, base, es, rest)
        ensures AllClosed(After(Start(base), self, es + [Close] + rest))
      {
        DoneMeansClosed(self, base, es, rest);
      }
    } else {
      var rest := OverwriteLeavesOpen(self, base, es);
    }
  }

  lemma {:induction false} OverwriteLeavesOpen(self: PeerId, base: int, es: seq<Event>) returns (rest: seq<Event>)
    requires !NoOverwrite(Start(base), self, es)
    ensures CloseOver(self, base, es, rest) && !AllClosed(After(Start(base), self, es + [Close] + rest))
  {
    var w := After(Start(base), self, es);
    var order := Listed(w.t.peers.Keys);
    rest := CloseAll(w.nextThread, order);
    assert Closed(self, base, es, order) == es + [Close] + rest;
    hide *;
    CloseIsOver(self, base, es, order);
    CloseExactly(self, base, es, order);
  }

  lemma {:induction false} HandlerSteps(self: PeerId, peer: PeerId, base: int, s: Stream)
    ensures var w0, e0, e1, e2 := Start(base), Incoming(peer, s), Close, Resume(0, true);
            var w1 := Step(w0, self, e0);
            var w2 := Step(w1, self, e1);
            && Step(w2, self, e2).t == Table(base + 1, map[peer := Relay(base, Some(s))], {base}, {s})
            && !Overwrites(w0, e0) && !Overwrites(w1, e1) && !Overwrites(w2, e2)
  {
    var w1 := Step(Start(base), self, Incoming(peer, s));
    assert w1.threads == map[0 := Attaching(peer, s)] && w1.t == Table(base, map[], {}, {s});
  }

  /** A stream handler between its two sections outlives `Close`: its relay, its socket and its stream
      are there afterwards, and no relay was overwritten. */
  lemma {:induction false} HandlerOutlivesClose(self: PeerId, peer: PeerId, base: int, s: Stream)
    ensures var es := [] + [Incoming(peer, s)] + [Close] + [Resume(0, true)];
            var t := After(Start(base), self, es).t;
            && t.bound == {base} && t.live == {s} && t.peers == map[peer := Relay(base, Some(s))]
            && NoOverwrite(Start(base), self, es)
  {
    var w0, e0, e1, e2 := Start(base), Incoming(peer, s), Close, Resume(0, true);
    assert NoOverwrite(w0, self, []) && After(w0, self, []) == w0;
    hide *;
    HandlerSteps(self, peer, base, s);
    AfterOneMore(w0, self, [], e0);
    AfterOneMore(w0, self, [] + [e0], e1);
    AfterOneMore(w0, self, [] + [e0] + [e1], e2);
    OneMoreNoOverwrite(w0, self, [], e0);
    OneMoreNoOverwrite(w0, self, [] + [e0], e1);
    OneMoreNoOverwrite(w0, self, [] + [e0] + [e1], e2);
  }

  /** But nothing is closed for good: whatever came before `Close`, and though it has closed all it took,
      the next stream gets a relay with a socket, since the handler is still in place. */
  lemma {:induction false} OpensAgain(
      self: PeerId, base: int, es: seq<Event>, order: seq<PeerId>, peer: PeerId, s: Stream)
    requires forall p :: p in After(Start(base), self, es).t.peers ==> p in order
    requires s !in After(Start(base), self, Closed(self, base, es, order)).seen
    ensures var es' := Closed(self, base, es, order);
            var w := After(Start(base), self, es');
            var t := After(Start(base), self, es' + [Incoming(peer, s)] + [Resume(w.nextThread, true)]).t;
            && t.peers == map[peer := Relay(w.t.nextPort, Some(s))]
            && t.bound == w.t.bound + {w.t.nextPort} && t.live == w.t.live + {s}
  {
    var es' := Closed(self, base, es, order);
    var w := After(Start(base), self, es');
    AfterClose(self, base, es, order);
    AfterOneMore(Start(base), self, es', Incoming(peer, s));
    AfterOneMore(Start(base), self, es' + [Incoming(peer, s)], Resume(w.nextThread, true));
    hide After, Closed, NoOverwrite;
    AttachesToEmpty(w, self, peer, s);
  }

  lemma {:induction false} AttachesToEmpty(w: World, self: PeerId, peer: PeerId, s: Stream)
    requires w.t.peers == map[] && s !in w.seen
    ensures Step(Step(w, self, Incoming(peer, s)), self, Resume(w.nextThread, true)).t ==
              Table(w.t.nextPort + 1, map[peer := Relay(w.t.nextPort, Some(s))],
                    w.t.bound + {w.t.nextPort}, w.t.live + {s})
  {
  }

  /** So even a bridge that was closed before anything happened. */
  lemma {:induction false} StreamAfterClose(self: PeerId, peer: PeerId, base: int, s: Stream)
    ensures var es := [] + [Close] + [Incoming(peer, s)] + [Resume(1, true)];
            var t := After(Start(base), self, es).t;
            && t.bound == {base} && t.live == {s} && t.peers == map[peer := Relay(base, Some(s))]
            && NoOverwrite(Start(base), self, es)
  {
    var w0, e0, e1, e2 := Start(base), Close, Incoming(peer, s), Resume(1, true);
    assert NoOverwrite(w0, self, []) && After(w0, self, []) == w0;
    hide After, NoOverwrite;
    AfterOneMore(w0, self, [], e0);
    AfterOneMore(w0, self, [] + [e0], e1);
    AfterOneMore(w0, self, [] + [e0] + [e1], e2);
    OneMoreNoOverwrite(w0, self, [], e0);
    OneMoreNoOverwrite(w0, self, [] + [e0], e1);
    OneMoreNoOverwrite(w0, self, [] + [e0] + [e1], e2);
    var w1 := Step(w0, self, e0);
    assert w1.nextThread == 1 && w1.t == w0.t && w1.seen == {};
    AttachesToEmpty(w1, self, peer, s);
    assert Step(w1, self, e1).threads[1] == Attaching(peer, s);
  }
}
