/** Two bridges of services/agent/internal/p2p/bridge.go that carry one pair of nodes: whether both
    ends come to hold the same live stream. */
module StreamAgreement {
  import opened Text
  import opened RelayTable

  /** One end. `waiting` counts the calls of `AddPeer` that have found no relay and have not allocated
      yet; `opening` are the streams that calls of `AddPeer` have opened and not attached yet;
      `handling` those that the stream handler has not attached yet because there was nothing to swap;
      `inbox` those that the other end opened and that have not reached the handler; `closing` those of
      relays that have left the table and are still to be closed; `reset` those that this end has reset
      or closed. */
  datatype End = End(
    table: Table, waiting: nat, opening: seq<Stream>, handling: seq<Stream>, inbox: seq<Stream>,
    closing: seq<Stream>, reset: set<Stream>)

  /** Streams are numbered in the order of opening; `openers` says who opened them. */
  datatype Sys = Sys(ends: map<PeerId, End>, openers: seq<PeerId>)

  /** At `at`, a call of `AddPeer` runs up to the point where it gives the mutex up, or call number `k`
      goes on from there; the handler takes stream number `k` of the inbox, or handler number `k` goes
      on; `RemovePeer` or `Close` takes the relay out of the table, or closes stream number `k` of those
      that were taken out. `bindOk` is whether a socket can be bound if one is needed. */
  datatype Event =
    | Add(at: PeerId)
    | AddGoesOn(at: PeerId, k: nat, bindOk: bool)
    | Deliver(at: PeerId, k: nat)
    | HandlerGoesOn(at: PeerId, k: nat, bindOk: bool)
    | Remove(at: PeerId)
    | CloseGoesOn(at: PeerId, k: nat)

  function Start(a: PeerId, b: PeerId, portA: int, portB: int): Sys {
    Sys(map[a := End(Table(portA, map[], {}, {}), 0, [], [], [], [], {}),
            b := End(Table(portB, map[], {}, {}), 0, [], [], [], [], {})], [])
  }

  /** The stream that the relay for `peer` holds. */
  function Held(t: Table, peer: PeerId): Option<Stream> {
    if peer in t.peers then t.peers[peer].stream else None
  }

  function Without<X>(xs: seq<X>, k: nat): seq<X>
    requires k < |xs|
  {
    xs[..k] + xs[k + 1..]
  }

  predicate BindFails(t: Table, peer: PeerId, bindOk: bool) {
    peer !in t.peers && !bindOk
  }

  /** The end attaches a stream to its relay, which resets the one it replaces; if a relay is needed and
      its socket cannot be bound, the stream itself goes. */
  function Attach(me: End, peer: PeerId, stream: Stream, bindOk: bool): End {
    me.(table := AttachStream(me.table, peer, stream, bindOk),
        reset := me.reset + if BindFails(me.table, peer, bindOk) then {stream} else Only(Held(me.table, peer)))
  }

  /** The relay leaves the table. */
  function Removed(me: End, peer: PeerId): End {
    var held := Held(me.table, peer);
    me.(table := me.table.(peers := me.table.peers - {peer}),
        closing := if held.Some? then me.closing + [held.value] else me.closing)
  }

  /** What the event does to the end `me` at which it happens; a stream that it opens has number `n`. */
  function AtEnd(me: End, peer: PeerId, e: Event, n: nat): End {
    match e
    case Add(at) =>
      if !Less(at, peer) then me.(opening := me.opening + [n])
      else if peer in me.table.peers then me
      else me.(waiting := me.waiting + 1)
    case AddGoesOn(at, k, bindOk) =>
      if !Less(at, peer) then
        if k < |me.opening| then Attach(me.(opening := Without(me.opening, k)), peer, me.opening[k], bindOk) else me
      else if me.waiting == 0 then me
      else me.(waiting := me.waiting - 1, table := AllocateWaiting(me.table, peer, bindOk).0)
    case Deliver(_, k) =>
      if k >= |me.inbox| then me
      else
        var me', stream := me.(inbox := Without(me.inbox, k)), me.inbox[k];
        if SwapsAtOnce(me.table, peer) then Attach(me', peer, stream, true)
        else me'.(handling := me.handling + [stream])
    case HandlerGoesOn(_, k, bindOk) =>
      if k < |me.handling| then Attach(me.(handling := Without(me.handling, k)), peer, me.handling[k], bindOk) else me
    case Remove(_) => Removed(me, peer)
    case CloseGoesOn(_, k) =>
      if k < |me.closing| then me.(closing := Without(me.closing, k), reset := me.reset + {me.closing[k]}) else me
  }

  /** The larger ID opens the stream. */
  predicate Opens(peer: PeerId, e: Event) {
    e.Add? && !Less(e.at, peer)
  }

  /** What an event at the other end does to the end `me`. */
  function Meanwhile(me: End, opens: bool, n: nat): End {
    if opens then me.(inbox := me.inbox + [n]) else me
  }

  function Step(s: Sys, a: PeerId, b: PeerId, e: Event): (s': Sys)
    requires a in s.ends && b in s.ends
    ensures s'.ends.Keys == s.ends.Keys
  {
    if e.at != a && e.at != b then s
    else
      var peer, n := if e.at == a then b else a, |s.openers|;
      Sys(s.ends[peer := Meanwhile(s.ends[peer], Opens(peer, e), n)][e.at := AtEnd(s.ends[e.at], peer, e, n)],
          if Opens(peer, e) then s.openers + [e.at] else s.openers)
  }

  /** A stream that one end has reset is dead at both. */
  function Dead(s: Sys, a: PeerId, b: PeerId): set<Stream>
    requires a in s.ends && b in s.ends
  {
    s.ends[a].reset + s.ends[b].reset
  }

  function After(s: Sys, a: PeerId, b: PeerId, es: seq<Event>): (s': Sys)
    requires a in s.ends && b in s.ends
    ensures a in s'.ends && b in s'.ends
  {
    if es == [] then s else Step(After(s, a, b, es[..|es| - 1]), a, b, es[|es| - 1])
  }

  lemma {:induction false} AfterOneMore(s: Sys, a: PeerId, b: PeerId, es: seq<Event>, e: Event)
    requires a in s.ends && b in s.ends
    ensures After(s, a, b, es + [e]) == Step(After(s, a, b, es), a, b, e)
  {
    assert (es + [e])[..|es|] == es;
  }

  /** With nothing in between, the sections of `AddPeer` make up the operation at this end. */
  lemma {:induction false} AddUninterrupted(me: End, at: PeerId, peer: PeerId, n: nat, bindOk: bool)
    ensures var me1 := AtEnd(me, peer, Add(at), n);
            if Before(at, peer) then
              if peer in me.table.peers then me1 == me
              else
                AtEnd(me1, peer, AddGoesOn(at, 0, bindOk), n)
                  == me.(table := AllocateWaiting(me.table, peer, bindOk).0)
            else AtEnd(me1, peer, AddGoesOn(at, |me.opening|, bindOk), n) == Attach(me, peer, n, bindOk)
  {
    LessIsBefore(at, peer);
    hide Less, Before, AllocateWaiting, AttachStream;
    assert Without(me.opening + [n], |me.opening|) == me.opening;
  }

  /** The two nodes play their parts by their IDs, not by the order in which they are named. */
  lemma {:induction false} NamingIrrelevant(a: PeerId, b: PeerId, portA: int, portB: int, es: seq<Event>)
    requires a != b
    ensures After(Start(a, b, portA, portB), a, b, es) == After(Start(b, a, portB, portA), b, a, es)
  {
    if es == [] {
    } else {
      NamingIrrelevant(a, b, portA, portB, es[..|es| - 1]);
    }
  }

  /** No stream is on its way to this end or at it, or about to be closed. */
  predicate Quiet(e: End) {
    e.opening == [] && e.handling == [] && e.inbox == [] && e.closing == []
  }

  // ---------- Where the streams are ----------

  /** The streams that this end has still to attach or to close. */
  function Pending(e: End): multiset<Stream> {
    multiset(e.opening) + multiset(e.handling) + multiset(e.inbox) + multiset(e.closing)
  }

  /** Of the first `n` streams each is in at most one place at this end: pending, held, or reset. */
  ghost predicate Placed(e: End, peer: PeerId, n: nat) {
    && (forall x :: x in Pending(e) ==>
          Pending(e)[x] == 1 && x < n && x !in e.reset && Held(e.table, peer) != Some(x))
    && (forall x :: x in e.reset ==> x < n && Held(e.table, peer) != Some(x))
    && (Held(e.table, peer).Some? ==> Held(e.table, peer).value < n)
  }

  /** And each of them is in one. */
  ghost predicate NoneLost(e: End, peer: PeerId, n: nat) {
    forall x: Stream :: x < n ==> x in Pending(e) || Held(e.table, peer) == Some(x) || x in e.reset
  }

  /** At the end `me` a waiting call replaces a relay that holds a stream. */
  predicate ForgetsAt(me: End, peer: PeerId, e: Event) {
    e.AddGoesOn? && Less(e.at, peer) && me.waiting > 0 && e.bindOk && Held(me.table, peer).Some?
  }

  predicate Forgets(s: Sys, a: PeerId, b: PeerId, e: Event)
    requires a in s.ends && b in s.ends
  {
    (e.at == a || e.at == b) && ForgetsAt(s.ends[e.at], if e.at == a then b else a, e)
  }

  ghost predicate NoneForgotten(s: Sys, a: PeerId, b: PeerId, es: seq<Event>)
    requires a in s.ends && b in s.ends
  {
    forall i :: 0 <= i < |es| ==> !Forgets(After(s, a, b, es[..i]), a, b, es[i])
  }

  lemma {:induction false} WithoutIsLess(xs: seq<Stream>, k: nat)
    requires k < |xs|
    ensures xs[k] in multiset(xs) && multiset(Without(xs, k)) == multiset(xs) - multiset{xs[k]}
  {
    assert xs == xs[..k] + [xs[k]] + xs[k + 1..];
  }

  lemma SumLess(a: multiset<Stream>, rest: multiset<Stream>, x: Stream)
    requires x in a
    ensures x in a + rest && (a - multiset{x}) + rest == (a + rest) - multiset{x}
  {
  }

  /** A stream is taken from where it waits. */
  lemma {:induction false} OpeningLess(me: End, k: nat)
    requires k < |me.opening|
    ensures me.opening[k] in Pending(me)
    ensures Pending(me.(opening := Without(me.opening, k))) == Pending(me) - multiset{me.opening[k]}
  {
    WithoutIsLess(me.opening, k);
    var rest := multiset(me.handling) + multiset(me.inbox) + multiset(me.closing);
    SumLess(multiset(me.opening), rest, me.opening[k]);
    assert Pending(me) == multiset(me.opening) + rest;
    assert Pending(me.(opening := Without(me.opening, k))) == multiset(Without(me.opening, k)) + rest;
    hide Pending, Without;
  }

  lemma {:induction false} HandlingLess(me: End, k: nat)
    requires k < |me.handling|
    ensures me.handling[k] in Pending(me)
    ensures Pending(me.(handling := Without(me.handling, k))) == Pending(me) - multiset{me.handling[k]}
  {
    WithoutIsLess(me.handling, k);
    var rest := multiset(me.opening) + multiset(me.inbox) + multiset(me.closing);
    SumLess(multiset(me.handling), rest, me.handling[k]);
    assert Pending(me) == multiset(me.handling) + rest;
    assert Pending(me.(handling := Without(me.handling, k))) == multiset(Without(me.handling, k)) + rest;
    hide Pending, Without;
  }

  lemma {:induction false} InboxLess(me: End, k: nat)
    requires k < |me.inbox|
    ensures me.inbox[k] in Pending(me)
    ensures Pending(me.(inbox := Without(me.inbox, k))) == Pending(me) - multiset{me.inbox[k]}
  {
    WithoutIsLess(me.inbox, k);
    var rest := multiset(me.opening) + multiset(me.handling) + multiset(me.closing);
    SumLess(multiset(me.inbox), rest, me.inbox[k]);
    assert Pending(me) == multiset(me.inbox) + rest;
    assert Pending(me.(inbox := Without(me.inbox, k))) == multiset(Without(me.inbox, k)) + rest;
    hide Pending, Without;
  }

  lemma {:induction false} ClosingLess(me: End, k: nat)
    requires k < |me.closing|
    ensures me.closing[k] in Pending(me)
    ensures Pending(me.(closing := Without(me.closing, k))) == Pending(me) - multiset{me.closing[k]}
  {
    WithoutIsLess(me.closing, k);
    var rest := multiset(me.opening) + multiset(me.handling) + multiset(me.inbox);
    SumLess(multiset(me.closing), rest, me.closing[k]);
    assert Pending(me) == multiset(me.closing) + rest;
    assert Pending(me.(closing := Without(me.closing, k))) == multiset(Without(me.closing, k)) + rest;
    hide Pending, Without;
  }

  lemma SamePending(e: End, e': End)
    requires e'.opening == e.opening && e'.handling == e.handling && e'.inbox == e.inbox && e'.closing == e.closing
    ensures Pending(e') == Pending(e)
  {
  }

  lemma {:induction false} AttachHolds(t: Table, peer: PeerId, stream: Stream, bindOk: bool)
    ensures Held(AttachStream(t, peer, stream, bindOk), peer) ==
              if BindFails(t, peer, bindOk) then Held(t, peer) else Some(stream)
    ensures BindFails(t, peer, bindOk) ==> Held(t, peer) == None
    ensures Held(AllocateWaiting(t, peer, bindOk).0, peer) == if bindOk then None else Held(t, peer)
  {
  }

  lemma {:induction false} OpeningPlaces(e: End, e': End, peer: PeerId, n: nat)
    requires Placed(e, peer, n) && e'.table == e.table && e'.reset == e.reset
    requires Pending(e') == Pending(e) + multiset{n}
    ensures Placed(e', peer, n + 1) && (NoneLost(e, peer, n) ==> NoneLost(e', peer, n + 1))
  {
  }

  lemma {:induction false} AttachingPlaces(e: End, e': End, peer: PeerId, n: nat, x: Stream)
    requires Placed(e, peer, n) && x in Pending(e) && Pending(e') == Pending(e) - multiset{x}
    requires Held(e'.table, peer) == Some(x) && e'.reset == e.reset + Only(Held(e.table, peer))
    ensures Placed(e', peer, n) && (NoneLost(e, peer, n) ==> NoneLost(e', peer, n))
  {
    assert forall y :: y in Pending(e) && y != x ==> y in Pending(e');
  }

  lemma {:induction false} DiscardingPlaces(e: End, e': End, peer: PeerId, n: nat, x: Stream)
    requires Placed(e, peer, n) && x in Pending(e) && Pending(e') == Pending(e) - multiset{x}
    requires Held(e'.table, peer) == Held(e.table, peer) && e'.reset == e.reset + {x}
    ensures Placed(e', peer, n) && (NoneLost(e, peer, n) ==> NoneLost(e', peer, n))
  {
    assert forall y :: y in Pending(e) && y != x ==> y in Pending(e');
  }

  lemma {:induction false} RemovingPlaces(e: End, e': End, peer: PeerId, n: nat)
    requires Placed(e, peer, n) && Held(e.table, peer).Some?
    requires Pending(e') == Pending(e) + multiset{Held(e.table, peer).value}
    requires Held(e'.table, peer) == None && e'.reset == e.reset
    ensures Placed(e', peer, n) && (NoneLost(e, peer, n) ==> NoneLost(e', peer, n))
  {
  }

  lemma {:induction false} StayingPlaces(e: End, e': End, peer: PeerId, n: nat)
    requires Placed(e, peer, n) && Pending(e') == Pending(e) && e'.reset == e.reset
    requires Held(e'.table, peer) == Held(e.table, peer) || Held(e'.table, peer) == None
    ensures Placed(e', peer, n)
    ensures NoneLost(e, peer, n) && Held(e'.table, peer) == Held(e.table, peer) ==> NoneLost(e', peer, n)
  {
  }

  lemma {:induction false} AddPlaces(me: End, peer: PeerId, at: PeerId, n: nat)
    requires Placed(me, peer, n)
    ensures var e := Add(at);
            var me', n' := AtEnd(me, peer, e, n), if Opens(peer, e) then n + 1 else n;
            Placed(me', peer, n') && (NoneLost(me, peer, n) ==> NoneLost(me', peer, n'))
  {
    var me', x: Stream := AtEnd(me, peer, Add(at), n), n;
    hide Placed, NoneLost, Held, Less;
    if Less(at, peer) {
      StayingPlaces(me, me', peer, n);
    } else {
      assert multiset(me'.opening) == multiset(me.opening) + multiset{x};
      OpeningPlaces(me, me', peer, n);
    }
  }

  /** Attaching stream `x`, taken from where it waited. */
  lemma {:induction false} AttachPlaces(me: End, e: End, peer: PeerId, n: nat, x: Stream, bindOk: bool)
    requires Placed(me, peer, n) && e.table == me.table && e.reset == me.reset
    requires x in Pending(me) && Pending(e) == Pending(me) - multiset{x}
    ensures var me' := Attach(e, peer, x, bindOk);
            Placed(me', peer, n) && (NoneLost(me, peer, n) ==> NoneLost(me', peer, n))
  {
    var me' := Attach(e, peer, x, bindOk);
    assert Pending(me') == Pending(e);
    AttachHolds(me.table, peer, x, bindOk);
    hide AttachStream, Placed, NoneLost, Pending, Held, BindFails;
    if BindFails(me.table, peer, bindOk) {
      DiscardingPlaces(me, me', peer, n, x);
    } else {
      AttachingPlaces(me, me', peer, n, x);
    }
  }

  lemma {:induction false} WaitingPlaces(me: End, peer: PeerId, at: PeerId, k: nat, bindOk: bool, n: nat)
    requires Placed(me, peer, n) && Less(at, peer)
    ensures var e := AddGoesOn(at, k, bindOk);
            var me' := AtEnd(me, peer, e, n);
            && Placed(me', peer, n)
            && (NoneLost(me, peer, n) && !ForgetsAt(me, peer, e) ==> NoneLost(me', peer, n))
  {
    hide AllocateWaiting, Placed, NoneLost, Less, Held;
    AttachHolds(me.table, peer, 0, bindOk);
    StayingPlaces(me, AtEnd(me, peer, AddGoesOn(at, k, bindOk), n), peer, n);
  }

  lemma {:induction false} OpenedPlaces(me: End, peer: PeerId, at: PeerId, k: nat, bindOk: bool, n: nat)
    requires Placed(me, peer, n) && !Less(at, peer)
    ensures var me' := AtEnd(me, peer, AddGoesOn(at, k, bindOk), n);
            Placed(me', peer, n) && (NoneLost(me, peer, n) ==> NoneLost(me', peer, n))
  {
    hide Attach, Placed, NoneLost, Less, Pending, Without;
    if k < |me.opening| {
      OpeningLess(me, k);
      AttachPlaces(me, me.(opening := Without(me.opening, k)), peer, n, me.opening[k], bindOk);
    }
  }

  lemma {:induction false} AddGoesOnPlaces(me: End, peer: PeerId, at: PeerId, k: nat, bindOk: bool, n: nat)
    requires Placed(me, peer, n)
    ensures var e := AddGoesOn(at, k, bindOk);
            var me' := AtEnd(me, peer, e, n);
            && Placed(me', peer, n)
            && (NoneLost(me, peer, n) && !ForgetsAt(me, peer, e) ==> NoneLost(me', peer, n))
  {
    hide *;
    if Less(at, peer) {
      WaitingPlaces(me, peer, at, k, bindOk, n);
    } else {
      OpenedPlaces(me, peer, at, k, bindOk, n);
    }
  }

  lemma {:induction false} DeliverPlaces(me: End, peer: PeerId, at: PeerId, k: nat, n: nat)
    requires Placed(me, peer, n)
    ensures var me' := AtEnd(me, peer, Deliver(at, k), n);
            Placed(me', peer, n) && (NoneLost(me, peer, n) ==> NoneLost(me', peer, n))
  {
    hide Attach, SwapsAtOnce, Placed, NoneLost, Held, Pending, Without;
    if k < |me.inbox| {
      if SwapsAtOnce(me.table, peer) {
        InboxLess(me, k);
        AttachPlaces(me, me.(inbox := Without(me.inbox, k)), peer, n, me.inbox[k], true);
      } else {
        StillPending(me, k);
        StayingPlaces(me, AtEnd(me, peer, Deliver(at, k), n), peer, n);
      }
    }
  }

  /** The handler takes a stream. */
  lemma {:induction false} StillPending(me: End, k: nat)
    requires k < |me.inbox|
    ensures Pending(me.(inbox := Without(me.inbox, k), handling := me.handling + [me.inbox[k]])) == Pending(me)
  {
    WithoutIsLess(me.inbox, k);
    assert multiset(me.handling + [me.inbox[k]]) == multiset(me.handling) + multiset{me.inbox[k]};
  }

  lemma {:induction false} HandlerPlaces(me: End, peer: PeerId, at: PeerId, k: nat, bindOk: bool, n: nat)
    requires Placed(me, peer, n)
    ensures var me' := AtEnd(me, peer, HandlerGoesOn(at, k, bindOk), n);
            Placed(me', peer, n) && (NoneLost(me, peer, n) ==> NoneLost(me', peer, n))
  {
    hide Attach, Placed, NoneLost, Pending, Without;
    if k < |me.handling| {
      HandlingLess(me, k);
      AttachPlaces(me, me.(handling := Without(me.handling, k)), peer, n, me.handling[k], bindOk);
    }
  }

  lemma {:induction false} RemovePlaces(me: End, peer: PeerId, n: nat)
    requires Placed(me, peer, n)
    ensures var me' := Removed(me, peer);
            Placed(me', peer, n) && (NoneLost(me, peer, n) ==> NoneLost(me', peer, n))
  {
    var me', held := Removed(me, peer), Held(me.table, peer);
    assert Held(me'.table, peer) == None;
    hide Placed, NoneLost, Held;
    if held.Some? {
      assert multiset(me'.closing) == multiset(me.closing) + multiset{held.value};
      RemovingPlaces(me, me', peer, n);
    } else {
      StayingPlaces(me, me', peer, n);
    }
  }

  lemma {:induction false} ClosePlaces(me: End, peer: PeerId, at: PeerId, k: nat, n: nat)
    requires Placed(me, peer, n)
    ensures var me' := AtEnd(me, peer, CloseGoesOn(at, k), n);
            Placed(me', peer, n) && (NoneLost(me, peer, n) ==> NoneLost(me', peer, n))
  {
    hide Placed, NoneLost, Held, Pending, Without;
    if k < |me.closing| {
      ClosingLess(me, k);
      var me', e := me.(closing := Without(me.closing, k)), AtEnd(me, peer, CloseGoesOn(at, k), n);
      SamePending(me', e);
      DiscardingPlaces(me, AtEnd(me, peer, CloseGoesOn(at, k), n), peer, n, me.closing[k]);
    }
  }

  lemma {:induction false} EventPlaces(me: End, peer: PeerId, e: Event, n: nat)
    requires Placed(me, peer, n)
    ensures var me', n' := AtEnd(me, peer, e, n), if Opens(peer, e) then n + 1 else n;
            Placed(me', peer, n') && (NoneLost(me, peer, n) && !ForgetsAt(me, peer, e) ==> NoneLost(me', peer, n'))
  {
    match e
    case Remove(_) =>
      RemovePlaces(me, peer, n);
      hide Removed, Placed, NoneLost;
    case _ =>
      hide AtEnd, Placed, NoneLost;
      match e
      case Add(at) => AddPlaces(me, peer, at, n);
      case AddGoesOn(at, k, bindOk) => AddGoesOnPlaces(me, peer, at, k, bindOk, n);
      case Deliver(at, k) => DeliverPlaces(me, peer, at, k, n);
      case HandlerGoesOn(at, k, bindOk) => HandlerPlaces(me, peer, at, k, bindOk, n);
      case CloseGoesOn(at, k) => ClosePlaces(me, peer, at, k, n);
      case Remove(_) =>
  }

  lemma {:induction false} MeanwhilePlaces(me: End, peer: PeerId, opens: bool, n: nat)
    requires Placed(me, peer, n)
    ensures var me', n' := Meanwhile(me, opens, n), if opens then n + 1 else n;
            Placed(me', peer, n') && (NoneLost(me, peer, n) ==> NoneLost(me', peer, n'))
  {
    if opens {
      var me', x: Stream := Meanwhile(me, opens, n), n;
      assert multiset(me'.inbox) == multiset(me.inbox) + multiset{x};
      OpeningPlaces(me, me', peer, n);
    }
  }

  /** Both ends have all streams in at most one place, and the larger ID has lost none; the smaller has
      lost none either, if `kept`. */
  ghost predicate AllPlaced(s: Sys, lo: PeerId, hi: PeerId, kept: bool) {
    && s.ends.Keys == {lo, hi}
    && Placed(s.ends[lo], hi, |s.openers|) && Placed(s.ends[hi], lo, |s.openers|)
    && NoneLost(s.ends[hi], lo, |s.openers|) && (kept ==> NoneLost(s.ends[lo], hi, |s.openers|))
    && (forall i :: 0 <= i < |s.openers| ==> s.openers[i] == hi)
  }

  lemma {:induction false} StepsEnds(s: Sys, lo: PeerId, hi: PeerId, e: Event, peer: PeerId)
    requires lo in s.ends && hi in s.ends && lo != hi && (e.at == lo || e.at == hi)
    requires peer == if e.at == lo then hi else lo
    ensures var s', n := Step(s, lo, hi, e), |s.openers|;
            && s'.ends[e.at] == AtEnd(s.ends[e.at], peer, e, n)
            && s'.ends[peer] == Meanwhile(s.ends[peer], Opens(peer, e), n)
            && s'.openers == (if Opens(peer, e) then s.openers + [e.at] else s.openers)
            && s'.ends.Keys == s.ends.Keys
  {
    hide AtEnd, Meanwhile, Opens;
  }

  /** This survives every step, except that a waiting call which replaces a relay with a stream makes
      the smaller ID lose one. */
  lemma {:induction false} PlacedKept(s: Sys, lo: PeerId, hi: PeerId, e: Event, kept: bool)
    requires Less(lo, hi) && AllPlaced(s, lo, hi, kept)
    ensures AllPlaced(Step(s, lo, hi, e), lo, hi, kept && !Forgets(s, lo, hi, e))
  {
    LessTotal(lo, hi);
    hide Placed, NoneLost, AtEnd, Meanwhile, Less, Start;
    if e.at == lo || e.at == hi {
      var peer, n := if e.at == lo then hi else lo, |s.openers|;
      EventPlaces(s.ends[e.at], peer, e, n);
      MeanwhilePlaces(s.ends[peer], e.at, Opens(peer, e), n);
      StepsEnds(s, lo, hi, e, peer);
      hide Step;
    }
  }

  lemma {:induction false} PlacedForever(lo: PeerId, hi: PeerId, portLo: int, portHi: int, es: seq<Event>)
    requires Less(lo, hi)
    ensures var s := Start(lo, hi, portLo, portHi);
            AllPlaced(After(s, lo, hi, es), lo, hi, NoneForgotten(s, lo, hi, es))
  {
    LessTotal(lo, hi);
    if es != [] {
      var front, s := es[..|es| - 1], Start(lo, hi, portLo, portHi);
      assert forall i :: 0 <= i <= |front| ==> front[..i] == es[..i];
      PlacedForever(lo, hi, portLo, portHi, front);
      PlacedKept(After(s, lo, hi, front), lo, hi, es[|es| - 1], NoneForgotten(s, lo, hi, front));
      hide Placed, NoneLost, Step, Less, Forgets, Start;
    }
  }

  // ---------- When the ends agree ----------

  /** The stream that the event attaches at the end `me`. */
  function AttachesAt(me: End, peer: PeerId, e: Event): Option<Stream> {
    match e
    case AddGoesOn(at, k, bindOk) =>
      if !Less(at, peer) && k < |me.opening| && !BindFails(me.table, peer, bindOk) then Some(me.opening[k]) else None
    case Deliver(_, k) => if k < |me.inbox| && SwapsAtOnce(me.table, peer) then Some(me.inbox[k]) else None
    case HandlerGoesOn(_, k, bindOk) =>
      if k < |me.handling| && !BindFails(me.table, peer, bindOk) then Some(me.handling[k]) else None
    case _ => None
  }

  /** The stream that `at` has attached last in the run, unless its relay has been removed since, or a
      waiting call has made it forget the stream. */
  function LastAttached(s: Sys, a: PeerId, b: PeerId, es: seq<Event>, at: PeerId): Option<Stream>
    requires a in s.ends && b in s.ends && (at == a || at == b)
  {
    if es == [] then None
    else
      var front, e := es[..|es| - 1], es[|es| - 1];
      var me, peer := After(s, a, b, front).ends[at], if at == a then b else a;
      if e.at == at && AttachesAt(me, peer, e).Some? then AttachesAt(me, peer, e)
      else if e.at == at && (ForgetsAt(me, peer, e) || e.Remove?) then None
      else LastAttached(s, a, b, front, at)
  }

  lemma {:induction false} HeldAfterEvent(me: End, peer: PeerId, e: Event, n: nat)
    ensures Held(AtEnd(me, peer, e, n).table, peer) ==
              if AttachesAt(me, peer, e).Some? then AttachesAt(me, peer, e)
              else if ForgetsAt(me, peer, e) || e.Remove? then None
              else Held(me.table, peer)
  {
    if e.Remove? {
    } else {
      var bindOk := if e.AddGoesOn? || e.HandlerGoesOn? then e.bindOk else true;
      var x := match e
        case AddGoesOn(_, k, _) => if k < |me.opening| then me.opening[k] else 0
        case Deliver(_, k) => if k < |me.inbox| then me.inbox[k] else 0
        case HandlerGoesOn(_, k, _) => if k < |me.handling| then me.handling[k] else 0
        case _ => 0;
      AttachHolds(me.table, peer, x, bindOk);
      SwapsHeld(me.table, peer);
      hide AttachStream, AllocateWaiting, Less, SwapsAtOnce, Held, BindFails;
    }
  }

  lemma SwapsHeld(t: Table, peer: PeerId)
    ensures SwapsAtOnce(t, peer) ==> !BindFails(t, peer, true)
  {
  }

  lemma {:induction false} HeldIsLast(a: PeerId, b: PeerId, portA: int, portB: int, es: seq<Event>, at: PeerId)
    requires a != b && (at == a || at == b)
    ensures var s := Start(a, b, portA, portB);
            && After(s, a, b, es).ends.Keys == {a, b}
            && Held(After(s, a, b, es).ends[at].table, if at == a then b else a) == LastAttached(s, a, b, es, at)
  {
    if es != [] {
      var front, s := es[..|es| - 1], Start(a, b, portA, portB);
      HeldIsLast(a, b, portA, portB, front, at);
      var s', e, peer := After(s, a, b, front), es[|es| - 1], if at == a then b else a;
      HeldAfterEvent(s'.ends[at], peer, e, |s'.openers|);
      hide Held, AtEnd, Start, AttachesAt, ForgetsAt;
    }
  }

  /** Both ends hold the same stream, and it is alive. */
  ghost predicate Agree(s: Sys, lo: PeerId, hi: PeerId)
    requires lo in s.ends && hi in s.ends
  {
    var x := Held(s.ends[lo].table, hi);
    x.Some? && x == Held(s.ends[hi].table, lo) && x.value !in Dead(s, lo, hi)
  }

  /** Both ends hold streams, and both are dead. */
  ghost predicate BothDead(s: Sys, lo: PeerId, hi: PeerId)
    requires lo in s.ends && hi in s.ends
  {
    var x, y := Held(s.ends[lo].table, hi), Held(s.ends[hi].table, lo);
    x.Some? && x.value in Dead(s, lo, hi) && y.Some? && y.value in Dead(s, lo, hi)
  }

  /** In every run, a stream that both ends hold is alive. */
  lemma {:induction false} CommonIsAlive(lo: PeerId, hi: PeerId, portLo: int, portHi: int, es: seq<Event>)
    requires Less(lo, hi)
    ensures var s := After(Start(lo, hi, portLo, portHi), lo, hi, es);
            var x, y := Held(s.ends[lo].table, hi), Held(s.ends[hi].table, lo);
            Agree(s, lo, hi) <==> x.Some? && x == y
  {
    PlacedForever(lo, hi, portLo, portHi, es);
    hide After, Start, Held, NoneForgotten, Less, NoneLost;
  }

  /** At rest, an end that has lost nothing has reset all streams but the one it holds. */
  lemma {:induction false} AtRest(e: End, peer: PeerId, n: nat)
    requires Quiet(e) && NoneLost(e, peer, n)
    ensures forall x: Stream :: x < n ==> Held(e.table, peer) == Some(x) || x in e.reset
  {
    assert Pending(e) == multiset{};
  }

  /** For every interleaving of two nodes, `lo` having the smaller ID, with failing binds and removals:
      they agree exactly when both have attached some stream and both the same one last. If they do not
      agree and no stream is on its way or to be closed, the smaller holds none or a dead one. */
  lemma {:induction false} AgreementExactly(lo: PeerId, hi: PeerId, portLo: int, portHi: int, es: seq<Event>)
    requires Less(lo, hi)
    ensures var s0 := Start(lo, hi, portLo, portHi);
            var s := After(s0, lo, hi, es);
            var x, y := LastAttached(s0, lo, hi, es, lo), LastAttached(s0, lo, hi, es, hi);
            && (Agree(s, lo, hi) <==> x.Some? && x == y)
            && (Quiet(s.ends[lo]) && Quiet(s.ends[hi]) && x.Some? && x != y ==> x.value in Dead(s, lo, hi))
  {
    LessTotal(lo, hi);
    HeldIsLast(lo, hi, portLo, portHi, es, lo);
    HeldIsLast(lo, hi, portLo, portHi, es, hi);
    PlacedForever(lo, hi, portLo, portHi, es);
    CommonIsAlive(lo, hi, portLo, portHi, es);
    var s := After(Start(lo, hi, portLo, portHi), lo, hi, es);
    if Quiet(s.ends[hi]) {
      AtRest(s.ends[hi], lo, |s.openers|);
    }
    hide After, Start, LastAttached, Held, NoneForgotten, Agree, NoneLost, Less;
  }

  /** If no waiting call has replaced a relay with a stream, then at rest a stream that one end holds is
      alive exactly when the other holds it, too. */
  lemma {:induction false} AliveExactlyIfCommon(lo: PeerId, hi: PeerId, portLo: int, portHi: int, es: seq<Event>)
    requires Less(lo, hi) && NoneForgotten(Start(lo, hi, portLo, portHi), lo, hi, es)
    requires var s := After(Start(lo, hi, portLo, portHi), lo, hi, es); Quiet(s.ends[lo]) && Quiet(s.ends[hi])
    ensures var s := After(Start(lo, hi, portLo, portHi), lo, hi, es);
            var x, y := Held(s.ends[lo].table, hi), Held(s.ends[hi].table, lo);
            && (x.Some? ==> (x.value !in Dead(s, lo, hi) <==> x == y))
            && (y.Some? ==> (y.value !in Dead(s, lo, hi) <==> x == y))
  {
    PlacedForever(lo, hi, portLo, portHi, es);
    CommonIsAlive(lo, hi, portLo, portHi, es);
    var s := After(Start(lo, hi, portLo, portHi), lo, hi, es);
    AtRest(s.ends[lo], hi, |s.openers|);
    AtRest(s.ends[hi], lo, |s.openers|);
    hide After, Start, Held, NoneForgotten, NoneLost, Less;
  }

  // ---------- When both ends hold a stream ----------

  /** Nothing is removed and no bind fails. */
  predicate Smooth(e: Event) {
    !e.Remove? && (e.AddGoesOn? || e.HandlerGoesOn? ==> e.bindOk)
  }

  ghost predicate AllSmooth(es: seq<Event>, at: PeerId) {
    forall i :: 0 <= i < |es| && es[i].at == at ==> Smooth(es[i])
  }

  /** Nothing is to be closed, and once a stream was reset, one is held. */
  ghost predicate Holding(e: End, peer: PeerId) {
    e.closing == [] && (e.reset != {} ==> Held(e.table, peer).Some?)
  }

  lemma {:induction false} HoldingKept(me: End, peer: PeerId, e: Event, n: nat)
    requires Holding(me, peer) && Smooth(e) && !ForgetsAt(me, peer, e)
    ensures Holding(AtEnd(me, peer, e, n), peer)
  {
    HeldAfterEvent(me, peer, e, n);
    hide AttachStream, AllocateWaiting, Less, Held;
  }

  lemma {:induction false} HoldingForever(
      a: PeerId, b: PeerId, portA: int, portB: int, es: seq<Event>, at: PeerId)
    requires a != b && (at == a || at == b) && AllSmooth(es, at)
    requires NoneForgotten(Start(a, b, portA, portB), a, b, es) || !Less(at, if at == a then b else a)
    ensures Holding(After(Start(a, b, portA, portB), a, b, es).ends[at], if at == a then b else a)
  {
    if es != [] {
      var front, e, s := es[..|es| - 1], es[|es| - 1], Start(a, b, portA, portB);
      var s', peer := After(s, a, b, front), if at == a then b else a;
      assert forall i :: 0 <= i <= |front| ==> front[..i] == es[..i];
      assert AllSmooth(front, at);
      HoldingForever(a, b, portA, portB, front, at);
      EndsStay(a, b, portA, portB, front);
      if e.at == at {
        assert !ForgetsAt(s'.ends[at], peer, e);
        HoldingKept(s'.ends[at], peer, e, |s'.openers|);
      }
      hide Holding, AtEnd, Less, ForgetsAt, Start, NoneForgotten, AllSmooth;
      HoldingMeanwhile(s', a, b, e, at, peer);
    }
  }

  lemma {:induction false} EndsStay(a: PeerId, b: PeerId, portA: int, portB: int, es: seq<Event>)
    ensures After(Start(a, b, portA, portB), a, b, es).ends.Keys == {a, b}
  {
    if es != [] {
      EndsStay(a, b, portA, portB, es[..|es| - 1]);
    }
  }

  lemma {:induction false} HoldingMeanwhile(s: Sys, a: PeerId, b: PeerId, e: Event, at: PeerId, peer: PeerId)
    requires s.ends.Keys == {a, b} && a != b && (at == a || at == b) && peer == if at == a then b else a
    requires Holding(s.ends[at], peer)
    requires e.at == at ==> Holding(AtEnd(s.ends[at], peer, e, |s.openers|), peer)
    ensures Holding(Step(s, a, b, e).ends[at], peer)
  {
    hide AtEnd, Held;
  }

  /** If moreover a stream was opened and no bind has failed and nothing was removed, then both ends
      hold streams, and either they agree or both streams are dead. For the larger ID alone to hold one
      it is enough that nothing failed or was removed there. */
  lemma {:induction false} AgreeOrBothDead(lo: PeerId, hi: PeerId, portLo: int, portHi: int, es: seq<Event>)
    requires Less(lo, hi) && AllSmooth(es, hi)
    requires var s := After(Start(lo, hi, portLo, portHi), lo, hi, es);
             s.openers != [] && Quiet(s.ends[lo]) && Quiet(s.ends[hi])
    ensures var s0 := Start(lo, hi, portLo, portHi);
            var s := After(s0, lo, hi, es);
            && Held(s.ends[hi].table, lo).Some?
            && (AllSmooth(es, lo) && NoneForgotten(s0, lo, hi, es) ==>
                  Held(s.ends[lo].table, hi).Some? && (Agree(s, lo, hi) <==> !BothDead(s, lo, hi)))
  {
    LessTotal(lo, hi);
    PlacedForever(lo, hi, portLo, portHi, es);
    var s0 := Start(lo, hi, portLo, portHi);
    var s := After(s0, lo, hi, es);
    hide After, Start, Held, NoneForgotten, NoneLost, Less, AllSmooth, Placed;
    HoldingForever(lo, hi, portLo, portHi, es, hi);
    HoldsSome(s.ends[hi], lo, |s.openers|);
    if AllSmooth(es, lo) && NoneForgotten(s0, lo, hi, es) {
      HoldingForever(lo, hi, portLo, portHi, es, lo);
      HoldsSome(s.ends[lo], hi, |s.openers|);
      AliveExactlyIfCommon(lo, hi, portLo, portHi, es);
    }
  }

  lemma {:induction false} HoldsSome(e: End, peer: PeerId, n: nat)
    requires Quiet(e) && NoneLost(e, peer, n) && Holding(e, peer) && n > 0
    ensures Held(e.table, peer).Some?
  {
    AtRest(e, peer, n);
    var first: Stream := 0;
    assert Held(e.table, peer) == Some(first) || first in e.reset;
  }
}
