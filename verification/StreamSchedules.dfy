/** Runs of the pair of bridges: a schedule under which both ends come to hold the latest stream, and
    the races in which they do not. */
module StreamSchedules {
  import opened Text
  import opened RelayTable
  import opened StreamAgreement

  // ---------- An orderly schedule ----------

  /** No bind fails and nothing is removed; at one end, calls of `AddPeer` do not overlap; streams are
      handled one by one in the order in which they were opened; and no relay appears between the check
      of a waiting call and its own allocation. */
  ghost predicate Orderly(s: Sys, a: PeerId, b: PeerId, e: Event)
    requires a in s.ends && b in s.ends
  {
    (e.at == a || e.at == b) ==>
      var me, peer := s.ends[e.at], if e.at == a then b else a;
      Smooth(e) &&
      match e
      case Add(_) => me.opening == []
      case AddGoesOn(_, _, _) => me.waiting > 0 ==> peer !in me.table.peers
      case Deliver(_, k) => k == 0 && me.handling == []
      case _ => true
  }

  ghost predicate AllOrderly(s: Sys, a: PeerId, b: PeerId, es: seq<Event>)
    requires a in s.ends && b in s.ends
  {
    forall i :: 0 <= i < |es| ==> Orderly(After(s, a, b, es[..i]), a, b, es[i])
  }

  /** The end holds the latest of the first `n` streams. */
  ghost predicate HoldsLatestOf(t: Table, peer: PeerId, n: nat) {
    Held(t, peer) == if n == 0 then None else Some(n - 1)
  }

  /** The larger ID has opened `n` streams and attached all of them but perhaps the last. */
  ghost predicate OpenerInv(e: End, peer: PeerId, n: nat) {
    && e.inbox == [] && e.handling == [] && e.closing == [] && e.waiting == 0
    && (e.opening == [] || (n > 0 && e.opening == [n - 1]))
    && HoldsLatestOf(e.table, peer, n - |e.opening|)
  }

  /** The smaller ID has attached those it was delivered, but perhaps the last. */
  ghost predicate AcceptorInv(e: End, peer: PeerId, n: nat) {
    && e.opening == [] && e.closing == [] && |e.inbox| <= n
    && (forall i :: 0 <= i < |e.inbox| ==> e.inbox[i] == n - |e.inbox| + i)
    && (e.handling == [] || (n > |e.inbox| && e.handling == [n - |e.inbox| - 1]))
    && HoldsLatestOf(e.table, peer, n - |e.inbox| - |e.handling|)
  }

  ghost predicate Inv(s: Sys, lo: PeerId, hi: PeerId) {
    && s.ends.Keys == {lo, hi}
    && OpenerInv(s.ends[hi], lo, |s.openers|) && AcceptorInv(s.ends[lo], hi, |s.openers|)
  }

  lemma {:induction false} OpenerKeeps(me: End, lo: PeerId, hi: PeerId, e: Event, n: nat)
    requires Less(lo, hi) && !Less(hi, lo) && e.at == hi && OpenerInv(me, lo, n) && Smooth(e)
    requires e.Add? ==> me.opening == []
    ensures OpenerInv(AtEnd(me, lo, e, n), lo, if Opens(lo, e) then n + 1 else n)
  {
    hide AttachStream, AllocateWaiting, Less, SwapsAtOnce;
    if e.AddGoesOn? && e.k < |me.opening| {
      AttachHolds(me.table, lo, me.opening[0], true);
      assert Without(me.opening, 0) == [];
    }
  }

  lemma {:induction false} AcceptorSees(me: End, hi: PeerId, opens: bool, n: nat)
    requires AcceptorInv(me, hi, n)
    ensures AcceptorInv(Meanwhile(me, opens, n), hi, if opens then n + 1 else n)
  {
  }

  lemma {:induction false} AcceptorTakes(me: End, hi: PeerId, at: PeerId, n: nat)
    requires AcceptorInv(me, hi, n) && me.handling == []
    ensures AcceptorInv(AtEnd(me, hi, Deliver(at, 0), n), hi, n)
  {
    hide AttachStream, SwapsAtOnce;
    if me.inbox != [] {
      AttachHolds(me.table, hi, me.inbox[0], true);
      assert Without(me.inbox, 0) == me.inbox[1..];
    }
  }

  lemma {:induction false} AcceptorAttaches(me: End, hi: PeerId, at: PeerId, k: nat, n: nat)
    requires AcceptorInv(me, hi, n)
    ensures AcceptorInv(AtEnd(me, hi, HandlerGoesOn(at, k, true), n), hi, n)
  {
    hide AttachStream;
    if k < |me.handling| {
      AttachHolds(me.table, hi, me.handling[0], true);
      assert Without(me.handling, 0) == [];
    }
  }

  lemma {:induction false} AcceptorWaits(me: End, hi: PeerId, at: PeerId, k: nat, n: nat)
    requires AcceptorInv(me, hi, n) && Less(at, hi) && (me.waiting > 0 ==> hi !in me.table.peers)
    ensures AcceptorInv(AtEnd(me, hi, AddGoesOn(at, k, true), n), hi, n)
  {
    AttachHolds(me.table, hi, 0, true);
    hide AllocateWaiting, Less;
  }

  lemma {:induction false} AcceptorKeeps(me: End, lo: PeerId, hi: PeerId, e: Event, n: nat)
    requires Less(lo, hi) && e.at == lo && AcceptorInv(me, hi, n) && Smooth(e)
    requires e.AddGoesOn? && me.waiting > 0 ==> hi !in me.table.peers
    requires e.Deliver? ==> e.k == 0 && me.handling == []
    ensures !Opens(hi, e) && AcceptorInv(AtEnd(me, hi, e, n), hi, n)
  {
    match e
    case Add(_) =>
    case AddGoesOn(_, k, _) =>
      hide AtEnd, AcceptorInv;
      AcceptorWaits(me, hi, lo, k, n);
    case Deliver(_, _) =>
      hide AtEnd, AcceptorInv;
      AcceptorTakes(me, hi, lo, n);
    case HandlerGoesOn(_, k, _) =>
      hide AtEnd, AcceptorInv;
      AcceptorAttaches(me, hi, lo, k, n);
    case CloseGoesOn(_, _) =>
  }

  /** In an orderly step the larger ID has attached all streams but perhaps the last, and the smaller
      holds the latest one that it was delivered. */
  lemma {:induction false} InvKept(s: Sys, lo: PeerId, hi: PeerId, e: Event)
    requires Less(lo, hi) && Inv(s, lo, hi) && Orderly(s, lo, hi, e)
    ensures Inv(Step(s, lo, hi, e), lo, hi)
  {
    LessTotal(lo, hi);
    hide OpenerInv, AcceptorInv, AtEnd, Meanwhile, Less;
    if e.at == hi {
      OpenerKeeps(s.ends[hi], lo, hi, e, |s.openers|);
      AcceptorSees(s.ends[lo], hi, Opens(lo, e), |s.openers|);
      StepsEnds(s, lo, hi, e, lo);
      hide Step;
    } else if e.at == lo {
      AcceptorKeeps(s.ends[lo], lo, hi, e, |s.openers|);
      StepsEnds(s, lo, hi, e, hi);
      assert Meanwhile(s.ends[hi], false, |s.openers|) == s.ends[hi] by { Unmoved(s.ends[hi], |s.openers|); }
      hide Step;
    }
  }

  lemma Unmoved(me: End, n: nat)
    ensures Meanwhile(me, false, n) == me
  {
  }

  lemma {:induction false} InvForever(lo: PeerId, hi: PeerId, portLo: int, portHi: int, es: seq<Event>)
    requires Less(lo, hi) && AllOrderly(Start(lo, hi, portLo, portHi), lo, hi, es)
    ensures Inv(After(Start(lo, hi, portLo, portHi), lo, hi, es), lo, hi)
  {
    LessTotal(lo, hi);
    if es != [] {
      var front, s := es[..|es| - 1], Start(lo, hi, portLo, portHi);
      assert forall i :: 0 <= i <= |front| ==> front[..i] == es[..i];
      InvForever(lo, hi, portLo, portHi, front);
      InvKept(After(s, lo, hi, front), lo, hi, es[|es| - 1]);
      hide Inv, Step, Less, Orderly;
    }
  }

  /** In every orderly run, whenever some stream was opened and none is on its way, both ends agree on
      the latest one. */
  lemma {:induction false} Agreement(lo: PeerId, hi: PeerId, portLo: int, portHi: int, es: seq<Event>)
    requires Less(lo, hi) && AllOrderly(Start(lo, hi, portLo, portHi), lo, hi, es)
    ensures var s := After(Start(lo, hi, portLo, portHi), lo, hi, es);
            s.openers != [] && Quiet(s.ends[lo]) && Quiet(s.ends[hi]) ==>
              Agree(s, lo, hi) && Held(s.ends[lo].table, hi) == Some(|s.openers| - 1)
  {
    InvForever(lo, hi, portLo, portHi, es);
    CommonIsAlive(lo, hi, portLo, portHi, es);
    hide After, Start, Held, Less, AllOrderly, Agree;
  }

  // ---------- Each condition is needed ----------

  /** Two calls of `AddPeer` that each open a stream and attach it: one after the other, or overlapping
      so that the second goes on first. */
  function Opening(hi: PeerId, overlap: bool): seq<Event> {
    if overlap then [] + [Add(hi)] + [Add(hi)] + [AddGoesOn(hi, 1, true)] + [AddGoesOn(hi, 0, true)]
    else [] + [Add(hi)] + [AddGoesOn(hi, 0, true)] + [Add(hi)] + [AddGoesOn(hi, 0, true)]
  }

  /** The two streams are handled: in order, or the second first. */
  function Handling(lo: PeerId, reorder: bool): seq<Event> {
    [] + [Deliver(lo, if reorder then 1 else 0)] + [HandlerGoesOn(lo, 0, true)] + [Deliver(lo, 0)]
  }

  lemma {:induction false} AfterAppend(s: Sys, a: PeerId, b: PeerId, es: seq<Event>, es': seq<Event>)
    requires a in s.ends && b in s.ends
    ensures After(s, a, b, es + es') == After(After(s, a, b, es), a, b, es')
  {
    if es' == [] {
      assert es + es' == es;
    } else {
      assert (es + es')[..|es + es'| - 1] == es + es'[..|es'| - 1];
      AfterAppend(s, a, b, es, es'[..|es'| - 1]);
    }
  }

  /** One more event at `e.at`. */
  lemma {:induction false} OneMore(s: Sys, lo: PeerId, hi: PeerId, es: seq<Event>, e: Event, peer: PeerId)
    requires lo in s.ends && hi in s.ends && lo != hi && (e.at == lo || e.at == hi)
    requires peer == if e.at == lo then hi else lo
    ensures var s', s'' := After(s, lo, hi, es), After(s, lo, hi, es + [e]);
            var n := |s'.openers|;
            && s''.ends[e.at] == AtEnd(s'.ends[e.at], peer, e, n)
            && s''.ends[peer] == Meanwhile(s'.ends[peer], Opens(peer, e), n)
            && s''.openers == (if Opens(peer, e) then s'.openers + [e.at] else s'.openers)
  {
    AfterOneMore(s, lo, hi, es, e);
    StepsEnds(After(s, lo, hi, es), lo, hi, e, peer);
    hide *;
  }

  /** The smaller ID has two streams to come, and the larger holds stream `x`. */
  ghost predicate TwoOpened(s: Sys, lo: PeerId, hi: PeerId, x: Stream)
    requires lo in s.ends && hi in s.ends
  {
    && |s.openers| == 2 && Quiet(s.ends[hi]) && Held(s.ends[hi].table, lo) == Some(x)
    && s.ends[lo].opening == s.ends[lo].handling == s.ends[lo].closing == []
    && s.ends[lo].inbox == [0, 1] && hi !in s.ends[lo].table.peers
  }

  /** Streams 0 and 1 of the larger ID: opened by overlapping calls, or one after the other. */
  lemma {:induction false} OpensTwo(me: End, lo: PeerId, hi: PeerId)
    requires !Less(hi, lo) && Quiet(me)
    ensures var me1 := AtEnd(me, lo, Add(hi), 0);
            var me2 := AtEnd(me1, lo, AddGoesOn(hi, 0, true), 1);
            var me3 := AtEnd(me2, lo, Add(hi), 1);
            var me4 := AtEnd(me3, lo, AddGoesOn(hi, 0, true), 2);
            Quiet(me4) && Held(me4.table, lo) == Some(1)
    ensures var me1 := AtEnd(me, lo, Add(hi), 0);
            var me2 := AtEnd(me1, lo, Add(hi), 1);
            var me3 := AtEnd(me2, lo, AddGoesOn(hi, 1, true), 2);
            var me4 := AtEnd(me3, lo, AddGoesOn(hi, 0, true), 2);
            Quiet(me4) && Held(me4.table, lo) == Some(0)
  {
    assert Without([0], 0) == [] && Without([1], 0) == [] && Without([0, 1], 1) == [0];
    assert [] + [0] == [0] && [] + [1] == [1] && [] + [0] + [1] == [0, 1];
    forall t: Table, x: Stream ensures Held(AttachStream(t, lo, x, true), lo) == Some(x) {
      AttachHolds(t, lo, x, true);
    }
    hide AttachStream, Less, Held;
  }

  /** Events at the larger ID, two of which open streams. */
  lemma {:induction false} FourMore(s: Sys, lo: PeerId, hi: PeerId, e0: Event, e1: Event, e2: Event, e3: Event)
    requires lo != hi && !Less(hi, lo) && s.ends.Keys == {lo, hi} && s.openers == []
    requires e0.at == e1.at == e2.at == e3.at == hi && e0.Add? && !e3.Add? && (e1.Add? <==> !e2.Add?)
    ensures var s' := After(s, lo, hi, [] + [e0] + [e1] + [e2] + [e3]);
            var n1, n2 := 1, if e1.Add? then 2 else 1;
            && |s'.openers| == 2 && s'.ends[lo] == s.ends[lo].(inbox := s.ends[lo].inbox + [0] + [1])
            && s'.ends[hi] == AtEnd(AtEnd(AtEnd(AtEnd(s.ends[hi], lo, e0, 0), lo, e1, n1), lo, e2, n2), lo, e3, 2)
  {
    assert After(s, lo, hi, []) == s;
    hide After, Step, AtEnd, Less, Held;
    OneMore(s, lo, hi, [], e0, lo);
    OneMore(s, lo, hi, [] + [e0], e1, lo);
    OneMore(s, lo, hi, [] + [e0] + [e1], e2, lo);
    OneMore(s, lo, hi, [] + [e0] + [e1] + [e2], e3, lo);
  }

  lemma {:induction false} OpeningRun(lo: PeerId, hi: PeerId, portLo: int, portHi: int, overlap: bool)
    requires Less(lo, hi)
    ensures var s := After(Start(lo, hi, portLo, portHi), lo, hi, Opening(hi, overlap));
            TwoOpened(s, lo, hi, if overlap then 0 else 1)
  {
    LessTotal(lo, hi);
    var s := Start(lo, hi, portLo, portHi);
    assert [] + [0] + [1] == [0, 1];
    OpensTwo(s.ends[hi], lo, hi);
    hide After, AtEnd, Less, Held;
    if overlap {
      FourMore(s, lo, hi, Add(hi), Add(hi), AddGoesOn(hi, 1, true), AddGoesOn(hi, 0, true));
    } else {
      FourMore(s, lo, hi, Add(hi), AddGoesOn(hi, 0, true), Add(hi), AddGoesOn(hi, 0, true));
    }
  }

  lemma {:induction false} HandlesTwo(me: End, lo: PeerId, hi: PeerId, reorder: bool, n: nat)
    requires me.opening == me.handling == me.closing == [] && me.inbox == [0, 1] && hi !in me.table.peers
    ensures var me1 := AtEnd(me, hi, Deliver(lo, if reorder then 1 else 0), n);
            var me2 := AtEnd(me1, hi, HandlerGoesOn(lo, 0, true), n);
            var me3 := AtEnd(me2, hi, Deliver(lo, 0), n);
            Quiet(me3) && Held(me3.table, hi) == Some(if reorder then 0 else 1)
  {
    assert Without([0, 1], 0) == [1] && Without([0, 1], 1) == [0] && Without([0], 0) == [] && Without([1], 0) == [];
    assert [] + [0] == [0] && [] + [1] == [1];
    forall t: Table, x: Stream ensures Held(AttachStream(t, hi, x, true), hi) == Some(x) {
      AttachHolds(t, hi, x, true);
    }
    hide AttachStream;
  }

  lemma {:induction false} HandlingRun(s: Sys, lo: PeerId, hi: PeerId, x: Stream, reorder: bool)
    requires Less(lo, hi) && lo in s.ends && hi in s.ends && TwoOpened(s, lo, hi, x)
    ensures var s' := After(s, lo, hi, Handling(lo, reorder));
            && s'.openers == s.openers && s'.ends[hi] == s.ends[hi]
            && Quiet(s'.ends[lo]) && Held(s'.ends[lo].table, hi) == Some(if reorder then 0 else 1)
  {
    LessTotal(lo, hi);
    HandlesTwo(s.ends[lo], lo, hi, reorder, |s.openers|);
    var e, e' := Deliver(lo, if reorder then 1 else 0), HandlerGoesOn(lo, 0, true);
    assert After(s, lo, hi, []) == s;
    hide After, Step, AtEnd, Less, Held, TwoOpened;
    OneMore(s, lo, hi, [], e, hi);
    OneMore(s, lo, hi, [] + [e], e', hi);
    OneMore(s, lo, hi, [] + [e] + [e'], Deliver(lo, 0), hi);
  }

  /** No waiting call takes part. */
  lemma {:induction false} NoWaiting(lo: PeerId, hi: PeerId, portLo: int, portHi: int, es: seq<Event>)
    requires Less(lo, hi) && forall i :: 0 <= i < |es| ==> !(es[i].AddGoesOn? && es[i].at == lo)
    ensures NoneForgotten(Start(lo, hi, portLo, portHi), lo, hi, es)
  {
    LessTotal(lo, hi);
    hide After, Less, Held;
  }

  lemma {:induction false} RunsSmoothly(lo: PeerId, hi: PeerId, overlap: bool, reorder: bool)
    requires lo != hi
    ensures var es := Opening(hi, overlap) + Handling(lo, reorder);
            && AllSmooth(es, lo) && AllSmooth(es, hi)
            && forall i :: 0 <= i < |es| ==> !(es[i].AddGoesOn? && es[i].at == lo)
  {
    var es, es' := Opening(hi, overlap), Handling(lo, reorder);
    assert forall i :: 0 <= i < |es| ==> Smooth(es[i]) && es[i].at == hi;
    assert forall i :: 0 <= i < |es'| ==> Smooth(es'[i]) && !es'[i].AddGoesOn?;
    hide Opening, Handling, Smooth;
  }

  /** Two streams are opened and handled. If the calls overlap, or the handlers are out of order, both
      ends are left with dead streams; if both happens, they agree on the older one. */
  lemma {:induction false} TwoStreams(
      lo: PeerId, hi: PeerId, portLo: int, portHi: int, overlap: bool, reorder: bool)
    requires Less(lo, hi)
    ensures var s := After(Start(lo, hi, portLo, portHi), lo, hi, Opening(hi, overlap) + Handling(lo, reorder));
            if overlap == reorder then Agree(s, lo, hi) else BothDead(s, lo, hi)
  {
    var es, es', s := Opening(hi, overlap), Handling(lo, reorder), Start(lo, hi, portLo, portHi);
    assert lo in s.ends && hi in s.ends;
    hide After, AllSmooth, Opening, Handling, Start, Held, BothDead, Agree, NoneForgotten, Less;
    LessTotal(lo, hi);
    RunsSmoothly(lo, hi, overlap, reorder);
    NoWaiting(lo, hi, portLo, portHi, es + es');
    OpeningRun(lo, hi, portLo, portHi, overlap);
    HandlingRun(After(s, lo, hi, es), lo, hi, if overlap then 0 else 1, reorder);
    AfterAppend(s, lo, hi, es, es');
    AgreeOrBothDead(lo, hi, portLo, portHi, es + es');
    CommonIsAlive(lo, hi, portLo, portHi, es + es');
  }

  /** The stream is handled between the check of the waiting call and its allocation. */
  function InTheGap(lo: PeerId, hi: PeerId): seq<Event> {
    [] + [Add(lo)] + [Add(hi)] + [AddGoesOn(hi, 0, true)]
    + [Deliver(lo, 0)] + [HandlerGoesOn(lo, 0, true)] + [AddGoesOn(lo, 0, true)]
  }

  lemma {:induction false} GapAtOpener(me: End, lo: PeerId, hi: PeerId)
    requires !Less(hi, lo) && Quiet(me)
    ensures var me' := AtEnd(AtEnd(me, lo, Add(hi), 0), lo, AddGoesOn(hi, 0, true), 1);
            Quiet(me') && Held(me'.table, lo) == Some(0)
  {
    assert Without([0], 0) == [] && [] + [0] == [0];
    AttachHolds(me.table, lo, 0, true);
    hide AttachStream, Less, Held;
  }

  lemma {:induction false} GapAtAcceptor(me: End, lo: PeerId, hi: PeerId)
    requires Less(lo, hi) && Quiet(me) && hi !in me.table.peers
    ensures var me1 := Meanwhile(AtEnd(me, hi, Add(lo), 0), true, 0);
            var me2 := AtEnd(AtEnd(me1, hi, Deliver(lo, 0), 1), hi, HandlerGoesOn(lo, 0, true), 1);
            var me3 := AtEnd(me2, hi, AddGoesOn(lo, 0, true), 1);
            Quiet(me3) && Held(me3.table, hi) == None
  {
    assert Without([0], 0) == [] && [] + [0] == [0];
    var me1 := Meanwhile(AtEnd(me, hi, Add(lo), 0), true, 0);
    var me2 := AtEnd(AtEnd(me1, hi, Deliver(lo, 0), 1), hi, HandlerGoesOn(lo, 0, true), 1);
    assert me2.waiting > 0 && Quiet(me2);
    AttachHolds(me2.table, hi, 0, true);
    hide AttachStream, AllocateWaiting, Less, Held;
  }

  /** Then the smaller ID is left without the stream that the larger one holds, which nobody has reset. */
  lemma {:induction false} GapLosesStream(lo: PeerId, hi: PeerId, portLo: int, portHi: int)
    requires Less(lo, hi)
    ensures var s := After(Start(lo, hi, portLo, portHi), lo, hi, InTheGap(lo, hi));
            && Quiet(s.ends[lo]) && Quiet(s.ends[hi])
            && Held(s.ends[lo].table, hi) == None && Held(s.ends[hi].table, lo) == Some(0)
  {
    LessTotal(lo, hi);
    var s := Start(lo, hi, portLo, portHi);
    var e0, e1, e2 := Add(lo), Add(hi), AddGoesOn(hi, 0, true);
    var e3, e4, e5 := Deliver(lo, 0), HandlerGoesOn(lo, 0, true), AddGoesOn(lo, 0, true);
    GapAtOpener(s.ends[hi], lo, hi);
    GapAtAcceptor(s.ends[lo], lo, hi);
    assert After(s, lo, hi, []) == s;
    hide After, Step, AtEnd, Less, Held;
    OneMore(s, lo, hi, [], e0, hi);
    OneMore(s, lo, hi, [] + [e0], e1, lo);
    OneMore(s, lo, hi, [] + [e0] + [e1], e2, lo);
    OneMore(s, lo, hi, [] + [e0] + [e1] + [e2], e3, hi);
    OneMore(s, lo, hi, [] + [e0] + [e1] + [e2] + [e3], e4, hi);
    OneMore(s, lo, hi, [] + [e0] + [e1] + [e2] + [e3] + [e4], e5, hi);
  }
}
