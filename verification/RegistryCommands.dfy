/** The operations of the registry as the Redis commands they consist of, so that commands of other
    operations can come in between. */
module RegistryCommands {
  import opened Text
  import opened Registry
  import Operations = Registry

  /** A command, at an instant of its own. Set is the first of `Register` and SAdd the second; Expire is
      the last of `Heartbeat`, and here it may come without the Exists before it; Del is the first of
      `Unregister`. A listing and a cleanup begin with SMembers, look the members up one by one (Get,
      which may fail, or Exists), and then an SRem goes out for each member not found; another one
      follows each Del. Whether SAdd and SRem work is part of the event; any other command that fails
      is not in the run. */
  datatype Command =
    | Put(peer: Peer)
    | Add(id: string, done: bool)
    | Expire(id: string)
    | Del(id: string)
    | Members
    | Lookup(id: string, readable: bool)
    | SRem(id: string, done: bool)

  datatype Timed = Timed(command: Command, time: int)

  /** The store, and the commands that operations in flight have still to issue: `adding` the SAdds,
      `looking` the lookups, `removing` the SRems. */
  datatype Sys = Sys(store: Store, adding: multiset<string>, looking: multiset<string>, removing: multiset<string>)

  function Start(): Sys {
    Sys(Store(map[], {}), multiset{}, multiset{}, multiset{})
  }

  function Step(s: Sys, ttl: int, c: Command, now: int): Sys {
    match c
    case Put(peer) =>
      var entry := Entry(peer.(lastSeen := now), now + ttl);
      s.(store := s.store.(keys := s.store.keys[peer.nodeId := entry]), adding := s.adding + multiset{peer.nodeId})
    case Add(id, done) =>
      if id !in s.adding then s
      else
        s.(store := if done then s.store.(online := s.store.online + {id}) else s.store,
           adding := s.adding - multiset{id})
    case Expire(id) =>
      if !Live(s.store, id, now) then s
      else s.(store := s.store.(keys := s.store.keys[id := s.store.keys[id].(expiry := now + ttl)]))
    case Del(id) =>
      s.(store := s.store.(keys := s.store.keys - {id}), removing := s.removing + multiset{id})
    case Members => s.(looking := s.looking + multiset(s.store.online))
    case Lookup(id, readable) =>
      if id !in s.looking then s
      else
        s.(looking := s.looking - multiset{id},
           removing := if readable && Live(s.store, id, now) then s.removing else s.removing + multiset{id})
    case SRem(id, done) =>
      if id !in s.removing then s
      else
        s.(store := if done then s.store.(online := s.store.online - {id}) else s.store,
           removing := s.removing - multiset{id})
  }

  function After(s: Sys, ttl: int, es: seq<Timed>): Sys {
    if es == [] then s
    else Step(After(s, ttl, es[..|es| - 1]), ttl, es[|es| - 1].command, es[|es| - 1].time)
  }

  lemma {:induction false} AfterOneMore(s: Sys, ttl: int, es: seq<Timed>, e: Timed)
    ensures After(s, ttl, es + [e]) == Step(After(s, ttl, es), ttl, e.command, e.time)
  {
    assert (es + [e])[..|es|] == es;
  }

  ghost predicate Monotone(es: seq<Timed>) {
    forall i, j :: 0 <= i < j < |es| ==> es[i].time <= es[j].time
  }

  ghost predicate Within(es: seq<Timed>, lo: int, hi: int) {
    lo <= hi && forall i :: 0 <= i < |es| ==> lo <= es[i].time <= hi
  }

  // ---------- Uninterrupted, the commands make up the operations ----------

  /** A listing that takes the members in the given order. */
  function Sweep(order: seq<string>, unreadable: set<string>, stuck: set<string>, now: int): seq<Timed> {
    if order == [] then [] + [Timed(Members, now)]
    else
      var id := order[|order| - 1];
      Sweep(order[..|order| - 1], unreadable, stuck, now)
      + [Timed(Lookup(id, id !in unreadable), now)] + [Timed(SRem(id, id !in stuck), now)]
  }

  /** The members of `order` that the listing removes. */
  function Swept(s: Store, order: seq<string>, unreadable: set<string>, stuck: set<string>, now: int): set<string> {
    set id | id in order && !(Live(s, id, now) && id !in unreadable) && id !in stuck
  }

  lemma {:induction false} SweepOne(s: Sys, ttl: int, id: string, readable: bool, done: bool, now: int)
    requires s.removing == multiset{} && id in s.looking
    ensures var found := readable && Live(s.store, id, now);
            Step(Step(s, ttl, Lookup(id, readable), now), ttl, SRem(id, done), now) ==
              Sys(s.store.(online := if !found && done then s.store.online - {id} else s.store.online),
                  s.adding, s.looking - multiset{id}, multiset{})
  {
    assert multiset{} + multiset{id} == multiset{id} && multiset{id} - multiset{id} == multiset{};
    assert s.removing - multiset{id} == multiset{};
  }

  /** The listing has come through the members `order`. */
  function Midway(s: Sys, order: seq<string>, unreadable: set<string>, stuck: set<string>, now: int): Sys {
    Sys(s.store.(online := s.store.online - Swept(s.store, order, unreadable, stuck, now)),
        s.adding, s.looking + multiset(s.store.online) - multiset(order), multiset{})
  }

  lemma {:induction false} SweepMore(
      s: Sys, ttl: int, front: seq<string>, id: string, unreadable: set<string>, stuck: set<string>, now: int)
    requires multiset(front + [id]) <= multiset(s.store.online)
    ensures var m := Midway(s, front, unreadable, stuck, now);
            Step(Step(m, ttl, Lookup(id, id !in unreadable), now), ttl, SRem(id, id !in stuck), now)
              == Midway(s, front + [id], unreadable, stuck, now)
  {
    var m, online := Midway(s, front, unreadable, stuck, now), s.looking + multiset(s.store.online);
    assert multiset(front + [id]) == multiset(front) + multiset{id};
    assert multiset(front + [id])[id] == multiset(front)[id] + 1 <= online[id];
    assert id in m.looking && m.looking - multiset{id} == online - multiset(front + [id]);
    SweptMore(s.store, front, id, unreadable, stuck, now);
    SweepOne(m, ttl, id, id !in unreadable, id !in stuck, now);
    hide Step, Swept;
  }

  lemma {:induction false} SweptMore(
      s: Store, front: seq<string>, id: string, unreadable: set<string>, stuck: set<string>, now: int)
    ensures s.online - Swept(s, front + [id], unreadable, stuck, now) ==
              var online := s.online - Swept(s, front, unreadable, stuck, now);
              if !(Live(s, id, now) && id !in unreadable) && id !in stuck then online - {id} else online
  {
    assert forall x :: x in front + [id] <==> x in front || x == id;
  }

  lemma {:induction false} SweepSome(
      s: Sys, ttl: int, order: seq<string>, unreadable: set<string>, stuck: set<string>, now: int)
    requires s.removing == multiset{} && multiset(order) <= multiset(s.store.online)
    ensures After(s, ttl, Sweep(order, unreadable, stuck, now)) == Midway(s, order, unreadable, stuck, now)
  {
    if order == [] {
      AfterOneMore(s, ttl, [], Timed(Members, now));
      assert s.store.online - Swept(s.store, order, unreadable, stuck, now) == s.store.online;
    } else {
      var front, id := order[..|order| - 1], order[|order| - 1];
      var es := Sweep(front, unreadable, stuck, now);
      var e, e' := Timed(Lookup(id, id !in unreadable), now), Timed(SRem(id, id !in stuck), now);
      assert order == front + [id] && multiset(order) == multiset(front) + multiset{id};
      assert Sweep(order, unreadable, stuck, now) == es + [e] + [e'];
      hide After, Step, Swept, Sweep, Midway;
      SweepSome(s, ttl, front, unreadable, stuck, now);
      SweepMore(s, ttl, front, id, unreadable, stuck, now);
      AfterOneMore(s, ttl, es, e);
      AfterOneMore(s, ttl, es + [e], e');
    }
  }

  /** A listing that nothing interrupts does what the operation of `Registry` does, in any order of the
      members and whatever SAdds and lookups are in flight. */
  lemma {:induction false} SweepIsList(
      s: Sys, ttl: int, order: seq<string>, unreadable: set<string>, stuck: set<string>, now: int)
    requires s.removing == multiset{} && multiset(order) == multiset(s.store.online)
    ensures After(s, ttl, Sweep(order, unreadable, stuck, now)) ==
              s.(store := Operations.Step(s.store, ttl, List(true, unreadable, stuck), now))
  {
    forall id ensures id in order <==> id in s.store.online {
      assert id in order <==> id in multiset(order);
    }
    assert s.store.online - Swept(s.store, order, unreadable, stuck, now) == Remaining(s.store, unreadable, stuck, now);
    hide After, Sweep, Swept, Remaining;
    SweepSome(s, ttl, order, unreadable, stuck, now);
  }

  /** A cleanup looks up the members in the given order. */
  function Lookups(order: seq<string>, now: int): seq<Timed> {
    if order == [] then [] + [Timed(Members, now)]
    else Lookups(order[..|order| - 1], now) + [Timed(Lookup(order[|order| - 1], true), now)]
  }

  /** The members that it has not found, in that order. */
  function NotFound(s: Store, order: seq<string>, now: int): seq<string> {
    if order == [] then []
    else
      var id := order[|order| - 1];
      NotFound(s, order[..|order| - 1], now) + if Live(s, id, now) then [] else [id]
  }

  /** It then removes them one by one. */
  function Removals(ids: seq<string>, stuck: set<string>, now: int): seq<Timed> {
    if ids == [] then []
    else
      var id := ids[|ids| - 1];
      Removals(ids[..|ids| - 1], stuck, now) + [Timed(SRem(id, id !in stuck), now)]
  }

  /** The cleanup has looked up the members `order`. */
  function Looked(s: Sys, order: seq<string>, now: int): Sys {
    Sys(s.store, s.adding, s.looking + multiset(s.store.online) - multiset(order),
        s.removing + multiset(NotFound(s.store, order, now)))
  }

  lemma {:induction false} LookMore(s: Sys, ttl: int, front: seq<string>, id: string, now: int)
    requires multiset(front + [id]) <= multiset(s.store.online)
    ensures Step(Looked(s, front, now), ttl, Lookup(id, true), now) == Looked(s, front + [id], now)
  {
    hide NotFound, Live;
    assert multiset(front + [id]) == multiset(front) + multiset{id};
    OneTaken(s.looking + multiset(s.store.online), multiset(front), id);
    NotFoundMore(s.store, front, id, now);
  }

  lemma {:induction false} NotFoundMore(s: Store, front: seq<string>, id: string, now: int)
    ensures var missing := multiset(NotFound(s, front, now));
            multiset(NotFound(s, front + [id], now)) == if Live(s, id, now) then missing else missing + multiset{id}
  {
    assert (front + [id])[..|front|] == front;
    var missing := NotFound(s, front, now);
    assert missing + [] == missing;
    hide NotFound, Live;
  }

  lemma {:induction false} OneTaken(all: multiset<string>, some: multiset<string>, id: string)
    requires some + multiset{id} <= all
    ensures id in all - some && all - some - multiset{id} == all - (some + multiset{id})
  {
    assert (some + multiset{id})[id] <= all[id];
  }

  lemma {:induction false} LookedUp(s: Sys, ttl: int, order: seq<string>, now: int)
    requires multiset(order) <= multiset(s.store.online)
    ensures After(s, ttl, Lookups(order, now)) == Looked(s, order, now)
  {
    if order == [] {
      AfterOneMore(s, ttl, [], Timed(Members, now));
    } else {
      var front, id := order[..|order| - 1], order[|order| - 1];
      assert order == front + [id] && multiset(order) == multiset(front) + multiset{id};
      assert Lookups(order, now) == Lookups(front, now) + [Timed(Lookup(id, true), now)];
      hide After, Step, Looked, Lookups;
      LookedUp(s, ttl, front, now);
      LookMore(s, ttl, front, id, now);
      AfterOneMore(s, ttl, Lookups(front, now), Timed(Lookup(id, true), now));
    }
  }

  /** The members `ids` have been removed, but for those whose SRem failed. */
  function Removed(s: Sys, ids: seq<string>, stuck: set<string>): Sys {
    Sys(s.store.(online := s.store.online - (set id | id in ids && id !in stuck)),
        s.adding, s.looking, s.removing - multiset(ids))
  }

  lemma {:induction false} RemoveMore(s: Sys, ttl: int, front: seq<string>, id: string, stuck: set<string>, now: int)
    requires multiset(front + [id]) <= s.removing
    ensures Step(Removed(s, front, stuck), ttl, SRem(id, id !in stuck), now) == Removed(s, front + [id], stuck)
  {
    assert multiset(front + [id]) == multiset(front) + multiset{id};
    assert multiset(front + [id])[id] == multiset(front)[id] + 1 <= s.removing[id];
    assert s.removing - multiset(front) - multiset{id} == s.removing - multiset(front + [id]);
    OneMoreRemoved(s.store.online, front, id, stuck);
  }

  lemma {:induction false} RemovedAll(s: Sys, ttl: int, ids: seq<string>, stuck: set<string>, now: int)
    requires multiset(ids) <= s.removing
    ensures After(s, ttl, Removals(ids, stuck, now)) == Removed(s, ids, stuck)
  {
    if ids == [] {
      assert s.store.online - (set id | id in ids && id !in stuck) == s.store.online;
      assert s.removing - multiset(ids) == s.removing;
    } else {
      var front, id := ids[..|ids| - 1], ids[|ids| - 1];
      assert ids == front + [id] && multiset(ids) == multiset(front) + multiset{id};
      assert Removals(ids, stuck, now) == Removals(front, stuck, now) + [Timed(SRem(id, id !in stuck), now)];
      hide After, Step, Removed, Removals;
      RemovedAll(s, ttl, front, stuck, now);
      RemoveMore(s, ttl, front, id, stuck, now);
      AfterOneMore(s, ttl, Removals(front, stuck, now), Timed(SRem(id, id !in stuck), now));
    }
  }

  lemma {:induction false} OneMoreRemoved(online: set<string>, front: seq<string>, id: string, stuck: set<string>)
    ensures online - (set x | x in front + [id] && x !in stuck) ==
              var rest := online - (set x | x in front && x !in stuck);
              if id in stuck then rest else rest - {id}
  {
    assert forall x :: x in front + [id] <==> x in front || x == id;
  }

  lemma {:induction false} NotFoundAre(s: Store, order: seq<string>, now: int, id: string)
    ensures id in NotFound(s, order, now) <==> id in order && !Live(s, id, now)
  {
    if order != [] {
      var front, last := order[..|order| - 1], order[|order| - 1];
      NotFoundAre(s, front, now, id);
      assert id in order <==> id in front || id == last;
    }
  }

  /** A cleanup that nothing interrupts does what the operation of `Registry` does, in any order of the
      members and whatever commands are in flight. */
  lemma {:induction false} SweepIsCleanup(s: Sys, ttl: int, order: seq<string>, stuck: set<string>, now: int)
    requires multiset(order) == multiset(s.store.online)
    ensures After(s, ttl, Lookups(order, now) + Removals(NotFound(s.store, order, now), stuck, now)) ==
              s.(store := Operations.Step(s.store, ttl, CleanupStale(true, stuck), now))
  {
    var missing := NotFound(s.store, order, now);
    forall id ensures id in missing <==> id in StaleMembers(s.store, now) {
      NotFoundAre(s.store, order, now, id);
      assert id in order <==> id in multiset(order);
    }
    CleanupExactly(s.store, ttl, stuck, now);
    assert (set id | id in missing && id !in stuck) == StaleMembers(s.store, now) - stuck;
    assert s.looking + multiset(order) - multiset(order) == s.looking;
    assert s.removing + multiset(missing) - multiset(missing) == s.removing;
    hide After, Lookups, Removals, NotFound, Remaining, StaleMembers, Operations.Step;
    AfterAppend(s, ttl, Lookups(order, now), Removals(missing, stuck, now));
    LookedUp(s, ttl, order, now);
    RemovedAll(After(s, ttl, Lookups(order, now)), ttl, missing, stuck, now);
  }

  lemma {:induction false} AfterAppend(s: Sys, ttl: int, es: seq<Timed>, es': seq<Timed>)
    ensures After(s, ttl, es + es') == After(After(s, ttl, es), ttl, es')
  {
    if es' == [] {
      assert es + es' == es;
    } else {
      assert (es + es')[..|es + es'| - 1] == es + es'[..|es'| - 1];
      AfterAppend(s, ttl, es, es'[..|es'| - 1]);
    }
  }

  /** So do the commands of the other operations. */
  lemma {:induction false} CommandsAreOperations(s: Sys, ttl: int, peer: Peer, done: bool, now: int)
    ensures var id := peer.nodeId;
            && Step(Step(s, ttl, Put(peer), now), ttl, Add(id, done), now)
                 == s.(store := Operations.Step(s.store, ttl, Register(peer, true, done), now))
            && Step(s, ttl, Expire(id), now)
                 == s.(store := Operations.Step(s.store, ttl, Heartbeat(id, true, true), now))
            && Step(Step(s, ttl, Del(id), now), ttl, SRem(id, done), now)
                 == s.(store := Operations.Step(s.store, ttl, Unregister(id, true, done), now))
  {
    var id := peer.nodeId;
    assert s.adding + multiset{id} - multiset{id} == s.adding;
    assert s.removing + multiset{id} - multiset{id} == s.removing;
  }

  // ---------- Coverage ----------

  /** Every live peer is in the online set, or its registration is about to put it there. */
  ghost predicate Covered(s: Sys, now: int) {
    forall id :: Live(s.store, id, now) ==> id in s.store.online || id in s.adding
  }

  /** With no registration in flight that is the coherence of the index. */
  lemma CoveredIsCoherent(s: Sys, now: int)
    requires s.adding == multiset{}
    ensures Covered(s, now) <==> Coherent(s.store, now)
  {
  }

  /** The command takes a live peer out of the online set that no registration is about to put back, or
      is the last SAdd for a live peer outside the set, and fails. */
  predicate Breaks(s: Sys, e: Timed) {
    match e.command
    case SRem(id, done) =>
      done && id in s.removing && id in s.store.online && id !in s.adding && Live(s.store, id, e.time)
    case Add(id, done) =>
      !done && s.adding[id] == 1 && id !in s.store.online && Live(s.store, id, e.time)
    case _ => false
  }

  /** Those two are exactly what ends coverage. */
  lemma {:induction false} CoverageKeptExactly(s: Sys, ttl: int, e: Timed, last: int)
    requires last <= e.time && Covered(s, last)
    ensures Covered(Step(s, ttl, e.command, e.time), e.time) <==> !Breaks(s, e)
  {
    var s' := Step(s, ttl, e.command, e.time);
    if Breaks(s, e) {
      assert Live(s'.store, e.command.id, e.time) && e.command.id !in s'.store.online;
    } else {
      forall id | Live(s'.store, id, e.time) ensures id in s'.store.online || id in s'.adding {
        assert Live(s.store, id, last) || (e.command.Put? && e.command.peer.nodeId == id);
      }
    }
  }

  /** The index covers all live peers after every command of the run. */
  ghost predicate CoveredThroughout(s: Sys, ttl: int, es: seq<Timed>) {
    es != [] ==>
      CoveredThroughout(s, ttl, es[..|es| - 1]) && Covered(After(s, ttl, es), es[|es| - 1].time)
  }

  /** No command of the run breaks coverage where it runs. */
  predicate NothingBreaks(s: Sys, ttl: int, es: seq<Timed>) {
    es != [] ==>
      NothingBreaks(s, ttl, es[..|es| - 1]) && !Breaks(After(s, ttl, es[..|es| - 1]), es[|es| - 1])
  }

  /** In every interleaving the index covers all live peers after every command exactly when none of
      the commands is such a removal or such a failure. */
  lemma {:induction false} CoveredExactly(s: Sys, ttl: int, es: seq<Timed>, start: int, now: int)
    requires Covered(s, start) && Monotone(es) && Within(es, start, now)
    ensures CoveredThroughout(s, ttl, es) <==> NothingBreaks(s, ttl, es)
    ensures NothingBreaks(s, ttl, es) ==> Covered(After(s, ttl, es), now)
  {
    if es != [] {
      var front, e := es[..|es| - 1], es[|es| - 1];
      CoveredExactly(s, ttl, front, start, e.time);
      if NothingBreaks(s, ttl, front) {
        hide Step, Covered;
        CoverageKeptExactly(After(s, ttl, front), ttl, e, e.time);
        if !Breaks(After(s, ttl, front), e) {
          CoveredLater(After(s, ttl, es), e.time, now);
        }
      }
    }
  }

  lemma CoveredLater(s: Sys, last: int, now: int)
    requires Covered(s, last) && last <= now
    ensures Covered(s, now)
  {
    forall id | Live(s.store, id, now) ensures id in s.store.online || id in s.adding {
      assert Live(s.store, id, last);
    }
  }

  /** So at every instant of such a run, a listing shows every live peer but those whose SAdd is still
      to come; and whenever no registration is in flight it shows exactly the live peers. */
  lemma {:induction false} SettledListing(ttl: int, es: seq<Timed>, start: int, now: int)
    requires Monotone(es) && Within(es, start, now) && NothingBreaks(Start(), ttl, es)
    ensures var s := After(Start(), ttl, es);
            && (forall id :: id in LivePeers(s.store, now) && id !in s.adding ==> id in Listing(s.store, now))
            && (s.adding == multiset{} ==> Listing(s.store, now) == LivePeers(s.store, now))
  {
    var s := After(Start(), ttl, es);
    CoveredExactly(Start(), ttl, es, start, now);
    if s.adding == multiset{} {
      CoveredIsCoherent(s, now);
      CoherentListing(s.store, now);
    }
    hide After, NothingBreaks;
  }

  // ---------- What a harmful removal needs ----------

  ghost predicate NoPut(es: seq<Timed>, id: string) {
    forall i :: 0 <= i < |es| && es[i].command.Put? ==> es[i].command.peer.nodeId != id
  }

  lemma {:induction false} StaysDead(s: Sys, ttl: int, c: Command, id: string, now: int)
    requires !Live(s.store, id, now) && (c.Put? ==> c.peer.nodeId != id)
    ensures !Live(Step(s, ttl, c, now).store, id, now)
  {
  }

  /** A dead peer comes to life only by a Set. */
  lemma {:induction false} DeadUntilPut(s: Sys, ttl: int, es: seq<Timed>, id: string, start: int, now: int)
    requires !Live(s.store, id, start) && Monotone(es) && Within(es, start, now) && NoPut(es, id)
    ensures !Live(After(s, ttl, es).store, id, now)
  {
    if es != [] {
      var front, e := es[..|es| - 1], es[|es| - 1];
      DeadUntilPut(s, ttl, front, id, start, e.time);
      StaysDead(After(s, ttl, front), ttl, e.command, id, e.time);
      hide Step;
    }
  }

  /** A lookup or a Del leads to a removal. Whatever runs between then and its SRem, the SRem takes a live
      peer out only if a Set for the same peer is among it, or the lookup could not read the peer. */
  lemma {:induction false} HarmNeedsPut(s: Sys, ttl: int, c: Command, es: seq<Timed>, e: Timed, start: int)
    requires (c.Lookup? || c.Del?) && Step(s, ttl, c, start).removing == s.removing + multiset{c.id}
    requires Monotone(es) && Within(es, start, e.time)
    requires e.command.SRem? && e.command.id == c.id && Breaks(After(Step(s, ttl, c, start), ttl, es), e)
    ensures !NoPut(es, c.id) || (c.Lookup? && !c.readable)
  {
    if !(c.Lookup? && !c.readable) && NoPut(es, c.id) {
      assert !Live(Step(s, ttl, c, start).store, c.id, start);
      DeadUntilPut(Step(s, ttl, c, start), ttl, es, c.id, start, e.time);
    }
  }

  // ---------- The race ----------

  lemma {:induction false} StaysUnlisted(s: Sys, ttl: int, c: Command, id: string, now: int)
    requires id !in s.store.online && id !in s.adding && (c.Put? ==> c.peer.nodeId != id)
    ensures id !in Step(s, ttl, c, now).store.online && id !in Step(s, ttl, c, now).adding
  {
  }

  /** A node that is not in the online set, nor about to be, is never listed again by anything but a
      registration. */
  lemma {:induction false} NeverRelisted(s: Sys, ttl: int, es: seq<Timed>, id: string)
    requires id !in s.store.online && id !in s.adding && NoPut(es, id)
    ensures id !in After(s, ttl, es).store.online && id !in After(s, ttl, es).adding
    ensures forall now :: id !in Listing(After(s, ttl, es).store, now)
  {
    if es != [] {
      var front, e := es[..|es| - 1], es[|es| - 1];
      NeverRelisted(s, ttl, front, id);
      StaysUnlisted(After(s, ttl, front), ttl, e.command, id, e.time);
      hide Step;
    }
  }

  /** `n` heartbeats of the node, one tick apart, the first at `t`. */
  function Heartbeats(id: string, t: int, n: nat): (es: seq<Timed>)
    ensures |es| == n && forall i :: 0 <= i < n ==> es[i] == Timed(Expire(id), t + i)
  {
    seq(n, i => Timed(Expire(id), t + i))
  }

  lemma {:induction false} HeartbeatsKeepAlive(s: Sys, ttl: int, id: string, t: int, n: nat)
    requires ttl > 1 && Live(s.store, id, t)
    ensures Live(After(s, ttl, Heartbeats(id, t, n)).store, id, t + n - 1)
    ensures n > 0 ==> Live(After(s, ttl, Heartbeats(id, t, n)).store, id, t + n)
  {
    if n > 0 {
      HeartbeatsKeepAlive(s, ttl, id, t, n - 1);
      assert Heartbeats(id, t, n)[..n - 1] == Heartbeats(id, t, n - 1);
    }
  }

  /** A node registers at time 0 and lets its lease run out; a cleanup or a listing looks it up; it
      registers again; the removal goes out. */
  function Race(peer: Peer, ttl: int): seq<Timed> {
    var id := peer.nodeId;
    [] + [Timed(Put(peer), 0)] + [Timed(Add(id, true), 0)]
    + [Timed(Members, ttl)] + [Timed(Lookup(id, true), ttl)]
    + [Timed(Put(peer), ttl)] + [Timed(Add(id, true), ttl)] + [Timed(SRem(id, true), ttl)]
  }

  /** The node is then alive, stays so for as long as it sends heartbeats, and is never listed. */
  lemma {:induction false} RacingRegisterIsLost(ttl: int, peer: Peer, n: nat)
    requires ttl > 1
    ensures var s := After(After(Start(), ttl, Race(peer, ttl)), ttl, Heartbeats(peer.nodeId, ttl, n)).store;
            Live(s, peer.nodeId, ttl + n) && peer.nodeId !in Listing(s, ttl + n)
  {
    RaceEnds(ttl, peer);
    var s := After(Start(), ttl, Race(peer, ttl));
    hide After, Race;
    HeartbeatsKeepAlive(s, ttl, peer.nodeId, ttl, n);
    NeverRelisted(s, ttl, Heartbeats(peer.nodeId, ttl, n), peer.nodeId);
  }

  lemma {:induction false} RaceEnds(ttl: int, peer: Peer)
    requires ttl > 1
    ensures var s, id := After(Start(), ttl, Race(peer, ttl)), peer.nodeId;
            Live(s.store, id, ttl) && id !in s.store.online && id !in s.adding
  {
    var id, s0 := peer.nodeId, Start();
    var es1 := [] + [Timed(Put(peer), 0)];
    var es2 := es1 + [Timed(Add(id, true), 0)];
    var es3 := es2 + [Timed(Members, ttl)];
    var es4 := es3 + [Timed(Lookup(id, true), ttl)];
    var es5 := es4 + [Timed(Put(peer), ttl)];
    var es6 := es5 + [Timed(Add(id, true), ttl)];
    assert After(s0, ttl, []) == s0;
    hide After, Step, Start;
    AfterOneMore(s0, ttl, [], Timed(Put(peer), 0));
    AfterOneMore(s0, ttl, es1, Timed(Add(id, true), 0));
    AfterOneMore(s0, ttl, es2, Timed(Members, ttl));
    AfterOneMore(s0, ttl, es3, Timed(Lookup(id, true), ttl));
    AfterOneMore(s0, ttl, es4, Timed(Put(peer), ttl));
    AfterOneMore(s0, ttl, es5, Timed(Add(id, true), ttl));
    AfterOneMore(s0, ttl, es6, Timed(SRem(id, true), ttl));
    LapsedIsFound(ttl, peer);
    var s2 := Step(Step(s0, ttl, Put(peer), 0), ttl, Add(id, true), 0);
    var s4 := Step(Step(s2, ttl, Members, ttl), ttl, Lookup(id, true), ttl);
    RemovedAfterReturn(s4, ttl, peer);
  }

  /** Registered at time 0, the peer is found stale at `ttl`. */
  lemma {:induction false} LapsedIsFound(ttl: int, peer: Peer)
    requires ttl > 1
    ensures var id := peer.nodeId;
            var s2 := Step(Step(Start(), ttl, Put(peer), 0), ttl, Add(id, true), 0);
            var s4 := Step(Step(s2, ttl, Members, ttl), ttl, Lookup(id, true), ttl);
            s4.adding == multiset{} && id in s4.removing
  {
    var id := peer.nodeId;
    var s2 := Step(Step(Start(), ttl, Put(peer), 0), ttl, Add(id, true), 0);
    assert !Live(s2.store, id, ttl) && id in s2.store.online && s2.adding == multiset{};
  }

  /** A peer that is to be removed returns, and is then removed. */
  lemma {:induction false} RemovedAfterReturn(s: Sys, ttl: int, peer: Peer)
    requires ttl > 1 && s.adding == multiset{} && peer.nodeId in s.removing
    ensures var id := peer.nodeId;
            var s' := Step(Step(Step(s, ttl, Put(peer), ttl), ttl, Add(id, true), ttl), ttl, SRem(id, true), ttl);
            Live(s'.store, id, ttl) && id !in s'.store.online && id !in s'.adding
  {
  }
}
