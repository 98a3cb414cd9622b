/** Half-open episodes of the circuit breaker under concurrent callers: how many calls an episode
    admits, what its counter stands for, and when the breaker refuses everyone for good. */
module BreakerSlots {
  import opened CircuitBreaker

  // ---------- Probes of a half-open episode ----------

  ghost predicate Bounded(cfg: Config, s: Sys) {
    && 0 <= s.b.halfOpenReq <= cfg.halfOpenMax
    && (s.b.state == HalfOpen ==> s.admitted <= cfg.halfOpenMax * s.resumed + s.b.halfOpenReq)
    && s.admitted <= cfg.halfOpenMax * (1 + s.resumed)
    && (!cfg.notifies ==> s.notifying == 0 && s.resumed == 0)
  }

  lemma {:induction false} BoundsKept(cfg: Config, s: Sys, e: Event)
    requires cfg.Valid() && Bounded(cfg, s)
    ensures Bounded(cfg, Step(cfg, s, e))
  {
    var m, r := cfg.halfOpenMax, s.resumed;
    assert m * (1 + r) == m * r + m;
    if e.Resume? {
      assert m * (r + 1) == m * r + m && m * (1 + (r + 1)) == m * r + m + m;
    } else if e.Arrive? {
      assert m * 0 == 0 && m * (1 + 0) == m;
    }
  }

  lemma {:induction false} BoundsHold(cfg: Config, es: seq<Event>)
    requires cfg.Valid()
    ensures Bounded(cfg, After(cfg, Initial(), es))
  {
    if es == [] {
    } else {
      BoundsHold(cfg, es[..|es| - 1]);
      BoundsKept(cfg, After(cfg, Initial(), es[..|es| - 1]), es[|es| - 1]);
      hide Bounded, Step;
    }
  }

  /** An episode admits at most halfOpenMax calls, and as many again for each caller that resumes
      in it and sets the counter back to 1. */
  lemma {:induction false} ProbeBound(cfg: Config, es: seq<Event>)
    requires cfg.Valid()
    ensures var s := After(cfg, Initial(), es);
            && s.admitted <= cfg.halfOpenMax * (1 + s.resumed)
            && (!cfg.notifies ==> s.admitted <= cfg.halfOpenMax)
  {
    BoundsHold(cfg, es);
  }

  // ---------- Half-open slots ----------

  /** The probes of the current episode that are in flight. */
  function Probes(s: Sys): set<nat> {
    set id | id in s.calls && s.calls[id] == s.episode
  }

  /** What each call in flight was admitted to, and the counter outside an episode. */
  ghost predicate Labelled(cfg: Config, s: Sys) {
    && (forall id :: id in s.calls ==> id < s.nextId && s.calls[id] <= s.episode)
    && 0 <= s.b.halfOpenReq <= cfg.halfOpenMax
    && (s.b.state != HalfOpen ==> s.b.successes == 0 && s.b.halfOpenReq <= 1)
    && (!cfg.notifies ==> s.notifying == 0 && (s.b.state != HalfOpen ==> s.b.halfOpenReq == 0))
  }

  /** The accounts of the episode. */
  ghost predicate Accounted(cfg: Config, s: Sys) {
    && s.episode >= 1
    && s.admitted == |Probes(s)| + s.succeeded + s.dropped
    && s.b.halfOpenReq == s.stale + s.admitted - s.forgotten
    && s.succeeded <= s.b.successes < cfg.halfOpenMax
    && 0 <= s.stale <= 1
    && (s.stale == 1 ==> s.resumed == 0)
    && (s.resumed == 0 ==> s.forgotten == 0 && (cfg.notifies ==> s.notifying >= 1))
    && (!cfg.notifies ==> s.stale == 0 && s.resumed == 0)
  }

  ghost predicate Slots(cfg: Config, s: Sys) {
    Labelled(cfg, s) && (s.b.state == HalfOpen ==> Accounted(cfg, s))
  }

  lemma {:induction false} EntryKeepsSlots(cfg: Config, s: Sys, now: int)
    requires cfg.Valid() && Slots(cfg, s) && s.b.state == Open && now - s.b.lastFailure >= cfg.openTimeout
    ensures Slots(cfg, Step(cfg, s, Arrive(now)))
  {
    var s' := Step(cfg, s, Arrive(now));
    if cfg.notifies {
      assert s'.calls == s.calls && s'.episode == s.episode + 1;
      assert Probes(s') == {};
    } else {
      assert s'.calls == s.calls[s.nextId := s'.episode] && s'.episode == s.episode + 1;
      assert Probes(s') == {s.nextId};
    }
  }

  lemma {:induction false} ProbeAdded(s: Sys, s': Sys)
    requires s'.calls == s.calls[s.nextId := s.episode] && s'.episode == s.episode && s.nextId !in s.calls
    ensures |Probes(s')| == |Probes(s)| + 1
  {
    assert Probes(s') == Probes(s) + {s.nextId};
  }

  lemma {:induction false} RoomKeepsSlots(cfg: Config, s: Sys, now: int)
    requires cfg.Valid() && Slots(cfg, s) && s.b.state == HalfOpen && s.b.halfOpenReq < cfg.halfOpenMax
    ensures Slots(cfg, Step(cfg, s, Arrive(now)))
  {
    ProbeAdded(s, Step(cfg, s, Arrive(now)));
    hide Probes;
  }

  lemma {:induction false} SlotsKeptByArrive(cfg: Config, s: Sys, now: int)
    requires cfg.Valid() && Slots(cfg, s)
    ensures Slots(cfg, Step(cfg, s, Arrive(now)))
  {
    if s.b.state == Open && now - s.b.lastFailure >= cfg.openTimeout {
      EntryKeepsSlots(cfg, s, now);
    } else if s.b.state == HalfOpen && s.b.halfOpenReq < cfg.halfOpenMax {
      RoomKeepsSlots(cfg, s, now);
    } else if s.b.state != Closed {
      assert Step(cfg, s, Arrive(now)) == s;
    }
    hide Accounted, Probes;
  }

  lemma {:induction false} SlotsKeptByResume(cfg: Config, s: Sys)
    requires cfg.Valid() && Slots(cfg, s)
    ensures Slots(cfg, Step(cfg, s, Resume))
  {
    if s.notifying > 0 && s.b.state == HalfOpen {
      ProbeAdded(s, Step(cfg, s, Resume));
      hide Probes;
    }
  }

  lemma {:induction false} SlotsKeptByFinish(cfg: Config, s: Sys, id: nat, outcome: Outcome, now: int)
    requires cfg.Valid() && Slots(cfg, s)
    ensures Slots(cfg, Step(cfg, s, Finish(id, outcome, now)))
  {
    var s' := Step(cfg, s, Finish(id, outcome, now));
    if id in s.calls && s'.b.state == HalfOpen {
      assert Probes(s') == Probes(s) - {id};
    }
  }

  lemma {:induction false} SlotsHold(cfg: Config, es: seq<Event>)
    requires cfg.Valid()
    ensures Slots(cfg, After(cfg, Initial(), es))
  {
    if es == [] {
    } else {
      SlotsHold(cfg, es[..|es| - 1]);
      var s := After(cfg, Initial(), es[..|es| - 1]);
      hide Slots, Step;
      match es[|es| - 1]
      case Arrive(now) => SlotsKeptByArrive(cfg, s, now);
      case Resume => SlotsKeptByResume(cfg, s);
      case Finish(id, outcome, now) => SlotsKeptByFinish(cfg, s, id, outcome, now);
    }
  }

  /** In every half-open state of every run, with or without a callback, the calls that the episode has
      admitted are in flight, recorded success, or were dropped; halfOpenReq is their number, but for
      the 1 that an earlier resume may have left and the admissions that the latest resume made it
      forget. Without a callback neither occurs. */
  lemma {:induction false} SlotAccounting(cfg: Config, es: seq<Event>)
    requires cfg.Valid()
    ensures var s := After(cfg, Initial(), es);
            s.b.state == HalfOpen ==>
              && s.admitted == |Probes(s)| + s.succeeded + s.dropped
              && s.b.halfOpenReq == s.admitted + s.stale - s.forgotten
              && 0 <= s.stale <= 1 && (s.resumed == 0 ==> s.forgotten == 0) && (s.resumed > 0 ==> s.stale == 0)
              && (!cfg.notifies ==> s.b.halfOpenReq == |Probes(s)| + s.succeeded + s.dropped)
  {
    SlotsHold(cfg, es);
    hide After;
  }

  /** With no probe dropped and none in flight, the next caller is refused exactly when a resume from
      before the episode has left its 1 in the counter, no caller has resumed in the episode, and one
      success is still missing. Without a callback the next caller is always admitted. */
  lemma {:induction false} NextProbeAdmitted(cfg: Config, es: seq<Event>, now: int)
    requires cfg.Valid()
    requires var s := After(cfg, Initial(), es); s.b.state == HalfOpen && s.dropped == 0 && Probes(s) == {}
    ensures var s := After(cfg, Initial(), es);
            Admits(cfg, s, Arrive(now)) <==> !(s.stale == 1 && s.succeeded == cfg.halfOpenMax - 1)
    ensures !cfg.notifies ==> Admits(cfg, After(cfg, Initial(), es), Arrive(now))
  {
    SlotsHold(cfg, es);
    hide After;
  }

  /** Who is let through, by the history of the run: while Closed everybody, while Open whoever comes
      openTimeout after the last recorded failure, unless a callback holds it up, and in a half-open
      episode everybody as long as the probes in flight, succeeded and dropped leave a slot. */
  lemma {:induction false} AdmissionExactly(cfg: Config, es: seq<Event>, now: int)
    requires cfg.Valid()
    ensures var s := After(cfg, Initial(), es);
            Admits(cfg, s, Arrive(now)) <==>
              match s.b.state
              case Closed => true
              case Open => !cfg.notifies && now - LastFailureAt(cfg, es) >= cfg.openTimeout
              case HalfOpen => s.stale + |Probes(s)| + s.succeeded + s.dropped < cfg.halfOpenMax + s.forgotten
  {
    AdmitsExactly(cfg, After(cfg, Initial(), es), now);
    CountsHold(cfg, es);
    SlotAccounting(cfg, es);
    hide After, Admits, LastFailureAt, Counts;
  }

  // ---------- Refusing everyone for good ----------

  ghost predicate From(es: seq<Event>, t: int) {
    forall i :: 0 <= i < |es| && !es[i].Resume? ==> t <= es[i].now
  }

  /** Whatever happens from time `t` on, no call gets through. */
  ghost predicate Stuck(cfg: Config, s: Sys, t: int) {
    forall es :: Monotone(es) && From(es, t) ==> After(cfg, s, es).nextId == s.nextId
  }

  /** No call is in flight, nobody is to resume, and all half-open slots are taken. */
  predicate Jammed(cfg: Config, s: Sys) {
    s.calls == map[] && s.notifying == 0 && s.b.state == HalfOpen && s.b.halfOpenReq >= cfg.halfOpenMax
  }

  lemma {:induction false} JammedStays(cfg: Config, s: Sys, es: seq<Event>)
    requires Jammed(cfg, s)
    ensures After(cfg, s, es) == s
  {
    if es != [] {
      JammedStays(cfg, s, es[..|es| - 1]);
    }
  }

  /** The events take place from `t` on, in order, and let a call through. */
  ghost predicate LetsThrough(cfg: Config, s: Sys, t: int, es: seq<Event>) {
    Monotone(es) && From(es, t) && After(cfg, s, es).nextId > s.nextId
  }

  /** Where somebody is to resume, or the breaker is closed or has a free slot, one event suffices. */
  lemma {:induction false} OneEventFrees(cfg: Config, s: Sys, t: int) returns (es: seq<Event>)
    requires cfg.Valid() && s.b.state != Open
    requires s.notifying == 0 ==> !(s.b.state == HalfOpen && s.b.halfOpenReq >= cfg.halfOpenMax)
    ensures LetsThrough(cfg, s, t, es)
  {
    var e := if s.notifying > 0 then Resume else Arrive(t);
    es := [] + [e];
    AfterOneMore(cfg, s, [], e);
  }

  /** An open breaker lets a caller through in time, its callback included. */
  lemma {:induction false} TimeFrees(cfg: Config, s: Sys, t: int) returns (es: seq<Event>)
    requires cfg.Valid() && s.b.state == Open
    ensures LetsThrough(cfg, s, t, es)
  {
    var now := if t >= s.b.lastFailure + cfg.openTimeout then t else s.b.lastFailure + cfg.openTimeout;
    es := [] + [Arrive(now)];
    AfterOneMore(cfg, s, [], Arrive(now));
    assert Monotone(es) && From(es, t);
    if cfg.notifies {
      assert Monotone(es + [Resume]) && From(es + [Resume], t);
      AfterOneMore(cfg, s, es, Resume);
      es := es + [Resume];
    }
    hide After, Monotone, From;
  }

  /** A call in flight can fail; then the breaker opens. */
  lemma {:induction false} FailureFrees(cfg: Config, s: Sys, t: int, id: nat) returns (es: seq<Event>)
    requires cfg.Valid() && s.b.state == HalfOpen && id in s.calls
    ensures LetsThrough(cfg, s, t, es)
  {
    var e := Finish(id, Failed, t);
    AfterOneMore(cfg, s, [], e);
    var s' := Step(cfg, s, e);
    var rest := TimeFrees(cfg, s', t);
    es := ([] + [e]) + rest;
    AfterAppend(cfg, s, [] + [e], rest);
    hide After, Step;
  }

  lemma {:induction false} OthersFree(cfg: Config, s: Sys, t: int) returns (es: seq<Event>)
    requires cfg.Valid() && !Jammed(cfg, s)
    ensures LetsThrough(cfg, s, t, es)
  {
    hide LetsThrough;
    if s.b.state == Open {
      es := TimeFrees(cfg, s, t);
    } else if s.notifying > 0 || s.b.state == Closed || s.b.halfOpenReq < cfg.halfOpenMax {
      es := OneEventFrees(cfg, s, t);
    } else {
      var id :| id in s.calls;
      es := FailureFrees(cfg, s, t, id);
    }
  }

  /** With or without a callback, from any state and at any time, the breaker refuses every later call
      exactly when it is jammed. */
  lemma {:induction false} StuckExactly(cfg: Config, s: Sys, t: int)
    requires cfg.Valid()
    ensures Stuck(cfg, s, t) <==> Jammed(cfg, s)
  {
    if Jammed(cfg, s) {
      forall es ensures After(cfg, s, es).nextId == s.nextId {
        JammedStays(cfg, s, es);
      }
    } else {
      var es := OthersFree(cfg, s, t);
    }
  }

  /** In a run that is so exactly when no call is in flight, nobody is to resume, the breaker is
      half-open, and the successes and drops of the episode fill all slots, but for those that the
      latest resume has made the counter forget. Without a callback it has made it forget none. */
  lemma {:induction false} StuckByDrops(cfg: Config, es: seq<Event>, t: int)
    requires cfg.Valid()
    ensures var s := After(cfg, Initial(), es);
            && (Stuck(cfg, s, t) <==>
                  && s.calls == map[] && s.notifying == 0 && s.b.state == HalfOpen
                  && s.succeeded + s.dropped >= cfg.halfOpenMax + s.forgotten)
            && (!cfg.notifies && s.b.state == HalfOpen ==> s.notifying == 0 && s.forgotten == 0)
  {
    var s := After(cfg, Initial(), es);
    StuckExactly(cfg, s, t);
    SlotsHold(cfg, es);
    hide After, Stuck;
    if s.calls == map[] {
      assert Probes(s) == {};
    }
  }
}
