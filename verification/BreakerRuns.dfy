/** Runs of the circuit breaker with concurrent callers: what an open breaker lets through, and the
    runs that show the bounds sharp. */
module BreakerRuns {
  import opened CircuitBreaker
  import opened BreakerSlots

  /** The run of `k` arrivals at `now`. */
  function Arrivals(now: int, k: nat): (es: seq<Event>)
    ensures |es| == k
  {
    if k == 0 then [] else Arrivals(now, k - 1) + [Arrive(now)]
  }

  /** `s` with `k` more probes admitted. */
  function Probed(s: Sys, k: nat): Sys {
    s.(b := s.b.(halfOpenReq := s.b.halfOpenReq + k), nextId := s.nextId + k,
       admitted := s.admitted + k, calls := WithProbes(s.calls, s.nextId, k, s.episode))
  }

  lemma {:induction false} OneProbed(cfg: Config, s: Sys, now: int, k: nat)
    requires s.b.state == HalfOpen && s.b.halfOpenReq + k < cfg.halfOpenMax
    ensures Step(cfg, Probed(s, k), Arrive(now)) == Probed(s, k + 1)
  {
  }

  /** Half-open with room for `k` more probes, `k` arrivals are all admitted. */
  lemma {:induction false} ArrivalsAdmitted(cfg: Config, s: Sys, now: int, k: nat)
    requires s.b.state == HalfOpen && s.b.halfOpenReq + k <= cfg.halfOpenMax
    ensures After(cfg, s, Arrivals(now, k)) == Probed(s, k)
    decreases k
  {
    if k > 0 {
      ArrivalsAdmitted(cfg, s, now, k - 1);
      AfterOneMore(cfg, s, Arrivals(now, k - 1), Arrive(now));
      OneProbed(cfg, s, now, k - 1);
      hide After, Step, Probed;
    }
  }

  /** `calls` with `k` probes of `episode`, numbered from `id`. */
  function WithProbes(calls: map<nat, nat>, id: nat, k: nat, episode: nat): map<nat, nat> {
    if k == 0 then calls else WithProbes(calls, id, k - 1, episode)[id + k - 1 := episode]
  }

  /** `k` calls, one after the other, that all fail at time 0. */
  function Failures(k: nat): (es: seq<Event>)
    ensures |es| == 2 * k
  {
    if k == 0 then [] else Failures(k - 1) + OneFailure(k - 1)
  }

  function OneFailure(id: nat): (es: seq<Event>)
    ensures |es| == 2
  {
    [] + [Arrive(0)] + [Finish(id, Failed, 0)]
  }

  /** The ends of the `k` probes numbered from `id`, all dropped at time `t`. */
  function Drops(id: nat, k: nat, t: int): (es: seq<Event>)
    ensures |es| == k
  {
    if k == 0 then [] else Drops(id, k - 1, t) + [Finish(id + k - 1, Dropped, t)]
  }

  /** `k` calls have come and failed at time 0, and nothing else has happened. */
  ghost predicate FailedTimes(cfg: Config, s: Sys, k: nat) {
    && s.b == Breaker(if k < cfg.maxFailures then Closed else Open, k, 0, 0, 0)
    && s.calls == map[] && s.nextId == k && s.notifying == 0
  }

  lemma {:induction false} OneMoreFailure(cfg: Config, s: Sys, k: nat)
    requires cfg.Valid() && k < cfg.maxFailures && FailedTimes(cfg, s, k)
    ensures FailedTimes(cfg, After(cfg, s, OneFailure(k)), k + 1)
  {
    AfterOneMore(cfg, s, [], Arrive(0));
    AfterOneMore(cfg, s, [] + [Arrive(0)], Finish(k, Failed, 0));
    assert After(cfg, s, OneFailure(k)) == Step(cfg, Step(cfg, s, Arrive(0)), Finish(k, Failed, 0));
    hide After, OneFailure;
    var s1 := Step(cfg, s, Arrive(0));
    assert s1.calls == map[k := 0] && s1.calls - {k} == map[];
  }

  lemma AfterNothing(cfg: Config, s: Sys)
    ensures After(cfg, s, []) == s
  {
  }

  lemma {:induction false} FailuresAccumulate(cfg: Config, k: nat)
    requires cfg.Valid() && k <= cfg.maxFailures
    ensures FailedTimes(cfg, After(cfg, Initial(), Failures(k)), k)
  {
    hide After, OneFailure;
    if k == 0 {
      AfterNothing(cfg, Initial());
    } else {
      hide FailedTimes;
      var es := Failures(k - 1);
      FailuresAccumulate(cfg, k - 1);
      OneMoreFailure(cfg, After(cfg, Initial(), es), k - 1);
      AfterAppend(cfg, Initial(), es, OneFailure(k - 1));
    }
  }

  function Range(id: nat, k: nat): set<nat> {
    if k == 0 then {} else Range(id, k - 1) + {id + k - 1}
  }

  /** From `s` to `s'` the calls `ids` have gone, and the breaker has not noticed. */
  ghost predicate OnlyGone(s: Sys, s': Sys, ids: set<nat>) {
    && s'.b == s.b && s'.nextId == s.nextId && s'.notifying == s.notifying && s'.calls.Keys == s.calls.Keys - ids
  }

  lemma {:induction false} DropOne(cfg: Config, s: Sys, s': Sys, ids: set<nat>, id: nat, t: int)
    requires OnlyGone(s, s', ids)
    ensures OnlyGone(s, Step(cfg, s', Finish(id, Dropped, t)), ids + {id})
  {
    assert (s'.calls - {id}).Keys == s.calls.Keys - (ids + {id});
  }

  lemma {:induction false} DropsKeepSlots(cfg: Config, s: Sys, id: nat, k: nat, t: int)
    ensures OnlyGone(s, After(cfg, s, Drops(id, k, t)), Range(id, k))
    decreases k
  {
    if k > 0 {
      var es := Drops(id, k - 1, t);
      DropsKeepSlots(cfg, s, id, k - 1, t);
      DropOne(cfg, s, After(cfg, s, es), Range(id, k - 1), id + k - 1, t);
      AfterOneMore(cfg, s, es, Finish(id + k - 1, Dropped, t));
      hide After, OnlyGone, Step;
    }
  }

  lemma {:induction false} ProbesAre(id: nat, k: nat, episode: nat)
    ensures WithProbes(map[], id, k, episode).Keys == Range(id, k)
  {
    if k > 0 {
      ProbesAre(id, k - 1, episode);
    }
  }

  /** The first call after the timeout at time `t`, with its callback if there is one. */
  function Probe(cfg: Config, t: int): seq<Event> {
    [] + [Arrive(t)] + if cfg.notifies then [Resume] else []
  }

  /** The breaker opens, waits out its timeout, and admits halfOpenMax probes that are all dropped. */
  function StuckRun(cfg: Config): seq<Event>
    requires cfg.Valid()
  {
    var n, t, m := cfg.maxFailures, cfg.openTimeout, cfg.halfOpenMax;
    Failures(n) + Probe(cfg, t) + Arrivals(t, m - 1) + Drops(n, m, t)
  }

  /** The only call in flight is the first probe of an episode. */
  ghost predicate Probing(cfg: Config, s: Sys) {
    && s.b.state == HalfOpen && s.b.halfOpenReq == 1 && s.notifying == 0
    && s.calls == map[cfg.maxFailures := s.episode] && s.nextId == cfg.maxFailures + 1
  }

  lemma {:induction false} ProbeIs(cfg: Config, s: Sys, t: int)
    ensures var s1 := Step(cfg, s, Arrive(t));
            After(cfg, s, Probe(cfg, t)) == if cfg.notifies then Step(cfg, s1, Resume) else s1
  {
    var e := Arrive(t);
    hide Step;
    AfterOneMore(cfg, s, [], e);
    if cfg.notifies {
      AfterOneMore(cfg, s, [] + [e], Resume);
    } else {
      assert [] + [e] + [] == [] + [e];
    }
  }

  lemma {:induction false} FirstProbe(cfg: Config, s: Sys)
    requires cfg.Valid() && FailedTimes(cfg, s, cfg.maxFailures)
    ensures var s1 := Step(cfg, s, Arrive(cfg.openTimeout));
            Probing(cfg, if cfg.notifies then Step(cfg, s1, Resume) else s1)
  {
  }

  lemma {:induction false} ProbesFill(cfg: Config)
    requires cfg.Valid()
    ensures var n, t, m := cfg.maxFailures, cfg.openTimeout, cfg.halfOpenMax;
            var s := After(cfg, Initial(), Failures(n) + Probe(cfg, t) + Arrivals(t, m - 1));
            && s.b.state == HalfOpen && s.b.halfOpenReq == m && s.notifying == 0
            && s.calls == WithProbes(map[], n, m, s.episode)
  {
    hide After, Failures, Arrivals, WithProbes, FailedTimes, Step, Probe;
    var n, t, m := cfg.maxFailures, cfg.openTimeout, cfg.halfOpenMax;
    var s0 := After(cfg, Initial(), Failures(n));
    var s1 := After(cfg, s0, Probe(cfg, t));
    FailuresAccumulate(cfg, n);
    FirstProbe(cfg, s0);
    ProbeIs(cfg, s0, t);
    AfterAppend(cfg, Initial(), Failures(n), Probe(cfg, t));
    AfterAppend(cfg, Initial(), Failures(n) + Probe(cfg, t), Arrivals(t, m - 1));
    ArrivalsAdmitted(cfg, s1, t, m - 1);
    OneMoreProbe(n, m - 1, s1.episode);
  }

  /** Whatever has a time has time `t`. */
  ghost predicate AllAt(es: seq<Event>, t: int) {
    forall i :: 0 <= i < |es| && !es[i].Resume? ==> es[i].now == t
  }

  lemma {:induction false} AllAtAppend(es: seq<Event>, es': seq<Event>, t: int)
    requires AllAt(es, t) && AllAt(es', t)
    ensures AllAt(es + es', t)
  {
  }

  lemma {:induction false} MonotoneAppend(es: seq<Event>, es': seq<Event>, t: int, t': int)
    requires t <= t' && AllAt(es, t) && AllAt(es', t')
    ensures Monotone(es + es')
  {
  }

  lemma {:induction false} ArrivalsAt(t: int, k: nat)
    ensures AllAt(Arrivals(t, k), t)
  {
    if k > 0 {
      ArrivalsAt(t, k - 1);
    }
  }

  lemma {:induction false} DropsAt(id: nat, k: nat, t: int)
    ensures AllAt(Drops(id, k, t), t)
  {
    if k > 0 {
      DropsAt(id, k - 1, t);
    }
  }

  lemma {:induction false} FailuresAt(k: nat)
    ensures AllAt(Failures(k), 0)
  {
    if k > 0 {
      FailuresAt(k - 1);
    }
  }

  lemma {:induction false} StuckRunMonotone(cfg: Config)
    requires cfg.Valid()
    ensures Monotone(StuckRun(cfg))
  {
    var n, t, m := cfg.maxFailures, cfg.openTimeout, cfg.halfOpenMax;
    assert AllAt(Probe(cfg, t), t);
    FailuresAt(n);
    ArrivalsAt(t, m - 1);
    DropsAt(n, m, t);
    hide AllAt, Monotone, Failures, Probe, Arrivals, Drops;
    AllAtAppend(Probe(cfg, t), Arrivals(t, m - 1), t);
    AllAtAppend(Probe(cfg, t) + Arrivals(t, m - 1), Drops(n, m, t), t);
    MonotoneAppend(Failures(n), Probe(cfg, t) + Arrivals(t, m - 1) + Drops(n, m, t), 0, t);
    assert StuckRun(cfg) == Failures(n) + (Probe(cfg, t) + Arrivals(t, m - 1) + Drops(n, m, t));
  }

  /** With or without a callback, such a run leaves no call in flight and a breaker that refuses every
      call from then on. */
  lemma {:induction false} DroppedProbesStick(cfg: Config)
    requires cfg.Valid()
    ensures Monotone(StuckRun(cfg))
    ensures After(cfg, Initial(), StuckRun(cfg)).calls == map[]
    ensures Stuck(cfg, After(cfg, Initial(), StuckRun(cfg)), cfg.openTimeout)
  {
    var n, t, m := cfg.maxFailures, cfg.openTimeout, cfg.halfOpenMax;
    StuckRunMonotone(cfg);
    hide After, Failures, Arrivals, Drops, WithProbes, Range, Probe, Monotone, Stuck;
    ProbesFill(cfg);
    var es := Failures(n) + Probe(cfg, t) + Arrivals(t, m - 1);
    var s' := After(cfg, Initial(), es);
    DropsKeepSlots(cfg, s', n, m, t);
    ProbesAre(n, m, s'.episode);
    AfterAppend(cfg, Initial(), es, Drops(n, m, t));
    var s := After(cfg, Initial(), StuckRun(cfg));
    assert s.calls.Keys == {} && s.calls == map[];
    StuckExactly(cfg, s, t);
  }

  lemma {:induction false} OneMoreProbe(id: nat, k: nat, episode: nat)
    ensures WithProbes(map[id := episode], id + 1, k, episode) == WithProbes(map[], id, k + 1, episode)
  {
    if k > 0 {
      OneMoreProbe(id, k - 1, episode);
    }
  }

  // ---------- Callers that a callback holds up ----------

  /** The breaker opens; then, `j` times over, a caller takes it to half-open and is held up by the
      callback, a second one is admitted and fails. */
  function HeldUp(cfg: Config, j: nat): seq<Event>
    requires cfg.Valid()
  {
    if j == 0 then Failures(cfg.maxFailures) else HeldUp(cfg, j - 1) + OneHeldUp(cfg, j - 1, j * cfg.openTimeout)
  }

  function OneHeldUp(cfg: Config, j: nat, t: int): (es: seq<Event>)
    requires cfg.Valid()
    ensures |es| == 3
  {
    [] + [Arrive(t)] + [Arrive(t)] + [Finish(cfg.maxFailures + j, Failed, t)]
  }

  ghost predicate OpenWithHeldUp(cfg: Config, s: Sys, j: nat) {
    && s.b.state == Open && s.b.halfOpenReq == 0 && s.b.lastFailure == j * cfg.openTimeout
    && s.notifying == j && s.calls == map[] && s.nextId == cfg.maxFailures + j
  }

  lemma {:induction false} OneMoreHeldUp(cfg: Config, s: Sys, j: nat, t: int)
    requires cfg.Valid() && cfg.notifies && OpenWithHeldUp(cfg, s, j) && t == (j + 1) * cfg.openTimeout
    ensures OpenWithHeldUp(cfg, After(cfg, s, OneHeldUp(cfg, j, t)), j + 1)
  {
    var e, e' := Arrive(t), Finish(cfg.maxFailures + j, Failed, t);
    AfterOneMore(cfg, s, [], e);
    AfterOneMore(cfg, s, [] + [e], e);
    AfterOneMore(cfg, s, [] + [e] + [e], e');
    assert After(cfg, s, OneHeldUp(cfg, j, t)) == Step(cfg, Step(cfg, Step(cfg, s, e), e), e');
    hide After, OneHeldUp;
    assert t - s.b.lastFailure == cfg.openTimeout;
    var s2 := Step(cfg, Step(cfg, s, e), e);
    assert s2.calls == map[cfg.maxFailures + j := s2.episode] && s2.calls - {cfg.maxFailures + j} == map[];
  }

  lemma {:induction false} HeldUpReaches(cfg: Config, j: nat)
    requires cfg.Valid() && cfg.notifies
    ensures OpenWithHeldUp(cfg, After(cfg, Initial(), HeldUp(cfg, j)), j)
  {
    if j == 0 {
      FailuresAccumulate(cfg, cfg.maxFailures);
      hide After, Failures;
    } else {
      var t, es := j * cfg.openTimeout, HeldUp(cfg, j - 1);
      HeldUpReaches(cfg, j - 1);
      OneMoreHeldUp(cfg, After(cfg, Initial(), es), j - 1, t);
      AfterAppend(cfg, Initial(), es, OneHeldUp(cfg, j - 1, t));
      hide After, OpenWithHeldUp, OneHeldUp;
    }
  }

  /** With k + 1 callers held up one more episode begins and fills; then `j` of them resume, each
      followed by as many arrivals as it makes room for. */
  function Saturated(cfg: Config, k: nat, j: nat): seq<Event>
    requires cfg.Valid()
  {
    var t, m := (k + 1) * cfg.openTimeout, cfg.halfOpenMax;
    if j == 0 then HeldUp(cfg, k) + [Arrive(t)] + Arrivals(t, m)
    else Saturated(cfg, k, j - 1) + [Resume] + Arrivals(t, m - 1)
  }

  ghost predicate Full(cfg: Config, s: Sys, k: nat, j: nat) {
    && s.b.state == HalfOpen && s.b.halfOpenReq == cfg.halfOpenMax && s.notifying == k + 1 - j
    && s.resumed == j && s.admitted == cfg.halfOpenMax * (1 + j)
  }

  lemma {:induction false} EpisodeFills(cfg: Config, s: Sys, k: nat, t: int)
    requires cfg.Valid() && cfg.notifies && OpenWithHeldUp(cfg, s, k) && t == (k + 1) * cfg.openTimeout
    ensures Full(cfg, After(cfg, Step(cfg, s, Arrive(t)), Arrivals(t, cfg.halfOpenMax)), k, 0)
  {
    assert t - s.b.lastFailure == cfg.openTimeout;
    var s1 := Step(cfg, s, Arrive(t));
    assert s1.b.state == HalfOpen && s1.b.halfOpenReq == 0;
    assert s1.admitted == 0 && s1.resumed == 0 && s1.notifying == k + 1;
    hide After, Arrivals, Step;
    ArrivalsAdmitted(cfg, s1, t, cfg.halfOpenMax);
  }

  lemma {:induction false} ResumeRefills(cfg: Config, s: Sys, k: nat, j: nat, t: int)
    requires cfg.Valid() && Full(cfg, s, k, j) && j <= k
    ensures Full(cfg, After(cfg, Step(cfg, s, Resume), Arrivals(t, cfg.halfOpenMax - 1)), k, j + 1)
  {
    var m, s1 := cfg.halfOpenMax, Step(cfg, s, Resume);
    assert s1.b.state == HalfOpen && s1.b.halfOpenReq == 1 && s1.notifying == k - j;
    assert s1.resumed == j + 1 && s1.admitted == m * (1 + j) + 1;
    assert m * (1 + (j + 1)) == m * (1 + j) + m;
    hide After, Arrivals, Step;
    ArrivalsAdmitted(cfg, s1, t, m - 1);
  }

  lemma {:induction false} SaturatedFull(cfg: Config, k: nat, j: nat)
    requires cfg.Valid() && cfg.notifies && j <= k + 1
    ensures Full(cfg, After(cfg, Initial(), Saturated(cfg, k, j)), k, j)
    decreases j
  {
    var t, m := (k + 1) * cfg.openTimeout, cfg.halfOpenMax;
    hide After, Step, Full, HeldUp, Arrivals, OpenWithHeldUp;
    if j == 0 {
      var es := HeldUp(cfg, k);
      HeldUpReaches(cfg, k);
      EpisodeFills(cfg, After(cfg, Initial(), es), k, t);
      AfterOneMore(cfg, Initial(), es, Arrive(t));
      AfterAppend(cfg, Initial(), es + [Arrive(t)], Arrivals(t, m));
    } else {
      var es := Saturated(cfg, k, j - 1);
      SaturatedFull(cfg, k, j - 1);
      ResumeRefills(cfg, After(cfg, Initial(), es), k, j - 1, t);
      AfterOneMore(cfg, Initial(), es, Resume);
      AfterAppend(cfg, Initial(), es + [Resume], Arrivals(t, m - 1));
    }
  }

  /** The bound on an episode is reached for every number of callers that resume in it. */
  lemma {:induction false} ProbeBoundReached(cfg: Config, k: nat)
    requires cfg.Valid() && cfg.notifies
    ensures var s := After(cfg, Initial(), Saturated(cfg, k, k));
            s.b.state == HalfOpen && s.resumed == k && s.admitted == cfg.halfOpenMax * (1 + k)
  {
    SaturatedFull(cfg, k, k);
    hide After;
  }

  // ---------- While Open ----------

  /** Event number `i` of the run records a failure. */
  ghost predicate FailureAt(cfg: Config, es: seq<Event>, i: nat)
    requires i < |es|
  {
    Recorded(After(cfg, Initial(), es[..i]), es[i]) == [Failed]
  }

  lemma {:induction false} LastFailureIsLatest(cfg: Config, es: seq<Event>, i: nat)
    requires Monotone(es) && i < |es| && FailureAt(cfg, es, i)
    ensures es[i].now <= LastFailureAt(cfg, es)
  {
    var es' := es[..|es| - 1];
    if i < |es'| {
      assert es'[..i] == es[..i];
      LastFailureIsLatest(cfg, es', i);
      if FailureAt(cfg, es, |es| - 1) {
        assert es[..|es| - 1] == es';
      }
    }
  }

  /** Whoever takes the breaker out of Open, or gets through it while Open without having been held
      up by a callback, comes openTimeout after every failure recorded so far. */
  lemma {:induction false} OpenAdmitsNothing(cfg: Config, es: seq<Event>, e: Event, i: nat)
    requires cfg.Valid() && Monotone(es) && i < |es| && FailureAt(cfg, es, i)
    requires var s := After(cfg, Initial(), es);
             s.b.state == Open && (Admits(cfg, s, e) || Step(cfg, s, e).b.state != Open)
    ensures e.Resume? ==> cfg.notifies
    ensures !e.Resume? ==> e.Arrive? && e.now - es[i].now >= cfg.openTimeout
  {
    CountsHold(cfg, es);
    LastFailureIsLatest(cfg, es, i);
    BoundsHold(cfg, es);
  }

  /** If the breaker is Open and the event lets a call through, that call arrives openTimeout after
      every failure recorded so far. */
  ghost predicate OpenSafe(cfg: Config, es: seq<Event>, e: Event) {
    var s := After(cfg, Initial(), es);
    Monotone(es) && s.b.state == Open && Admits(cfg, s, e) ==>
      forall i :: 0 <= i < |es| && FailureAt(cfg, es, i) ==> e.Arrive? && e.now - es[i].now >= cfg.openTimeout
  }

  /** A caller held up by the callback passes an Open breaker whose last failure is an instant old. */
  lemma {:induction false} HeldUpPassesOpen(cfg: Config)
    requires cfg.Valid() && cfg.notifies
    ensures var s := After(cfg, Initial(), HeldUp(cfg, 1));
            s.b.state == Open && s.b.lastFailure == cfg.openTimeout && Admits(cfg, s, Resume)
    ensures Monotone(HeldUp(cfg, 1)) && !OpenSafe(cfg, HeldUp(cfg, 1), Resume)
  {
    var n, t, es := cfg.maxFailures, cfg.openTimeout, HeldUp(cfg, 1);
    HeldUpReaches(cfg, 1);
    FailuresAt(n);
    var front := Failures(n) + [Arrive(t)] + [Arrive(t)];
    assert es == front + [Finish(n, Failed, t)] by {
      assert HeldUp(cfg, 0) == Failures(n) && OneHeldUp(cfg, 0, t) == [Arrive(t), Arrive(t), Finish(n, Failed, t)];
    }
    assert es[..|front|] == front;
    HeldUpReaches(cfg, 0);
    var s0 := After(cfg, Initial(), Failures(n));
    AfterOneMore(cfg, Initial(), Failures(n), Arrive(t));
    AfterOneMore(cfg, Initial(), Failures(n) + [Arrive(t)], Arrive(t));
    var s2 := Step(cfg, Step(cfg, s0, Arrive(t)), Arrive(t));
    assert n in s2.calls;
    assert FailureAt(cfg, es, |front|);
    hide After, HeldUp, Failures;
  }

  /** Over all runs an Open breaker lets nobody through before openTimeout after every failure, exactly
      when no callback is set. */
  lemma {:induction false} OpenSafeExactly(cfg: Config)
    requires cfg.Valid()
    ensures (forall es: seq<Event>, e: Event :: OpenSafe(cfg, es, e)) <==> !cfg.notifies
  {
    if cfg.notifies {
      HeldUpPassesOpen(cfg);
      hide OpenSafe;
    } else {
      forall es: seq<Event>, e: Event ensures OpenSafe(cfg, es, e) {
        var s := After(cfg, Initial(), es);
        if Monotone(es) && s.b.state == Open && Admits(cfg, s, e) {
          forall i: nat | i < |es| && FailureAt(cfg, es, i) ensures e.Arrive? && e.now - es[i].now >= cfg.openTimeout {
            OpenAdmitsNothing(cfg, es, e, i);
          }
        }
        hide After, Step, Monotone, FailureAt, Admits;
      }
    }
  }

  // ---------- A resume that comes late ----------

  /** A caller held up by its callback resumes while the breaker is open and succeeds; after the timeout
      another caller takes the breaker to half-open and is held up. */
  function LateResume(cfg: Config): seq<Event>
    requires cfg.Valid()
  {
    var n, t := cfg.maxFailures, cfg.openTimeout;
    HeldUp(cfg, 1) + ([] + [Resume] + [Finish(n + 1, Succeeded, t)] + [Arrive(2 * t)])
  }

  /** Then `j` probes, one after the other, succeed. */
  function Served(cfg: Config, j: nat): seq<Event>
    requires cfg.Valid()
  {
    if j == 0 then LateResume(cfg)
    else Served(cfg, j - 1) + OneServed(cfg.maxFailures + 1 + j, 2 * cfg.openTimeout)
  }

  function OneServed(id: nat, t: int): (es: seq<Event>)
    ensures |es| == 2
  {
    [] + [Arrive(t)] + [Finish(id, Succeeded, t)]
  }

  ghost predicate Serving(cfg: Config, s: Sys, j: nat) {
    && s.b.state == HalfOpen && s.b.halfOpenReq == 1 + j && s.b.successes == j
    && s.succeeded == j && s.dropped == 0 && s.stale == 1
    && s.calls == map[] && s.nextId == cfg.maxFailures + 2 + j
  }

  lemma {:induction false} LateResumeServes(cfg: Config, s: Sys)
    requires cfg.Valid() && cfg.notifies && OpenWithHeldUp(cfg, s, 1) && s.b.successes == 0
    ensures var n, t := cfg.maxFailures, cfg.openTimeout;
            Serving(cfg, After(cfg, s, [] + [Resume] + [Finish(n + 1, Succeeded, t)] + [Arrive(2 * t)]), 0)
  {
    var n, t := cfg.maxFailures, cfg.openTimeout;
    var e, e' := Finish(n + 1, Succeeded, t), Arrive(2 * t);
    AfterOneMore(cfg, s, [], Resume);
    AfterOneMore(cfg, s, [] + [Resume], e);
    AfterOneMore(cfg, s, [] + [Resume] + [e], e');
    assert After(cfg, s, []) == s;
    hide After;
    var s1 := Step(cfg, s, Resume);
    assert s1.calls == map[n + 1 := 0] && s1.calls - {n + 1} == map[];
    assert 2 * t - s.b.lastFailure == t;
  }

  lemma {:induction false} OneMoreServed(cfg: Config, s: Sys, j: nat, t: int)
    requires cfg.Valid() && Serving(cfg, s, j) && j + 1 < cfg.halfOpenMax
    ensures Serving(cfg, After(cfg, s, OneServed(cfg.maxFailures + 2 + j, t)), j + 1)
  {
    var id := cfg.maxFailures + 2 + j;
    AfterOneMore(cfg, s, [], Arrive(t));
    AfterOneMore(cfg, s, [] + [Arrive(t)], Finish(id, Succeeded, t));
    assert After(cfg, s, OneServed(id, t)) == Step(cfg, Step(cfg, s, Arrive(t)), Finish(id, Succeeded, t));
    hide After, OneServed;
    var s1 := Step(cfg, s, Arrive(t));
    assert s1.calls == map[id := s.episode] && s1.calls - {id} == map[];
  }

  lemma {:induction false} LateResumeReaches(cfg: Config)
    requires cfg.Valid() && cfg.notifies
    ensures Serving(cfg, After(cfg, Initial(), LateResume(cfg)), 0)
  {
    var n, t, es := cfg.maxFailures, cfg.openTimeout, HeldUp(cfg, 1);
    HeldUpReaches(cfg, 1);
    SlotsHold(cfg, es);
    assert After(cfg, Initial(), es).b.successes == 0;
    hide After, Serving, HeldUp, Slots, OpenWithHeldUp;
    LateResumeServes(cfg, After(cfg, Initial(), es));
    AfterAppend(cfg, Initial(), es, [] + [Resume] + [Finish(n + 1, Succeeded, t)] + [Arrive(2 * t)]);
  }

  lemma {:induction false} ServedReaches(cfg: Config, j: nat)
    requires cfg.Valid() && cfg.notifies && j < cfg.halfOpenMax
    ensures Serving(cfg, After(cfg, Initial(), Served(cfg, j)), j)
  {
    hide After, Serving, OneServed, LateResume;
    if j == 0 {
      LateResumeReaches(cfg);
    } else {
      var es, t := Served(cfg, j - 1), 2 * cfg.openTimeout;
      ServedReaches(cfg, j - 1);
      OneMoreServed(cfg, After(cfg, Initial(), es), j - 1, t);
      AfterAppend(cfg, Initial(), es, OneServed(cfg.maxFailures + 1 + j, t));
    }
  }

  /** With a callback, for every configuration: the breaker is half-open, no call is in flight and no
      probe was dropped, and yet whoever arrives is refused. */
  lemma {:induction false} LateResumeRefuses(cfg: Config, now: int)
    requires cfg.Valid() && cfg.notifies
    ensures var s := After(cfg, Initial(), Served(cfg, cfg.halfOpenMax - 1));
            && s.b.state == HalfOpen && s.calls == map[] && s.dropped == 0
            && !Admits(cfg, s, Arrive(now))
  {
    ServedReaches(cfg, cfg.halfOpenMax - 1);
    hide After, Served;
  }
}
