/** The circuit breaker of pkg/circuitbreaker/circuitbreaker.go.

    Every method holds the lock from start to end, with one exception: `transition` releases it
    around the OnStateChange callback. Only `Allow` still writes a field after that, so a caller
    that takes the breaker from Open to HalfOpen stops at `Notifying` and later does `Resume`. */
module CircuitBreaker {

  datatype State = Closed | Open | HalfOpen

  /** `notifies` says that an OnStateChange callback is set. Times are in nanoseconds. */
  datatype Config = Config(maxFailures: int, openTimeout: int, halfOpenMax: int, notifies: bool) {
    predicate Valid() {
      maxFailures > 0 && openTimeout > 0 && halfOpenMax > 0
    }
  }

  datatype Breaker = Breaker(state: State, failures: int, successes: int, lastFailure: int, halfOpenReq: int)

  datatype Answer = Admitted | Refused | Notifying

  /** Fields that are not positive take their default. */
  function WithDefaults(cfg: Config): (r: Config)
    ensures r.Valid() && r.notifies == cfg.notifies
    ensures cfg.maxFailures > 0 ==> r.maxFailures == cfg.maxFailures
    ensures cfg.openTimeout > 0 ==> r.openTimeout == cfg.openTimeout
    ensures cfg.halfOpenMax > 0 ==> r.halfOpenMax == cfg.halfOpenMax
    ensures cfg.maxFailures <= 0 && cfg.openTimeout <= 0 && cfg.halfOpenMax <= 0 ==>
              r == Config(5, 30_000_000_000, 1, cfg.notifies)
  {
    cfg.(maxFailures := if cfg.maxFailures <= 0 then 5 else cfg.maxFailures,
         openTimeout := if cfg.openTimeout <= 0 then 30_000_000_000 else cfg.openTimeout,
         halfOpenMax := if cfg.halfOpenMax <= 0 then 1 else cfg.halfOpenMax)
  }

  /** When a caller may pass: always while Closed, openTimeout after the last failure while Open, and
      while there is a free slot in HalfOpen. */
  predicate Passes(cfg: Config, b: Breaker, now: int) {
    || b.state == Closed
    || (b.state == Open && now >= b.lastFailure + cfg.openTimeout)
    || (b.state == HalfOpen && b.halfOpenReq < cfg.halfOpenMax)
  }

  // ---------- The locked sections as functions of the state ----------

  function AfterAllow(cfg: Config, b: Breaker, now: int): (Breaker, Answer) {
    match b.state
    case Closed => (b, Admitted)
    case Open =>
      if now - b.lastFailure < cfg.openTimeout then (b, Refused)
      else if cfg.notifies then (b.(state := HalfOpen), Notifying)
      else (AfterResume(b.(state := HalfOpen)), Admitted)
    case HalfOpen =>
      if b.halfOpenReq < cfg.halfOpenMax then (b.(halfOpenReq := b.halfOpenReq + 1), Admitted) else (b, Refused)
  }

  function AfterResume(b: Breaker): Breaker {
    b.(halfOpenReq := 1)
  }

  function AfterSuccess(cfg: Config, b: Breaker): Breaker {
    var b' := b.(failures := 0);
    if b.state != HalfOpen then b'
    else if b.successes + 1 < cfg.halfOpenMax then b'.(successes := b.successes + 1)
    else b'.(successes := 0, halfOpenReq := 0, state := Closed)
  }

  function AfterFailure(cfg: Config, b: Breaker, now: int): Breaker {
    var b' := b.(lastFailure := now);
    match b.state
    case Closed =>
      if b.failures + 1 < cfg.maxFailures then b'.(failures := b.failures + 1)
      else b'.(failures := b.failures + 1, successes := 0, halfOpenReq := 0, state := Open)
    case Open => b'
    case HalfOpen => b'.(failures := b.failures + 1, successes := 0, halfOpenReq := 0, state := Open)
  }

  /** How a call ends: Canceled and DeadlineExceeded are `Dropped`, any other error is `Failed`. */
  datatype Outcome = Succeeded | Failed | Dropped

  function AfterOutcome(cfg: Config, b: Breaker, outcome: Outcome, now: int): Breaker {
    match outcome
    case Succeeded => AfterSuccess(cfg, b)
    case Failed => AfterFailure(cfg, b, now)
    case Dropped => b
  }

  class CircuitBreaker {
    const cfg: Config
    var state: State
    var failures: int
    var successes: int
    var lastFailure: int
    var halfOpenReq: int

    function View(): Breaker
      reads this
    {
      Breaker(state, failures, successes, lastFailure, halfOpenReq)
    }

    constructor (cfg: Config)
      ensures this.cfg == WithDefaults(cfg)
      ensures View() == Initial().b
    {
      this.cfg := WithDefaults(cfg);
      state, failures, successes, lastFailure, halfOpenReq := Closed, 0, 0, 0, 0;
    }

    method Allow(now: int) returns (answer: Answer)
      modifies this
      ensures (View(), answer) == AfterAllow(cfg, old(View()), now)
      ensures answer != Refused <==> Passes(cfg, old(View()), now)
      ensures answer == Notifying <==> answer != Refused && old(state) == Open && cfg.notifies
    {
      match state
      case Closed =>
        return Admitted;
      case Open =>
        if now - lastFailure >= cfg.openTimeout {
          state := HalfOpen;
          if cfg.notifies {
            return Notifying;
          }
          Resume();
          return Admitted;
        }
        return Refused;
      case HalfOpen =>
        if halfOpenReq < cfg.halfOpenMax {
          halfOpenReq := halfOpenReq + 1;
          return Admitted;
        }
        return Refused;
    }

    /** What `Allow` still does once the callback is back; it then admits its caller. */
    method Resume()
      modifies this`halfOpenReq
      ensures View() == AfterResume(old(View()))
    {
      halfOpenReq := 1;
    }

    method RecordSuccess()
      modifies this
      ensures View() == AfterSuccess(cfg, old(View()))
    {
      failures := 0;
      if state == HalfOpen {
        successes := successes + 1;
        if successes >= cfg.halfOpenMax {
          successes := 0;
          halfOpenReq := 0;
          state := Closed;
        }
      }
    }

    method RecordFailure(now: int)
      modifies this
      ensures View() == AfterFailure(cfg, old(View()), now)
    {
      lastFailure := now;
      match state
      case Closed =>
        failures := failures + 1;
        if failures >= cfg.maxFailures {
          successes := 0;
          halfOpenReq := 0;
          state := Open;
        }
      case Open =>
      case HalfOpen =>
        failures := failures + 1;
        successes := 0;
        halfOpenReq := 0;
        state := Open;
    }

    /** One call that nothing else interleaves with, its callbacks included: admitted at `now`, over
        at `later`. */
    method Execute(now: int, outcome: Outcome, later: int) returns (ran: bool)
      modifies this
      ensures ran <==> Passes(cfg, old(View()), now)
      ensures var (b, answer) := AfterAllow(cfg, old(View()), now);
              var b' := if answer.Notifying? then AfterResume(b) else b;
              View() == if ran then AfterOutcome(cfg, b', outcome, later) else b
    {
      var answer := Allow(now);
      if answer == Refused {
        return false;
      }
      if answer == Notifying {
        Resume();
      }
      match outcome {
        case Succeeded => RecordSuccess();
        case Failed => RecordFailure(later);
        case Dropped =>
      }
      return true;
    }
  }

  // ---------- Concurrent callers ----------

  /** A caller arrives, a notifying caller gets the lock back, or an admitted call ends. */
  datatype Event = Arrive(now: int) | Resume | Finish(id: nat, outcome: Outcome, now: int)

  /** The breaker with its callers. `calls` maps each call in flight to the half-open episode that
      admitted it, 0 if none did. The other fields tell of the current episode: how many calls it has
      admitted, how many callers have resumed in it, how many of its probes have recorded success and
      how many were dropped; `stale` is what a resume from before it has left in the counter, until the
      first resume in it, and `forgotten` how many admissions the latest resume has made the counter
      forget. */
  datatype Sys = Sys(
    b: Breaker, calls: map<nat, nat>, nextId: nat, notifying: nat,
    episode: nat, admitted: nat, resumed: nat, succeeded: nat, dropped: nat, stale: int, forgotten: nat)

  function Initial(): Sys {
    Sys(Breaker(Closed, 0, 0, 0, 0), map[], 0, 0, 0, 0, 0, 0, 0, 0, 0)
  }

  function NewEpisode(s: Sys, stale: int): Sys {
    s.(episode := s.episode + 1, admitted := 0, resumed := 0, succeeded := 0, dropped := 0,
       stale := stale, forgotten := 0)
  }

  /** One more call in flight, a probe of the episode if the breaker is half-open. */
  function Admit(s: Sys): Sys {
    var probe := s.b.state == HalfOpen;
    s.(calls := s.calls[s.nextId := if probe then s.episode else 0], nextId := s.nextId + 1,
       admitted := if probe then s.admitted + 1 else s.admitted)
  }

  function Step(cfg: Config, s: Sys, e: Event): Sys {
    match e
    case Arrive(now) =>
      var (b, answer) := AfterAllow(cfg, s.b, now);
      var entry := if cfg.notifies then b.halfOpenReq else 0;
      var s' := (if s.b.state == Open && b.state == HalfOpen then NewEpisode(s, entry) else s).(b := b);
      (match answer
       case Admitted => Admit(s')
       case Refused => s'
       case Notifying => s'.(notifying := s.notifying + 1))
    case Resume =>
      if s.notifying == 0 then s
      else
        var s' := s.(b := AfterResume(s.b), notifying := s.notifying - 1);
        Admit(if s.b.state == HalfOpen then s'.(resumed := s.resumed + 1, stale := 0, forgotten := s.admitted) else s')
    case Finish(id, outcome, now) =>
      if id !in s.calls then s
      else
        var probe := s.b.state == HalfOpen && s.calls[id] == s.episode;
        s.(b := AfterOutcome(cfg, s.b, outcome, now), calls := s.calls - {id},
           succeeded := if probe && outcome == Succeeded then s.succeeded + 1 else s.succeeded,
           dropped := if probe && outcome == Dropped then s.dropped + 1 else s.dropped)
  }

  function After(cfg: Config, s: Sys, es: seq<Event>): Sys {
    if es == [] then s else Step(cfg, After(cfg, s, es[..|es| - 1]), es[|es| - 1])
  }

  /** Whether the event lets a call through. */
  predicate Admits(cfg: Config, s: Sys, e: Event) {
    Step(cfg, s, e).nextId > s.nextId
  }

  lemma {:induction false} AfterOneMore(cfg: Config, s: Sys, es: seq<Event>, e: Event)
    ensures After(cfg, s, es + [e]) == Step(cfg, After(cfg, s, es), e)
  {
    assert (es + [e])[..|es|] == es;
  }

  lemma {:induction false} AfterAppend(cfg: Config, s: Sys, es: seq<Event>, es': seq<Event>)
    ensures After(cfg, s, es + es') == After(cfg, After(cfg, s, es), es')
  {
    if es' == [] {
      assert es + es' == es;
    } else {
      assert (es + es')[..|es + es'| - 1] == es + es'[..|es'| - 1];
      AfterAppend(cfg, s, es, es'[..|es'| - 1]);
    }
  }

  /** An arrival that may pass is let through, at once or, if it has to wait for the callback, when it
      resumes; no other arrival is. Whoever resumes is let through. */
  lemma AdmitsExactly(cfg: Config, s: Sys, now: int)
    ensures var held := s.b.state == Open && cfg.notifies;
            && (Admits(cfg, s, Arrive(now)) <==> Passes(cfg, s.b, now) && !held)
            && (Step(cfg, s, Arrive(now)).notifying > s.notifying <==> Passes(cfg, s.b, now) && held)
    ensures Admits(cfg, s, Resume) <==> s.notifying > 0
  {
  }

  /** Only a recorded failure opens the breaker, and only a recorded success closes it; either then starts
      with no success counted and no slot taken, and a breaker that has closed with no failure counted. */
  lemma {:induction false} ChangesStartClean(cfg: Config, s: Sys, e: Event)
    ensures var b, b' := s.b, Step(cfg, s, e).b;
            && (b.state != Open && b'.state == Open ==>
                  && e.Finish? && e.outcome == Failed
                  && b' == Breaker(Open, b.failures + 1, 0, e.now, 0))
            && (b.state != Closed && b'.state == Closed ==>
                  && e.Finish? && e.outcome == Succeeded
                  && b' == Breaker(Closed, 0, 0, b.lastFailure, 0))
  {
  }

  // ---------- The breaker refines its history ----------

  /** The result that the event records. */
  function Recorded(s: Sys, e: Event): seq<Outcome> {
    if e.Finish? && e.id in s.calls && e.outcome != Dropped then [e.outcome] else []
  }

  /** The results recorded since the state last changed. */
  function Since(cfg: Config, es: seq<Event>): seq<Outcome> {
    if es == [] then []
    else
      var es', e := es[..|es| - 1], es[|es| - 1];
      var s := After(cfg, Initial(), es');
      if Step(cfg, s, e).b.state != s.b.state then [] else Since(cfg, es') + Recorded(s, e)
  }

  /** When the last failure of the run was recorded. */
  function LastFailureAt(cfg: Config, es: seq<Event>): int {
    if es == [] then 0
    else
      var es', e := es[..|es| - 1], es[|es| - 1];
      if Recorded(After(cfg, Initial(), es'), e) == [Failed] then e.now else LastFailureAt(cfg, es')
  }

  /** The last `n` results are all failures. */
  ghost predicate LastAllFailed(rs: seq<Outcome>, n: int) {
    |rs| >= n && forall i :: |rs| - n <= i < |rs| ==> rs[i] == Failed
  }

  /** The state that the rules give from the results since the last change, the new one included. */
  ghost function NextState(cfg: Config, state: State, rs: seq<Outcome>, lastFailureAt: int, e: Event): State {
    match state
    case Closed => if LastAllFailed(rs, cfg.maxFailures) then Open else Closed
    case Open => if e.Arrive? && e.now - lastFailureAt >= cfg.openTimeout then HalfOpen else Open
    case HalfOpen => if Failed in rs then Open else if |rs| == cfg.halfOpenMax then Closed else HalfOpen
  }

  /** How the counters stand for the recorded results. */
  ghost predicate Counts(cfg: Config, b: Breaker, rs: seq<Outcome>) {
    && (b.state == Closed ==>
          && 0 <= b.failures < cfg.maxFailures && b.successes == 0
          && LastAllFailed(rs, b.failures)
          && (|rs| > b.failures ==> rs[|rs| - 1 - b.failures] == Succeeded))
    && (b.state == Open ==> b.successes == 0)
    && (b.state == HalfOpen ==>
          && b.successes == |rs| < cfg.halfOpenMax
          && forall i :: 0 <= i < |rs| ==> rs[i] == Succeeded)
  }

  lemma {:induction false} CountsKept(cfg: Config, s: Sys, rs: seq<Outcome>, e: Event)
    requires cfg.Valid() && Counts(cfg, s.b, rs)
    ensures var s' := Step(cfg, s, e);
            Counts(cfg, s'.b, if s'.b.state != s.b.state then [] else rs + Recorded(s, e))
  {
    var rs' := rs + Recorded(s, e);
    if Recorded(s, e) == [] {
      assert rs' == rs;
    }
  }

  lemma {:induction false} CountsDecide(cfg: Config, s: Sys, rs: seq<Outcome>, e: Event)
    requires cfg.Valid() && Counts(cfg, s.b, rs)
    ensures Step(cfg, s, e).b.state == NextState(cfg, s.b.state, rs + Recorded(s, e), s.b.lastFailure, e)
  {
    var rs', k := rs + Recorded(s, e), |rs| - 1 - s.b.failures;
    if Recorded(s, e) == [] {
      assert rs' == rs;
    } else if s.b.state == HalfOpen && Recorded(s, e) == [Failed] {
      assert rs'[|rs|] == Failed;
    } else if s.b.state == Closed {
      assert rs'[|rs|] == e.outcome;
      assert |rs| > s.b.failures ==> rs'[k] == Succeeded;
    }
  }

  lemma {:induction false} CountsHold(cfg: Config, es: seq<Event>)
    requires cfg.Valid()
    ensures Counts(cfg, After(cfg, Initial(), es).b, Since(cfg, es))
    ensures After(cfg, Initial(), es).b.lastFailure == LastFailureAt(cfg, es)
  {
    if es == [] {
    } else {
      var es', e := es[..|es| - 1], es[|es| - 1];
      CountsHold(cfg, es');
      var s := After(cfg, Initial(), es');
      CountsKept(cfg, s, Since(cfg, es'), e);
      LastFailureKept(cfg, s, e);
      hide Counts, Step, Recorded;
    }
  }

  lemma LastFailureKept(cfg: Config, s: Sys, e: Event)
    ensures Step(cfg, s, e).b.lastFailure == if Recorded(s, e) == [Failed] then e.now else s.b.lastFailure
  {
  }

  /** For every interleaving of arrivals and results, late ones included, and with or without a
      callback: Closed opens exactly when the last maxFailures results since closing all failed,
      HalfOpen closes exactly at halfOpenMax successes since entry and opens at the first failure,
      Open leaves exactly on an arrival openTimeout after the last recorded failure. */
  lemma {:induction false} RefinesHistory(cfg: Config, es: seq<Event>, e: Event)
    requires cfg.Valid()
    ensures After(cfg, Initial(), es + [e]).b.state
         == NextState(cfg, After(cfg, Initial(), es).b.state,
                      Since(cfg, es) + Recorded(After(cfg, Initial(), es), e), LastFailureAt(cfg, es), e)
  {
    CountsHold(cfg, es);
    CountsDecide(cfg, After(cfg, Initial(), es), Since(cfg, es), e);
    assert (es + [e])[..|es|] == es;
  }

  ghost predicate NoEnd(es: seq<Event>, id: nat) {
    forall i :: 0 <= i < |es| && es[i].Finish? ==> es[i].id != id
  }

  /** The two systems differ at most in whether call `id` is still in flight. */
  ghost predicate SameButCall(s: Sys, s': Sys, id: nat) {
    s'.b == s.b && s'.nextId == s.nextId && s'.notifying == s.notifying && s'.episode == s.episode
    && s'.calls - {id} == s.calls - {id} && id < s.nextId
  }

  lemma {:induction false} SameButCallKept(cfg: Config, s: Sys, s': Sys, id: nat, e: Event)
    requires SameButCall(s, s', id) && (e.Finish? ==> e.id != id)
    ensures SameButCall(Step(cfg, s, e), Step(cfg, s', e), id)
  {
    if e.Finish? {
      assert e.id in s.calls <==> e.id in s.calls - {id};
      assert e.id in s'.calls <==> e.id in s'.calls - {id};
      assert s.calls - {e.id} - {id} == s.calls - {id} - {e.id};
      assert s'.calls - {e.id} - {id} == s'.calls - {id} - {e.id};
    } else {
      var x := Step(cfg, s, e).episode;
      NewCall(s.calls, s'.calls, s.nextId, x, id);
      NewCall(s.calls, s'.calls, s.nextId, 0, id);
    }
  }

  lemma NewCall(calls: map<nat, nat>, calls': map<nat, nat>, n: nat, x: nat, id: nat)
    requires calls' - {id} == calls - {id} && n != id
    ensures calls'[n := x] - {id} == calls[n := x] - {id}
  {
    assert calls[n := x] - {id} == (calls - {id})[n := x];
    assert calls'[n := x] - {id} == (calls' - {id})[n := x];
  }

  /** To the breaker, a call that ends Canceled or DeadlineExceeded is one that never ends: in every
      continuation it behaves as if the call were still in flight. */
  lemma {:induction false} DroppedNeverEnds(cfg: Config, s: Sys, id: nat, now: int, es: seq<Event>)
    requires id in s.calls && id < s.nextId && NoEnd(es, id)
    ensures SameButCall(After(cfg, s, es), After(cfg, Step(cfg, s, Finish(id, Dropped, now)), es), id)
  {
    var s' := Step(cfg, s, Finish(id, Dropped, now));
    if es == [] {
      assert s.calls - {id} - {id} == s.calls - {id};
    } else {
      var front := es[..|es| - 1];
      DroppedNeverEnds(cfg, s, id, now, front);
      SameButCallKept(cfg, After(cfg, s, front), After(cfg, s', front), id, es[|es| - 1]);
      hide SameButCall, Step;
    }
  }

  /** The clock never goes back along the run. */
  ghost predicate Monotone(es: seq<Event>) {
    forall i, j :: 0 <= i < j < |es| && !es[i].Resume? && !es[j].Resume? ==> es[i].now <= es[j].now
  }
}
