/** The per-client request limiter of pkg/ratelimit/ratelimit.go.

    A window opens at a client's first request, lasts `interval` ticks, its last tick
    included, and admits up to `maxReqs` requests. The clock is a parameter of every call. */
module RateLimit {
  import opened Text

  datatype Window = Window(count: int, resetAt: int)

  /** Whether a request of `client` at `now` is admitted. */
  predicate Admits(clients: map<string, Window>, maxReqs: int, client: string, now: int) {
    client !in clients || now > clients[client].resetAt || clients[client].count < maxReqs
  }

  /** The table after a request of `client` at `now`. */
  function AfterAllow(clients: map<string, Window>, maxReqs: int, interval: int, client: string, now: int)
    : map<string, Window>
  {
    if client !in clients || now > clients[client].resetAt then
      clients[client := Window(1, now + interval)]
    else if clients[client].count >= maxReqs then
      clients
    else
      clients[client := clients[client].(count := clients[client].count + 1)]
  }

  /** The windows that are not over at `now`. */
  function Live(clients: map<string, Window>, now: int): map<string, Window> {
    map c | c in clients && now <= clients[c].resetAt :: clients[c]
  }

  class Limiter {
    var clients: map<string, Window>
    const maxReqs: int
    const interval: int

    constructor (maxReqs: int, interval: int)
      requires interval > 0
      ensures this.maxReqs == maxReqs && this.interval == interval && clients == map[]
    {
      this.maxReqs, this.interval := maxReqs, interval;
      clients := map[];
    }

    method Allow(client: string, now: int) returns (ok: bool)
      modifies this`clients
      ensures ok == Admits(old(clients), maxReqs, client, now)
      ensures clients == AfterAllow(old(clients), maxReqs, interval, client, now)
    {
      if client !in clients || now > clients[client].resetAt {
        clients := clients[client := Window(1, now + interval)];
        return true;
      }
      var w := clients[client];
      if w.count >= maxReqs {
        return false;
      }
      clients := clients[client := w.(count := w.count + 1)];
      return true;
    }

    /** Ranges over the table in any order, deleting as it goes. */
    method Cleanup(now: int)
      modifies this`clients
      ensures clients == Live(old(clients), now)
    {
      var todo := clients.Keys;
      while todo != {}
        invariant todo <= clients.Keys
        invariant forall c :: c in clients ==> c in old(clients) && clients[c] == old(clients)[c]
        invariant forall c :: c in old(clients) && (c in todo || now <= old(clients)[c].resetAt) ==> c in clients
        invariant forall c :: c in clients && c !in todo ==> now <= clients[c].resetAt
        decreases todo
      {
        var ip :| ip in todo;
        todo := todo - {ip};
        if now > clients[ip].resetAt {
          clients := clients - {ip};
        }
      }
    }
  }

  // ---------- Runs ----------

  datatype Event = Request(client: string, time: int) | Cleanup(time: int)

  /** The clock never goes back along the run. */
  ghost predicate Monotone(es: seq<Event>) {
    forall i, j :: 0 <= i < j < |es| ==> es[i].time <= es[j].time
  }

  function Next(clients: map<string, Window>, maxReqs: int, interval: int, e: Event): map<string, Window> {
    match e
    case Request(c, t) => AfterAllow(clients, maxReqs, interval, c, t)
    case Cleanup(t) => Live(clients, t)
  }

  /** The table of a fresh limiter after the run `es`. */
  function After(maxReqs: int, interval: int, es: seq<Event>): map<string, Window> {
    if es == [] then map[]
    else
      Next(After(maxReqs, interval, es[..|es| - 1]), maxReqs, interval, es[|es| - 1])
  }

  /** The answers that `client` gets along the run, in order. */
  function Answers(maxReqs: int, interval: int, es: seq<Event>, client: string): seq<bool> {
    if es == [] then []
    else
      var es', e := es[..|es| - 1], es[|es| - 1];
      Answers(maxReqs, interval, es', client) +
      if e.Request? && e.client == client
      then [Admits(After(maxReqs, interval, es'), maxReqs, client, e.time)] else []
  }

  /** The requests of `client` alone: no cleanup, no other client. */
  function Only(es: seq<Event>, client: string): seq<Event> {
    if es == [] then []
    else
      var e := es[|es| - 1];
      Only(es[..|es| - 1], client) + if e.Request? && e.client == client then [e] else []
  }

  /** How many requests of `client` with lo <= time <= hi are admitted along the run. */
  function Admitted(maxReqs: int, interval: int, es: seq<Event>, client: string, lo: int, hi: int): nat {
    if es == [] then 0
    else
      var es', e := es[..|es| - 1], es[|es| - 1];
      Admitted(maxReqs, interval, es', client, lo, hi) +
      if e.Request? && e.client == client && lo <= e.time <= hi
         && Admits(After(maxReqs, interval, es'), maxReqs, client, e.time)
      then 1 else 0
  }

  /** The first request of a window is admitted whatever `maxReqs` is. */
  function Cap(maxReqs: int): (cap: int)
    ensures cap >= 1 && cap >= maxReqs
  {
    if maxReqs < 1 then 1 else maxReqs
  }

  // ---------- Cleanup and other clients change no answer ----------

  ghost predicate NotAfter(es: seq<Event>, t: int) {
    forall i :: 0 <= i < |es| ==> es[i].time <= t
  }

  /** Two tables that no request of `client` at `t` or later can tell apart. */
  ghost predicate Agree(m: map<string, Window>, m': map<string, Window>, client: string, t: int) {
    && (client in Live(m, t) <==> client in Live(m', t))
    && (client in Live(m, t) ==> m[client] == m'[client])
  }

  lemma {:induction false} NextAgrees(
      m: map<string, Window>, m': map<string, Window>, maxReqs: int, interval: int, client: string, e: Event, t: int)
    requires interval >= 0 && e.time <= t && Agree(m, m', client, e.time)
    ensures var m1 := Next(m, maxReqs, interval, e);
            if e.Request? && e.client == client
            then Agree(m1, Next(m', maxReqs, interval, e), client, t)
                 && Admits(m, maxReqs, client, e.time) == Admits(m', maxReqs, client, e.time)
            else Agree(m1, m', client, t)
  {
  }

  /** The run functions on a run one event longer. */
  lemma {:induction false} Unsnoc(
      maxReqs: int, interval: int, es: seq<Event>, e: Event, client: string, lo: int, hi: int)
    ensures After(maxReqs, interval, es + [e]) == Next(After(maxReqs, interval, es), maxReqs, interval, e)
    ensures Answers(maxReqs, interval, es + [e], client) == Answers(maxReqs, interval, es, client) +
              if e.Request? && e.client == client
              then [Admits(After(maxReqs, interval, es), maxReqs, client, e.time)] else []
    ensures Admitted(maxReqs, interval, es + [e], client, lo, hi) == Admitted(maxReqs, interval, es, client, lo, hi) +
              if e.Request? && e.client == client && lo <= e.time <= hi
                 && Admits(After(maxReqs, interval, es), maxReqs, client, e.time)
              then 1 else 0
  {
    var es' := es + [e];
    assert es'[..|es'| - 1] == es && es'[|es'| - 1] == e;
  }

  lemma {:induction false} OnlyMatters(maxReqs: int, interval: int, es: seq<Event>, client: string, t: int)
    requires interval >= 0 && Monotone(es) && NotAfter(es, t)
    ensures NotAfter(Only(es, client), t)
    ensures Agree(After(maxReqs, interval, es), After(maxReqs, interval, Only(es, client)), client, t)
    ensures Answers(maxReqs, interval, es, client) == Answers(maxReqs, interval, Only(es, client), client)
  {
    if es == [] {
    } else {
      var es', e := es[..|es| - 1], es[|es| - 1];
      OnlyMatters(maxReqs, interval, es', client, e.time);
      var only := Only(es', client);
      var m, m' := After(maxReqs, interval, es'), After(maxReqs, interval, only);
      NextAgrees(m, m', maxReqs, interval, client, e, t);
      if e.Request? && e.client == client {
        Unsnoc(maxReqs, interval, only, e, client, t, t);
        assert Only(es, client) == only + [e];
      } else {
        assert Only(es, client) == only;
      }
    }
  }

  /** Runs that hold the same requests of `client` give `client` the same answers, wherever
      cleanups run and whatever other clients send. */
  lemma {:induction false} ClientIndependence(
      maxReqs: int, interval: int, es1: seq<Event>, es2: seq<Event>, client: string)
    requires interval >= 0 && Monotone(es1) && Monotone(es2)
    requires Only(es1, client) == Only(es2, client)
    ensures Answers(maxReqs, interval, es1, client) == Answers(maxReqs, interval, es2, client)
  {
    OnlyMatters(maxReqs, interval, es1, client, if es1 == [] then 0 else es1[|es1| - 1].time);
    OnlyMatters(maxReqs, interval, es2, client, if es2 == [] then 0 else es2[|es2| - 1].time);
  }

  // ---------- Answers by history ----------

  /** How many requests the client has made at `lo` or later, admitted or not. */
  function Requested(es: seq<Event>, client: string, lo: int): nat {
    if es == [] then 0
    else
      var e := es[|es| - 1];
      Requested(es[..|es| - 1], client, lo) + if e.Request? && e.client == client && lo <= e.time then 1 else 0
  }

  /** When the client's latest window was opened: by its first request, and then by each first request
      that comes more than `interval` after the last opening. */
  function Opening(interval: int, es: seq<Event>, client: string): Option<int> {
    if es == [] then None
    else
      var e, last := es[|es| - 1], Opening(interval, es[..|es| - 1], client);
      if e.Request? && e.client == client && (last == None || e.time > last.value + interval) then Some(e.time)
      else last
  }

  /** What a window counts after `n` requests. */
  function Counted(n: nat, maxReqs: int): int {
    if n < maxReqs then n else Cap(maxReqs)
  }

  /** The table holds the window that was opened at `o` and has seen `n` requests, unless it is over. */
  ghost predicate Shows(
    m: map<string, Window>, maxReqs: int, interval: int, client: string, o: int, n: nat, now: int) {
    && (client !in m ==> now > o + interval)
    && (client in m ==> m[client] == Window(Counted(n, maxReqs), o + interval))
  }

  lemma {:induction false} NewWindow(
      m: map<string, Window>, maxReqs: int, interval: int, client: string, t: int, now: int)
    requires client in m ==> t > m[client].resetAt
    ensures Shows(AfterAllow(m, maxReqs, interval, client, t), maxReqs, interval, client, t, 1, now)
  {
  }

  lemma {:induction false} SameWindow(
      m: map<string, Window>, maxReqs: int, interval: int, client: string, o: int, n: nat, t: int, now: int)
    requires Shows(m, maxReqs, interval, client, o, n, t) && n >= 1 && t <= o + interval
    ensures Shows(AfterAllow(m, maxReqs, interval, client, t), maxReqs, interval, client, o, n + 1, now)
  {
  }

  lemma {:induction false} OtherEvent(
      m: map<string, Window>, maxReqs: int, interval: int, client: string, e: Event, o: int, n: nat, now: int)
    requires Shows(m, maxReqs, interval, client, o, n, e.time) && e.time <= now
    requires !(e.Request? && e.client == client)
    ensures Shows(Next(m, maxReqs, interval, e), maxReqs, interval, client, o, n, now)
  {
  }

  /** How the table stands for the client's history at `now`. */
  ghost predicate TellsHistory(
      m: map<string, Window>, maxReqs: int, interval: int, es: seq<Event>, client: string, now: int) {
    match Opening(interval, es, client)
    case None => client !in m && forall lo :: Requested(es, client, lo) == 0
    case Some(o) =>
      && o <= now && Requested(es, client, o) >= 1
      && (forall lo :: lo > o + interval ==> Requested(es, client, lo) == 0)
      && Shows(m, maxReqs, interval, client, o, Requested(es, client, o), now)
  }

  lemma {:induction false} HistoryTold(
      maxReqs: int, interval: int, es: seq<Event>, client: string, now: int)
    requires interval >= 0 && Monotone(es) && NotAfter(es, now)
    ensures TellsHistory(After(maxReqs, interval, es), maxReqs, interval, es, client, now)
  {
    if es == [] {
    } else {
      var es', e := es[..|es| - 1], es[|es| - 1];
      HistoryTold(maxReqs, interval, es', client, e.time);
      var m, last := After(maxReqs, interval, es'), Opening(interval, es', client);
      assert forall lo :: Requested(es, client, lo) == Requested(es', client, lo) +
                            if e.Request? && e.client == client && lo <= e.time then 1 else 0;
      if e.Request? && e.client == client {
        if last == None || e.time > last.value + interval {
          hide AfterAllow;
          assert Requested(es', client, e.time) == 0;
          NewWindow(m, maxReqs, interval, client, e.time, now);
        } else {
          hide AfterAllow;
          SameWindow(m, maxReqs, interval, client, last.value, Requested(es', client, last.value), e.time, now);
        }
      } else if last.Some? {
        hide AfterAllow;
        OtherEvent(m, maxReqs, interval, client, e, last.value, Requested(es', client, last.value), now);
      }
      hide Shows;
    }
  }

  /** In every run a request is admitted exactly if the client's window is over, or none was ever opened,
      or the client has made fewer than maxReqs requests since the window was opened. A refused request
      does not put the end of the window off. */
  lemma {:induction false} AdmitsByHistory(maxReqs: int, interval: int, es: seq<Event>, client: string, t: int)
    requires interval >= 0 && Monotone(es) && NotAfter(es, t)
    ensures Admits(After(maxReqs, interval, es), maxReqs, client, t) <==>
              match Opening(interval, es, client)
              case None => true
              case Some(o) => t > o + interval || Requested(es, client, o) < maxReqs
  {
    HistoryTold(maxReqs, interval, es, client, t);
    hide After, Opening, Requested, Monotone, NotAfter;
  }

  /** The requests that filled the window were all admitted in it. */
  lemma {:induction false} CountAdmitted(maxReqs: int, interval: int, es: seq<Event>, client: string, now: int)
    requires interval >= 0 && Monotone(es) && NotAfter(es, now)
    ensures var m := After(maxReqs, interval, es);
            client in m ==>
              && m[client].resetAt <= now + interval
              && m[client].count <= Admitted(maxReqs, interval, es, client, m[client].resetAt - interval, now)
  {
    if es == [] {
    } else {
      var es', e := es[..|es| - 1], es[|es| - 1];
      CountAdmitted(maxReqs, interval, es', client, e.time);
      var m := After(maxReqs, interval, es);
      if client in m {
        var lo := m[client].resetAt - interval;
        AdmittedGrows(maxReqs, interval, es, client, lo, e.time, now);
        AdmittedGrows(maxReqs, interval, es', client, lo, e.time, e.time);
      }
    }
  }

  lemma {:induction false} AdmittedGrows(
      maxReqs: int, interval: int, es: seq<Event>, client: string, lo: int, hi: int, hi': int)
    requires hi <= hi'
    ensures Admitted(maxReqs, interval, es, client, lo, hi) <= Admitted(maxReqs, interval, es, client, lo, hi')
  {
    if es != [] {
      AdmittedGrows(maxReqs, interval, es[..|es| - 1], client, lo, hi, hi');
    }
  }

  lemma {:induction false} AdmittedLess(
      maxReqs: int, interval: int, es: seq<Event>, client: string, lo: int, lo': int, hi: int)
    requires lo <= lo'
    ensures Admitted(maxReqs, interval, es, client, lo', hi) <= Admitted(maxReqs, interval, es, client, lo, hi)
  {
    if es != [] {
      AdmittedLess(maxReqs, interval, es[..|es| - 1], client, lo, lo', hi);
    }
  }

  /** The limiter is never stricter than a sliding window: a request is admitted if fewer than maxReqs of
      the client's were admitted in the time `interval` before it. */
  lemma {:induction false} NeverStricter(maxReqs: int, interval: int, es: seq<Event>, client: string, t: int)
    requires interval >= 0 && Monotone(es) && NotAfter(es, t)
    requires Admitted(maxReqs, interval, es, client, t - interval, t) < maxReqs
    ensures Admits(After(maxReqs, interval, es), maxReqs, client, t)
  {
    var m := After(maxReqs, interval, es);
    CountAdmitted(maxReqs, interval, es, client, t);
    if client in m && t <= m[client].resetAt {
      AdmittedLess(maxReqs, interval, es, client, t - interval, m[client].resetAt - interval, t);
    }
  }

  /** A cleanup forgets whoever has made no request since `interval` before it. */
  lemma {:induction false} CleanupForgets(maxReqs: int, interval: int, es: seq<Event>, client: string, t: int)
    requires interval >= 0 && Monotone(es) && NotAfter(es, t)
    ensures client in After(maxReqs, interval, es + [Cleanup(t)]) ==> Requested(es, client, t - interval) >= 1
    ensures client in After(maxReqs, interval, es + [Cleanup(t)]) <==>
              var o := Opening(interval, es, client);
              o.Some? && t <= o.value + interval
  {
    HistoryTold(maxReqs, interval, es, client, t);
    assert (es + [Cleanup(t)])[..|es|] == es;
    var o := Opening(interval, es, client);
    if o.Some? && t <= o.value + interval {
      FewerSince(es, client, t - interval, o.value);
    }
    hide Opening, Requested;
  }

  lemma {:induction false} FewerSince(es: seq<Event>, client: string, lo: int, lo': int)
    requires lo <= lo'
    ensures Requested(es, client, lo') <= Requested(es, client, lo)
  {
    if es != [] {
      FewerSince(es[..|es| - 1], client, lo, lo');
    }
  }

  // ---------- The rate bound ----------

  /** What is known of the window of `client` when `n` of its requests in [lo, lo + interval]
      have been admitted and the clock stands at `now`. */
  ghost predicate BoundInv(
      clients: map<string, Window>, maxReqs: int, interval: int, client: string, lo: int, now: int, n: nat) {
    && n <= 2 * Cap(maxReqs) - 1
    && (now < lo ==> n == 0)
    && (client in clients ==>
          && 1 <= clients[client].count <= Cap(maxReqs)
          && clients[client].resetAt <= now + interval
          && (clients[client].resetAt < lo + interval ==> n <= clients[client].count - 1))
    && (now <= lo + interval ==>
          || n <= Cap(maxReqs) - 1
          || (client in clients && clients[client].resetAt >= lo + interval
              && n <= Cap(maxReqs) - 1 + clients[client].count))
  }

  lemma {:induction false} BoundHolds(maxReqs: int, interval: int, es: seq<Event>, client: string, lo: int, now: int)
    requires interval >= 0 && Monotone(es) && NotAfter(es, now)
    ensures BoundInv(After(maxReqs, interval, es), maxReqs, interval, client, lo, now,
                     Admitted(maxReqs, interval, es, client, lo, lo + interval))
  {
    if es == [] {
    } else {
      BoundHolds(maxReqs, interval, es[..|es| - 1], client, lo, es[|es| - 1].time);
    }
  }

  /** Any closed time interval as long as the window holds at most 2 * maxReqs - 1 admitted
      requests of one client. */
  lemma {:induction false} RateBound(maxReqs: int, interval: int, es: seq<Event>, client: string, lo: int)
    requires interval >= 0 && Monotone(es)
    ensures Admitted(maxReqs, interval, es, client, lo, lo + interval) <= 2 * Cap(maxReqs) - 1
  {
    BoundHolds(maxReqs, interval, es, client, lo, if es == [] then 0 else es[|es| - 1].time);
  }

  /** The run `es` followed by `k` requests of `client` at time `t`. */
  function Burst(es: seq<Event>, client: string, t: int, k: nat): seq<Event> {
    if k == 0 then es else Burst(es, client, t, k - 1) + [Request(client, t)]
  }

  /** One request, the rest of its quota at the window's last tick, a full quota one tick later. */
  function WorstRun(maxReqs: int, interval: int, client: string): seq<Event> {
    var first := Burst([], client, 0, 1);
    var second := Burst(first, client, interval, Cap(maxReqs) - 1);
    Burst(second, client, interval + 1, Cap(maxReqs))
  }

  lemma {:induction false} BurstMonotone(es: seq<Event>, client: string, t: int, k: nat)
    requires Monotone(es) && NotAfter(es, t)
    ensures Monotone(Burst(es, client, t, k)) && NotAfter(Burst(es, client, t, k), t)
  {
    if k > 0 {
      BurstMonotone(es, client, t, k - 1);
    }
  }

  /** A request at `t` opens a window. */
  lemma {:induction false} Opens(maxReqs: int, interval: int, es: seq<Event>, client: string, t: int, lo: int, hi: int)
    requires var m := After(maxReqs, interval, es); client in m ==> m[client].resetAt < t
    ensures HasWindow(After(maxReqs, interval, Burst(es, client, t, 1)), client, Window(1, t + interval))
    ensures Admitted(maxReqs, interval, Burst(es, client, t, 1), client, lo, hi)
         == Admitted(maxReqs, interval, es, client, lo, hi) + if lo <= t <= hi then 1 else 0
  {
    assert Burst(es, client, t, 1) == Burst(es, client, t, 0) + [Request(client, t)];
    Unsnoc(maxReqs, interval, es, Request(client, t), client, lo, hi);
  }

  lemma {:induction false} BurstAdds(es: seq<Event>, client: string, t: int, j: nat, k: nat)
    ensures Burst(Burst(es, client, t, j), client, t, k) == Burst(es, client, t, j + k)
  {
    if k > 0 {
      BurstAdds(es, client, t, j, k - 1);
    }
  }

  ghost predicate HasWindow(clients: map<string, Window>, client: string, w: Window) {
    client in clients && clients[client] == w
  }

  lemma {:induction false} OneMore(
      maxReqs: int, interval: int, es: seq<Event>, w: Window, client: string, t: int, lo: int, hi: int)
    requires lo <= t <= hi && t <= w.resetAt && w.count < Cap(maxReqs) && 1 <= w.count
    requires HasWindow(After(maxReqs, interval, es), client, w)
    ensures HasWindow(After(maxReqs, interval, es + [Request(client, t)]), client, w.(count := w.count + 1))
    ensures Admitted(maxReqs, interval, es + [Request(client, t)], client, lo, hi)
         == Admitted(maxReqs, interval, es, client, lo, hi) + 1
  {
    Unsnoc(maxReqs, interval, es, Request(client, t), client, lo, hi);
  }

  /** A live window with room for `k` more admits `k` more. */
  lemma {:induction false} BurstFills(
      maxReqs: int, interval: int, es: seq<Event>, w: Window, client: string, t: int, k: nat, lo: int, hi: int)
    requires lo <= t <= hi && t <= w.resetAt && 1 <= w.count && w.count + k <= Cap(maxReqs)
    requires HasWindow(After(maxReqs, interval, es), client, w)
    ensures HasWindow(After(maxReqs, interval, Burst(es, client, t, k)), client, Window(w.count + k, w.resetAt))
    ensures Admitted(maxReqs, interval, Burst(es, client, t, k), client, lo, hi)
         == Admitted(maxReqs, interval, es, client, lo, hi) + k
    decreases k
  {
    hide After, Admitted, Admits;
    if k > 0 {
      BurstFills(maxReqs, interval, es, w, client, t, k - 1, lo, hi);
      OneMore(maxReqs, interval, Burst(es, client, t, k - 1), Window(w.count + k - 1, w.resetAt), client, t, lo, hi);
    }
  }

  lemma {:induction false} WorstRunMonotone(maxReqs: int, interval: int, client: string)
    requires interval >= 1
    ensures Monotone(WorstRun(maxReqs, interval, client))
  {
    var first := Burst([], client, 0, 1);
    BurstMonotone([], client, 0, 1);
    BurstMonotone(first, client, interval, Cap(maxReqs) - 1);
    BurstMonotone(Burst(first, client, interval, Cap(maxReqs) - 1), client, interval + 1, Cap(maxReqs));
  }

  /** A request of `client` at `t` that finds no live window, and `k` more at the same time. */
  lemma {:induction false} OpenAndFill(
      maxReqs: int, interval: int, es: seq<Event>, client: string, t: int, k: nat, lo: int, hi: int)
    requires interval >= 0 && lo <= t <= hi && k < Cap(maxReqs)
    requires var m := After(maxReqs, interval, es); client in m ==> m[client].resetAt < t
    ensures Admitted(maxReqs, interval, Burst(es, client, t, k + 1), client, lo, hi)
         == Admitted(maxReqs, interval, es, client, lo, hi) + k + 1
  {
    Opens(maxReqs, interval, es, client, t, lo, hi);
    BurstFills(maxReqs, interval, Burst(es, client, t, 1), Window(1, t + interval), client, t, k, lo, hi);
    BurstAdds(es, client, t, 1, k);
    hide *;
  }

  lemma {:induction false} WorstRunIs(maxReqs: int, interval: int, client: string)
    ensures WorstRun(maxReqs, interval, client) ==
              var first := Burst(Burst([], client, 0, 1), client, interval, Cap(maxReqs) - 1);
              Burst(first, client, interval + 1, Cap(maxReqs))
  {
    hide Burst;
  }

  lemma {:induction false} NothingYet(maxReqs: int, interval: int, client: string, lo: int, hi: int)
    ensures After(maxReqs, interval, []) == map[] && Admitted(maxReqs, interval, [], client, lo, hi) == 0
    ensures Only([], client) == []
  {
  }

  /** The bound is reached. */
  lemma {:induction false} RateBoundReached(maxReqs: int, interval: int, client: string)
    requires interval >= 1
    ensures Monotone(WorstRun(maxReqs, interval, client))
    ensures Admitted(maxReqs, interval, WorstRun(maxReqs, interval, client), client, 1, 1 + interval)
         == 2 * Cap(maxReqs) - 1
  {
    hide After, Admitted, Admits, Burst, WorstRun, Monotone;
    WorstRunMonotone(maxReqs, interval, client);
    var cap, first := Cap(maxReqs), Burst([], client, 0, 1);
    var second := Burst(first, client, interval, cap - 1);
    NothingYet(maxReqs, interval, client, 1, 1 + interval);
    Opens(maxReqs, interval, [], client, 0, 1, 1 + interval);
    BurstFills(maxReqs, interval, first, Window(1, interval), client, interval, cap - 1, 1, 1 + interval);
    OpenAndFill(maxReqs, interval, second, client, 1 + interval, cap - 1, 1, 1 + interval);
    WorstRunIs(maxReqs, interval, client);
  }

  /** What a sliding window of the same size would promise. */
  ghost predicate SlidingPromise(maxReqs: int, interval: int, es: seq<Event>, client: string, lo: int) {
    Monotone(es) ==> Admitted(maxReqs, interval, es, client, lo, lo + interval) <= maxReqs
  }

  /** The limiter keeps a sliding window's promise exactly when one request fills the window. */
  lemma {:induction false} SlidingWindowOnlyForOne(maxReqs: int, interval: int)
    requires interval >= 1
    ensures (forall es, client, lo :: SlidingPromise(maxReqs, interval, es, client, lo)) <==> maxReqs == 1
  {
    RateBoundReached(maxReqs, interval, "");
    if maxReqs != 1 {
      assert !SlidingPromise(maxReqs, interval, WorstRun(maxReqs, interval, ""), "", 1);
    } else {
      forall es, client, lo ensures SlidingPromise(maxReqs, interval, es, client, lo) {
        if Monotone(es) {
          RateBound(maxReqs, interval, es, client, lo);
        }
      }
    }
  }

  // ---------- One address on several ports ----------

  /** The key under which a TCP peer is limited: the text of its address, port included. */
  function Key(host: string, port: int): string {
    host + ":" + Sprint(port)
  }

  ghost predicate PortList(ports: seq<int>) {
    && (forall i :: 0 <= i < |ports| ==> 0 <= ports[i] < 0x1_0000)
    && (forall i, j :: 0 <= i < j < |ports| ==> ports[i] != ports[j])
  }

  /** How many requests with lo <= time <= hi one host gets through from all of these ports. */
  function PerHost(maxReqs: int, interval: int, es: seq<Event>, host: string, ports: seq<int>, lo: int, hi: int): nat {
    if ports == [] then 0
    else
      var n := |ports| - 1;
      PerHost(maxReqs, interval, es, host, ports[..n], lo, hi)
      + Admitted(maxReqs, interval, es, Key(host, ports[n]), lo, hi)
  }

  /** One host gets at most 2 * maxReqs - 1 requests through for each port it uses. */
  lemma {:induction false} PerHostBound(
      maxReqs: int, interval: int, es: seq<Event>, host: string, ports: seq<int>, lo: int)
    requires interval >= 0 && Monotone(es)
    ensures PerHost(maxReqs, interval, es, host, ports, lo, lo + interval) <= |ports| * (2 * Cap(maxReqs) - 1)
  {
    if ports != [] {
      var n, b := |ports| - 1, 2 * Cap(maxReqs) - 1;
      PerHostBound(maxReqs, interval, es, host, ports[..n], lo);
      RateBound(maxReqs, interval, es, Key(host, ports[n]), lo);
      TimesNext(n, b);
      hide Admitted, Monotone, Key;
    }
  }

  lemma {:induction false} TimesNext(n: nat, b: nat)
    ensures (n + 1) * b == n * b + b
    ensures n >= 1 && b >= 1 ==> n * b >= 1
  {
  }

  lemma {:induction false} KeyInjective(host: string, p: int, q: int)
    requires 0 <= p < 0x1_0000 && 0 <= q < 0x1_0000 && Key(host, p) == Key(host, q)
    ensures p == q
  {
    assert Key(host, p)[|host| + 1..] == Sprint(p) && Key(host, q)[|host| + 1..] == Sprint(q);
    AtoiSprint(p);
    AtoiSprint(q);
  }

  /** A client's count, too, depends on its own requests alone. */
  lemma {:induction false} AdmittedOnly(maxReqs: int, interval: int, es: seq<Event>, client: string, lo: int, hi: int)
    requires interval >= 0 && Monotone(es)
    ensures Admitted(maxReqs, interval, es, client, lo, hi)
         == Admitted(maxReqs, interval, Only(es, client), client, lo, hi)
  {
    if es != [] {
      var es', e := es[..|es| - 1], es[|es| - 1];
      AdmittedOnly(maxReqs, interval, es', client, lo, hi);
      OnlyMatters(maxReqs, interval, es', client, e.time);
      var only := Only(es', client);
      if e.Request? && e.client == client {
        NextAgrees(After(maxReqs, interval, es'), After(maxReqs, interval, only), maxReqs, interval, client, e, e.time);
        Unsnoc(maxReqs, interval, only, e, client, lo, hi);
        assert Only(es, client) == only + [e];
      } else {
        assert Only(es, client) == only;
      }
      hide After, Admits, Agree, Monotone, NotAfter, Next;
    }
  }

  /** The run `es` followed by `k` requests at time `t` from each of the ports. */
  function Bursts(es: seq<Event>, host: string, ports: seq<int>, t: int, k: nat): seq<Event> {
    if ports == [] then es
    else Burst(Bursts(es, host, ports[..|ports| - 1], t, k), Key(host, ports[|ports| - 1]), t, k)
  }

  /** The worst run on all ports at once. */
  function WorstRunOn(maxReqs: int, interval: int, host: string, ports: seq<int>): seq<Event> {
    var first := Bursts([], host, ports, 0, 1);
    var second := Bursts(first, host, ports, interval, Cap(maxReqs) - 1);
    Bursts(second, host, ports, interval + 1, Cap(maxReqs))
  }

  lemma {:induction false} BurstsMonotone(es: seq<Event>, host: string, ports: seq<int>, t: int, k: nat)
    requires Monotone(es) && NotAfter(es, t)
    ensures Monotone(Bursts(es, host, ports, t, k)) && NotAfter(Bursts(es, host, ports, t, k), t)
  {
    if ports != [] {
      BurstsMonotone(es, host, ports[..|ports| - 1], t, k);
      BurstMonotone(Bursts(es, host, ports[..|ports| - 1], t, k), Key(host, ports[|ports| - 1]), t, k);
    }
    hide Monotone, NotAfter;
  }

  lemma {:induction false} OnlyOneMore(es: seq<Event>, e: Event, client: string)
    ensures Only(es + [e], client) == Only(es, client) + if e.Request? && e.client == client then [e] else []
  {
    assert (es + [e])[..|es|] == es;
  }

  lemma {:induction false} OnlyOfBurst(es: seq<Event>, sender: string, t: int, k: nat, client: string)
    ensures Only(Burst(es, sender, t, k), client) ==
              if sender == client then Burst(Only(es, client), client, t, k) else Only(es, client)
    decreases k
  {
    if k > 0 {
      OnlyOfBurst(es, sender, t, k - 1, client);
      OnlyOneMore(Burst(es, sender, t, k - 1), Request(sender, t), client);
      hide Only;
    }
  }

  lemma {:induction false} OnlyOfBursts(es: seq<Event>, host: string, ports: seq<int>, t: int, k: nat, port: int)
    requires PortList(ports) && 0 <= port < 0x1_0000
    ensures var key := Key(host, port);
            Only(Bursts(es, host, ports, t, k), key) ==
              if port in ports then Burst(Only(es, key), key, t, k) else Only(es, key)
  {
    if ports != [] {
      var front, last := ports[..|ports| - 1], ports[|ports| - 1];
      assert port in ports <==> port in front || port == last;
      assert port in front ==> port != last;
      hide Only, Burst, Key, PortList;
      OnlyOfBursts(es, host, front, t, k, port);
      OnlyOfBurst(Bursts(es, host, front, t, k), Key(host, last), t, k, Key(host, port));
      if last != port && Key(host, last) == Key(host, port) {
        KeyInjective(host, last, port);
      }
    }
  }

  lemma {:induction false} WorstRunOnOnly(maxReqs: int, interval: int, host: string, ports: seq<int>, port: int)
    requires PortList(ports) && port in ports
    ensures Only(WorstRunOn(maxReqs, interval, host, ports), Key(host, port)) ==
              WorstRun(maxReqs, interval, Key(host, port))
  {
    hide *;
    var cap, key := Cap(maxReqs), Key(host, port);
    var first := Bursts([], host, ports, 0, 1);
    var second := Bursts(first, host, ports, interval, cap - 1);
    NothingYet(maxReqs, interval, key, 0, 0);
    OnlyOfOwnBursts([], [], host, ports, 0, 1, port);
    OnlyOfOwnBursts(first, Burst([], key, 0, 1), host, ports, interval, cap - 1, port);
    OnlyOfOwnBursts(second, Burst(Burst([], key, 0, 1), key, interval, cap - 1), host, ports, interval + 1, cap, port);
    WorstRunIs(maxReqs, interval, key);
    WorstRunOnIs(maxReqs, interval, host, ports);
  }

  lemma {:induction false} OnlyOfOwnBursts(
      es: seq<Event>, only: seq<Event>, host: string, ports: seq<int>, t: int, k: nat, port: int)
    requires PortList(ports) && port in ports && Only(es, Key(host, port)) == only
    ensures Only(Bursts(es, host, ports, t, k), Key(host, port)) == Burst(only, Key(host, port), t, k)
  {
    assert 0 <= port < 0x1_0000;
    hide *;
    OnlyOfBursts(es, host, ports, t, k, port);
  }

  lemma {:induction false} WorstRunOnIs(maxReqs: int, interval: int, host: string, ports: seq<int>)
    ensures WorstRunOn(maxReqs, interval, host, ports) ==
              var first := Bursts(Bursts([], host, ports, 0, 1), host, ports, interval, Cap(maxReqs) - 1);
              Bursts(first, host, ports, interval + 1, Cap(maxReqs))
  {
    hide Bursts;
  }

  lemma {:induction false} WorstRunOnMonotone(maxReqs: int, interval: int, host: string, ports: seq<int>)
    requires interval >= 1
    ensures Monotone(WorstRunOn(maxReqs, interval, host, ports))
  {
    var cap := Cap(maxReqs);
    var first := Bursts([], host, ports, 0, 1);
    var second := Bursts(first, host, ports, interval, cap - 1);
    BurstsMonotone([], host, ports, 0, 1);
    LaterStill(first, 0, interval);
    BurstsMonotone(first, host, ports, interval, cap - 1);
    LaterStill(second, interval, interval + 1);
    BurstsMonotone(second, host, ports, interval + 1, cap);
    hide Monotone, NotAfter, Bursts;
  }

  lemma {:induction false} LaterStill(es: seq<Event>, t: int, t': int)
    requires NotAfter(es, t) && t <= t'
    ensures NotAfter(es, t')
  {
  }

  lemma {:induction false} PerHostOfWorstRun(maxReqs: int, interval: int, host: string, ports: seq<int>, n: nat)
    requires interval >= 1 && PortList(ports) && n <= |ports|
    ensures PerHost(maxReqs, interval, WorstRunOn(maxReqs, interval, host, ports), host, ports[..n], 1, 1 + interval)
         == n * (2 * Cap(maxReqs) - 1)
  {
    if n > 0 {
      var es, port, b := WorstRunOn(maxReqs, interval, host, ports), ports[n - 1], 2 * Cap(maxReqs) - 1;
      PerHostOfWorstRun(maxReqs, interval, host, ports, n - 1);
      OnePortOfWorstRun(maxReqs, interval, host, ports, port);
      assert ports[..n][..n - 1] == ports[..n - 1];
      TimesNext(n - 1, b);
      hide Admitted, WorstRunOn, PortList, Key;
    }
  }

  lemma {:induction false} OnePortOfWorstRun(maxReqs: int, interval: int, host: string, ports: seq<int>, port: int)
    requires interval >= 1 && PortList(ports) && port in ports
    ensures Admitted(maxReqs, interval, WorstRunOn(maxReqs, interval, host, ports), Key(host, port), 1, 1 + interval)
         == 2 * Cap(maxReqs) - 1
  {
    hide *;
    WorstRunOnMonotone(maxReqs, interval, host, ports);
    AdmittedOnly(maxReqs, interval, WorstRunOn(maxReqs, interval, host, ports), Key(host, port), 1, 1 + interval);
    WorstRunOnOnly(maxReqs, interval, host, ports, port);
    RateBoundReached(maxReqs, interval, Key(host, port));
  }

  /** What a limit per address would promise to a host on `n` ports. */
  ghost predicate AddressPromise(maxReqs: int, interval: int, es: seq<Event>, host: string, ports: seq<int>, lo: int) {
    Monotone(es) && PortList(ports) ==>
      PerHost(maxReqs, interval, es, host, ports, lo, lo + interval) <= 2 * Cap(maxReqs) - 1
  }

  /** The run gives a host on `n` ports as much as `PerHostBound` allows. */
  ghost predicate ManyPortsReach(maxReqs: int, interval: int, es: seq<Event>, host: string, ports: seq<int>, n: nat) {
    && Monotone(es) && PortList(ports) && |ports| == n
    && PerHost(maxReqs, interval, es, host, ports, 1, 1 + interval) == n * (2 * Cap(maxReqs) - 1)
  }

  /** The limit holds per address exactly for hosts on a single port. With `n` ports a host gets up to
      n * (2 * maxReqs - 1) requests through in the length of a window, and some run reaches that. */
  lemma {:induction false} PerAddressOnlyOnOnePort(maxReqs: int, interval: int, n: nat)
    requires interval >= 1 && 1 <= n <= 0x1_0000
    ensures (forall es, host, ports, lo :: |ports| == n ==> AddressPromise(maxReqs, interval, es, host, ports, lo))
            <==> n == 1
    ensures exists es, host, ports :: ManyPortsReach(maxReqs, interval, es, host, ports, n)
  {
    var ports, b := seq(n, i => i), 2 * Cap(maxReqs) - 1;
    var es := WorstRunOn(maxReqs, interval, "", ports);
    assert PortList(ports) && ports[..n] == ports;
    WorstRunOnMonotone(maxReqs, interval, "", ports);
    PerHostOfWorstRun(maxReqs, interval, "", ports, n);
    assert ManyPortsReach(maxReqs, interval, es, "", ports, n);
    hide Monotone, PortList, PerHost, WorstRunOn;
    if n == 1 {
      forall es, host, ports, lo | |ports| == n ensures AddressPromise(maxReqs, interval, es, host, ports, lo) {
        if Monotone(es) {
          PerHostBound(maxReqs, interval, es, host, ports, lo);
        }
      }
    } else {
      TimesNext(n - 1, b);
      assert !AddressPromise(maxReqs, interval, es, "", ports, 1);
    }
  }
}
