/** The hot-reloadable network config of services/config/internal/grpc/handler.go and its version
    counter, an int32 that `ReloadConfig` bumps. */
module ConfigVersion {
  import opened Text

  datatype Config = Config(networkCIDR: string, mtu: int, dnsServers: seq<string>)

  datatype Reply =
    | InvalidArgument
    | Unauthenticated
    | UpToDate(version: int)
    | Full(config: Config, version: int)

  datatype Server = Server(config: Config, version: int)

  /** What `GetConfig` answers an authenticated client that presents `known`. */
  function Answer(s: Server, known: int): Reply {
    if known > 0 && known >= s.version then UpToDate(s.version) else Full(s.config, s.version)
  }

  function Reloaded(s: Server, networkCIDR: string, mtu: int, dnsServers: seq<string>): Server {
    Server(Config(networkCIDR, Int32(mtu), dnsServers), Int32(s.version + 1))
  }

  class ConfigHandler {
    var networkCIDR: string
    var mtu: int
    var dnsServers: seq<string>
    var configVersion: int

    function View(): Server
      reads this
    {
      Server(Config(networkCIDR, mtu, dnsServers), configVersion)
    }

    constructor (networkCIDR: string, mtu: int, dnsServers: seq<string>)
      ensures View() == Server(Config(networkCIDR, Int32(mtu), dnsServers), 1)
    {
      this.networkCIDR, this.mtu, this.dnsServers, configVersion := networkCIDR, Int32(mtu), dnsServers, 1;
    }

    /** `authenticated` is the identity service's verdict on the token. */
    method GetConfig(token: string, authenticated: bool, known: int) returns (reply: Reply)
      ensures reply == if token == "" then InvalidArgument
                       else if !authenticated then Unauthenticated else Answer(View(), known)
    {
      if token == "" {
        return InvalidArgument;
      }
      if !authenticated {
        return Unauthenticated;
      }
      var version, config := configVersion, Config(networkCIDR, mtu, dnsServers);
      if known > 0 && known >= version {
        return UpToDate(version);
      }
      return Full(config, version);
    }

    method ReloadConfig(networkCIDR: string, mtu: int, dnsServers: seq<string>)
      modifies this
      ensures View() == Reloaded(old(View()), networkCIDR, mtu, dnsServers)
    {
      this.networkCIDR, this.mtu, this.dnsServers := networkCIDR, Int32(mtu), dnsServers;
      configVersion := Int32(configVersion + 1);
    }
  }

  // ---------- Runs with caching clients ----------

  /** A reload, or a client that presents the version it last received, 0 if it has none. */
  datatype Event = Reload(networkCIDR: string, mtu: int, dnsServers: seq<string>) | Fetch(client: string)

  /** `installed` lists every config in the order of installation; `cache` holds what each client
      last received in full. */
  datatype Sys = Sys(server: Server, installed: seq<Config>, cache: map<string, Server>)

  function Known(s: Sys, client: string): int {
    if client in s.cache then s.cache[client].version else 0
  }

  function Step(s: Sys, e: Event): Sys {
    match e
    case Reload(networkCIDR, mtu, dnsServers) =>
      var server := Reloaded(s.server, networkCIDR, mtu, dnsServers);
      s.(server := server, installed := s.installed + [server.config])
    case Fetch(client) =>
      (match Answer(s.server, Known(s, client))
       case Full(config, version) => s.(cache := s.cache[client := Server(config, version)])
       case _ => s)
  }

  function After(first: Config, es: seq<Event>): Sys {
    if es == [] then Sys(Server(first, 1), [first], map[]) else Step(After(first, es[..|es| - 1]), es[|es| - 1])
  }

  ghost predicate Coherent(s: Sys) {
    && 1 <= s.server.version == |s.installed|
    && s.server.config == s.installed[|s.installed| - 1]
    && forall client :: client in s.cache ==>
         && 1 <= s.cache[client].version <= |s.installed|
         && s.cache[client].config == s.installed[s.cache[client].version - 1]
  }

  lemma {:induction false} InstalledGrows(first: Config, es: seq<Event>, i: nat)
    requires i <= |es|
    ensures |After(first, es[..i]).installed| <= |After(first, es).installed|
  {
    if i == |es| {
      assert es[..i] == es;
    } else {
      assert es[..|es| - 1][..i] == es[..i];
      InstalledGrows(first, es[..|es| - 1], i);
    }
  }

  lemma {:induction false} CoherentKept(s: Sys, e: Event)
    requires Coherent(s) && |Step(s, e).installed| < 0x8000_0000
    ensures Coherent(Step(s, e))
  {
  }

  lemma {:induction false} CoherentBelow(first: Config, es: seq<Event>)
    requires |After(first, es).installed| < 0x8000_0000
    ensures Coherent(After(first, es))
  {
    if es != [] {
      InstalledGrows(first, es, |es| - 1);
      CoherentBelow(first, es[..|es| - 1]);
      CoherentKept(After(first, es[..|es| - 1]), es[|es| - 1]);
      hide Coherent, Step;
    }
  }

  /** The server serves what the last reload installed, or the first config if there was none; the MTU
      is cut to 32 bits. */
  lemma {:induction false} ServesLatest(first: Config, es: seq<Event>, k: nat)
    requires k <= |es| && forall i :: k <= i < |es| ==> es[i].Fetch?
    ensures var config := After(first, es).server.config;
            && (k == 0 ==> config == first)
            && (k > 0 && es[k - 1].Reload? ==>
                  && config.networkCIDR == es[k - 1].networkCIDR && config.dnsServers == es[k - 1].dnsServers
                  && -0x8000_0000 <= config.mtu < 0x8000_0000 && (config.mtu - es[k - 1].mtu) % 0x1_0000_0000 == 0)
  {
    if k < |es| {
      ServesLatest(first, es[..|es| - 1], k);
    }
  }

  /** With fewer than 2^31 - 1 reloads, a client is told that its config is up to date exactly when
      nothing was installed since the config it holds, which then is the current one. */
  lemma {:induction false} UpToDateExactly(first: Config, es: seq<Event>, client: string)
    requires |After(first, es).installed| < 0x8000_0000
    ensures var s := After(first, es);
            && (Answer(s.server, Known(s, client)).UpToDate? <==>
                  client in s.cache && s.cache[client].version == |s.installed|)
            && (Answer(s.server, Known(s, client)).UpToDate? ==> s.cache[client].config == s.server.config)
  {
    CoherentBelow(first, es);
  }

  lemma {:induction false} NextVersion(s: Sys, e: Event)
    requires s.server.version == Int32(|s.installed|) && |s.installed| >= 1
    requires s.server.config == s.installed[|s.installed| - 1]
    ensures var s' := Step(s, e);
            && s'.server.version == Int32(|s'.installed|) && |s'.installed| >= 1
            && s'.server.config == s'.installed[|s'.installed| - 1]
  {
  }

  lemma {:induction false} VersionCounts(first: Config, es: seq<Event>)
    ensures After(first, es).server.version == Int32(|After(first, es).installed|)
    ensures |After(first, es).installed| >= 1
    ensures var s := After(first, es); s.server.config == s.installed[|s.installed| - 1]
  {
    if es != [] {
      VersionCounts(first, es[..|es| - 1]);
      NextVersion(After(first, es[..|es| - 1]), es[|es| - 1]);
      hide Step;
    }
  }

  /** Version v stands for the v-th installed config, on the server and in every client's cache, in
      exactly the runs with fewer than 2^31 - 1 reloads. */
  lemma {:induction false} VersionsCoherent(first: Config, es: seq<Event>)
    ensures Coherent(After(first, es)) <==> |After(first, es).installed| < 0x8000_0000
  {
    VersionCounts(first, es);
    if |After(first, es).installed| < 0x8000_0000 {
      CoherentBelow(first, es);
    }
    hide After;
  }

  /** From reload number 2^31 - 1 on, and until the counter has come back to 1, every client that
      holds a config under a positive version is told that it is up to date, whatever was installed
      since. */
  lemma {:induction false} WrapTellsStaleClients(first: Config, es: seq<Event>, client: string)
    requires 0x8000_0000 <= |After(first, es).installed| <= 0x1_0000_0000
    requires var s := After(first, es); client in s.cache && s.cache[client].version > 0
    ensures var s := After(first, es);
            && Answer(s.server, Known(s, client)) == UpToDate(s.server.version)
            && s.server.version == |s.installed| - 0x1_0000_0000
  {
    VersionCounts(first, es);
  }

  /** A client that is told it is up to date holds the current config. */
  ghost predicate NotStale(s: Sys, client: string) {
    Answer(s.server, Known(s, client)).UpToDate? ==> client in s.cache && s.cache[client].config == s.server.config
  }

  /** `before` times the first config again, a fetch by `client`, `after` times `newer`. */
  function StaleRun(client: string, first: Config, before: nat, newer: Config, after: nat): seq<Event> {
    if after > 0 then StaleRun(client, first, before, newer, after - 1) + [Installing(newer)]
    else Reloads(first, before) + [Fetch(client)]
  }

  function Installing(config: Config): Event {
    Reload(config.networkCIDR, config.mtu, config.dnsServers)
  }

  function Reloads(config: Config, n: nat): seq<Event> {
    if n == 0 then [] else Reloads(config, n - 1) + [Installing(config)]
  }

  lemma {:induction false} AfterOneMore(first: Config, es: seq<Event>, e: Event)
    ensures After(first, es + [e]) == Step(After(first, es), e)
  {
    assert (es + [e])[..|es|] == es;
  }

  lemma {:induction false} ReloadsReach(first: Config, n: nat)
    requires first.mtu == Int32(first.mtu)
    ensures var s := After(first, Reloads(first, n));
            |s.installed| == n + 1 && s.cache == map[] && s.server.config == first
  {
    if n > 0 {
      ReloadsReach(first, n - 1);
      AfterOneMore(first, Reloads(first, n - 1), Installing(first));
      hide After;
    }
  }

  lemma {:induction false} StaleRunReaches(client: string, first: Config, before: nat, newer: Config, after: nat)
    requires first.mtu == Int32(first.mtu) && newer.mtu == Int32(newer.mtu)
    ensures var s := After(first, StaleRun(client, first, before, newer, after));
            && |s.installed| == before + 1 + after
            && s.cache == map[client := Server(first, Int32(before + 1))]
            && (after > 0 ==> s.server.config == newer)
    decreases after
  {
    if after == 0 {
      ReloadsReach(first, before);
      VersionCounts(first, Reloads(first, before));
      AfterOneMore(first, Reloads(first, before), Fetch(client));
    } else {
      StaleRunReaches(client, first, before, newer, after - 1);
      AfterOneMore(first, StaleRun(client, first, before, newer, after - 1), Installing(newer));
    }
    hide After;
  }

  /** A client that fetches at the top of the counter is told from then on, in every later lap of the
      counter, too, that it is up to date. */
  lemma {:induction false} StaleClientReached(first: Config, newer: Config, client: string, n: nat)
    requires first != newer && first.mtu == Int32(first.mtu) && newer.mtu == Int32(newer.mtu) && n >= 0x8000_0000
    ensures var s := After(first, StaleRun(client, first, 0x7fff_fffe, newer, n - 0x7fff_ffff));
            && |s.installed| == n && !NotStale(s, client)
            && s.cache[client].config == first && s.server.config == newer
  {
    var es := StaleRun(client, first, 0x7fff_fffe, newer, n - 0x7fff_ffff);
    StaleRunReaches(client, first, 0x7fff_fffe, newer, n - 0x7fff_ffff);
    VersionCounts(first, es);
    hide After, StaleRun;
  }

  /** Over all runs with `n` installed configs, clients are never told that a stale config is up to
      date exactly when `n` is less than 2^31. */
  lemma {:induction false} NeverStaleExactly(n: nat)
    requires n >= 1
    ensures (forall first, es, client :: |After(first, es).installed| == n ==> NotStale(After(first, es), client))
       <==> n < 0x8000_0000
  {
    if n < 0x8000_0000 {
      forall first, es, client | |After(first, es).installed| == n ensures NotStale(After(first, es), client) {
        UpToDateExactly(first, es, client);
      }
    } else {
      var first, newer := Config("", 0, []), Config("", 1, []);
      StaleClientReached(first, newer, "", n);
      hide After, StaleRun, NotStale;
      var es := StaleRun("", first, 0x7fff_fffe, newer, n - 0x7fff_ffff);
      assert |After(first, es).installed| == n && !NotStale(After(first, es), "");
    }
  }
}
