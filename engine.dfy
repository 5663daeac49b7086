/**
 * `query/engine.go`: the query engine's port choices and orderings. It
 * covers the ports tried for one protocol, the port strategies, and the
 * dynamic discovery scan that walks outward from each protocol's default
 * ports until three ports in a row are dead. It also covers the protocol
 * order for a port and the dispatch on the request type. Whether a port
 * has an active server (`hasActiveServer`) is a function parameter.
 */
module Engine {
  import opened Wrappers
  import opened Types
  import Text
  import Registry
  import Query

  // ---------------------------------------------------------------- getSingleProtocolPorts

  /** The port a single-protocol query starts on: the given one, else the protocol's default port. */
  function MainPort(proto: Protocol, specifiedPort: int): int
  {
    if specifiedPort != 0 then specifiedPort else proto.defaultPort
  }

  /**
   * `getSingleProtocolPorts` (and `SinglePortStrategy.GetPorts`, the same
   * code): the main port, then its adjacent ports.
   */
  method SingleProtocolPorts(proto: Protocol, specifiedPort: int) returns (ports: seq<int>)
    ensures ports == [MainPort(proto, specifiedPort)] + Query.Adjacent(MainPort(proto, specifiedPort))
  {
    var mainPort := specifiedPort;
    if mainPort == 0 {
      mainPort := proto.defaultPort;
    }
    var adjacent := Query.AdjacentPorts(mainPort);
    ports := [mainPort] + adjacent;
  }

  /**
   * The single-protocol port list holds one to seven ports: the main port
   * first and only there, every other one at most three away from it.
   */
  lemma SingleProtocolPortsShape(proto: Protocol, specifiedPort: int)
    ensures var m := MainPort(proto, specifiedPort);
      var ports := [m] + Query.Adjacent(m);
      1 <= |ports| <= 7 && ports[0] == m
      && (specifiedPort != 0 ==> ports[0] == specifiedPort)
      && (specifiedPort == 0 ==> ports[0] == proto.defaultPort)
      && forall i :: 1 <= i < |ports| ==> ports[i] != m && m - 3 <= ports[i] <= m + 3
  {
    var m := MainPort(proto, specifiedPort);
    Query.AdjacentMembers(m);
    var ports := [m] + Query.Adjacent(m);
    forall i | 1 <= i < |ports|
      ensures ports[i] != m && m - 3 <= ports[i] <= m + 3
    {
      assert ports[i] in Query.Adjacent(m);
    }
  }

  // ---------------------------------------------------------------- port strategies

  /** The engine's `getDiscoveryPorts`: every known port once, in map order (unsorted). */
  method UnsortedDiscoveryPorts(all: seq<Protocol>) returns (ports: seq<int>)
    ensures Registry.DistinctKeys(ports, Query.PortUnion(all))
  {
    var found := Query.CollectPorts(all);
    ports := Registry.KeyList(found);
  }

  /** `AutoDetectPortStrategy.GetPorts`: the given port alone, else every known port once. */
  method AutoDetectPorts(specifiedPort: int, all: seq<Protocol>) returns (ports: seq<int>)
    ensures specifiedPort != 0 ==> ports == [specifiedPort]
    ensures specifiedPort == 0 ==> Registry.DistinctKeys(ports, Query.PortUnion(all))
  {
    if specifiedPort != 0 {
      return [specifiedPort];
    }
    ports := UnsortedDiscoveryPorts(all);
  }

  /**
   * `DiscoveryPortStrategy.GetPorts`: a non-empty port range as it is, else
   * the given port alone, else the ports the dynamic scan finds active.
   */
  method DiscoveryPorts(specifiedPort: int, portRange: seq<int>, all: seq<Protocol>, active: int -> bool)
    returns (ports: seq<int>)
    ensures portRange != [] ==> ports == portRange
    ensures portRange == [] && specifiedPort != 0 ==> ports == [specifiedPort]
    ensures portRange == [] && specifiedPort == 0 ==> Registry.DistinctKeys(ports, Discovered(active, Seeds(all)))
  {
    if |portRange| > 0 {
      return portRange;
    }
    if specifiedPort != 0 {
      return [specifiedPort];
    }
    ports := DiscoverPortsDynamically(all, active);
  }

  // ---------------------------------------------------------------- discoverPortsDynamically

  /** `deadPortThreshold`, `minPort` and `maxPort`. */
  const DeadPortThreshold: nat := 3
  const MinPort: int := 1024
  const MaxPort: int := 65535

  /** The scan's seeds: every protocol's default query port and default port. */
  function Seeds(all: seq<Protocol>): set<int>
  {
    if all == [] then {}
    else Seeds(all[..|all| - 1]) + {all[|all| - 1].defaultQueryPort, all[|all| - 1].defaultPort}
  }

  /**
   * The active ports an upward scan finds from `port` on, having already
   * met `failures` dead ports in a row: it stops past 65535 or at the
   * third dead port in a row.
   */
  function Upward(active: int -> bool, port: int, failures: nat): set<int>
    requires failures < DeadPortThreshold
    decreases MaxPort + 1 - port
  {
    if port > MaxPort then {}
    else if active(port) then {port} + Upward(active, port + 1, 0)
    else if failures + 1 >= DeadPortThreshold then {}
    else Upward(active, port + 1, failures + 1)
  }

  /** The same walk downward, stopping below 1024 or at the third dead port in a row. */
  function Downward(active: int -> bool, port: int, failures: nat): set<int>
    requires failures < DeadPortThreshold
    decreases port - MinPort + 1
  {
    if port < MinPort then {}
    else if active(port) then {port} + Downward(active, port - 1, 0)
    else if failures + 1 >= DeadPortThreshold then {}
    else Downward(active, port - 1, failures + 1)
  }

  /** What one seed contributes: itself when active, then the upward and downward walks. */
  function SeedScan(active: int -> bool, seed: int): set<int>
  {
    (if active(seed) then {seed} else {}) + Upward(active, seed + 1, 0) + Downward(active, seed - 1, 0)
  }

  /** The ports found from a set of seeds, whatever order the seeds are visited in. */
  function Discovered(active: int -> bool, seeds: set<int>): set<int>
  {
    set s, p | s in seeds && p in SeedScan(active, s) :: p
  }

  /**
   * `discoverPortsDynamically`: collect the seeds, then for each seed (in
   * map order) check it, walk upward and walk downward; return the found
   * ports in map order.
   */
  method DiscoverPortsDynamically(all: seq<Protocol>, active: int -> bool) returns (ports: seq<int>)
    ensures Registry.DistinctKeys(ports, Discovered(active, Seeds(all)))
  {
    var seedPorts: set<int> := {};
    for i := 0 to |all|
      invariant seedPorts == Seeds(all[..i])
    {
      assert all[..i + 1][..i] == all[..i];
      seedPorts := seedPorts + {all[i].defaultQueryPort};
      seedPorts := seedPorts + {all[i].defaultPort};
    }
    assert all[..|all|] == all;
    var allPorts: set<int> := {};
    var left := seedPorts;
    while left != {}
      invariant left <= seedPorts
      invariant allPorts == Discovered(active, seedPorts - left)
      decreases left
    {
      Query.NonEmpty(left);
      var seedPort :| seedPort in left;
      DiscoveredActive(active, seedPorts - left);
      if active(seedPort) {
        allPorts := allPorts + {seedPort};
      }
      allPorts := ScanUpward(active, allPorts, seedPort);
      allPorts := ScanDownward(active, allPorts, seedPort);
      DiscoveredAdd(active, seedPorts - left, seedPort);
      assert seedPorts - (left - {seedPort}) == (seedPorts - left) + {seedPort};
      left := left - {seedPort};
    }
    assert seedPorts - left == seedPorts;
    ports := Registry.KeyList(allPorts);
  }

  /**
   * The upward loop for one seed. A port found earlier resets the count of
   * dead ports without a probe, exactly as a positive probe would, since
   * every found port is active.
   */
  method ScanUpward(active: int -> bool, found: set<int>, seed: int) returns (result: set<int>)
    requires forall q :: q in found ==> active(q)
    ensures result == found + Upward(active, seed + 1, 0)
    ensures forall q :: q in result ==> active(q)
  {
    result := found;
    var failures: nat := 0;
    var port := seed + 1;
    while port <= MaxPort
      invariant failures < DeadPortThreshold
      invariant result + Upward(active, port, failures) == found + Upward(active, seed + 1, 0)
      invariant forall q :: q in result ==> active(q)
      decreases MaxPort + 1 - port
    {
      if port in result {
        failures := 0;
        port := port + 1;
        continue;
      }
      if active(port) {
        result := result + {port};
        failures := 0;
      } else {
        failures := failures + 1;
        if failures >= DeadPortThreshold {
          break;
        }
      }
      port := port + 1;
    }
  }

  /** The downward loop for one seed, alike. */
  method ScanDownward(active: int -> bool, found: set<int>, seed: int) returns (result: set<int>)
    requires forall q :: q in found ==> active(q)
    ensures result == found + Downward(active, seed - 1, 0)
    ensures forall q :: q in result ==> active(q)
  {
    result := found;
    var failures: nat := 0;
    var port := seed - 1;
    while port >= MinPort
      invariant failures < DeadPortThreshold
      invariant result + Downward(active, port, failures) == found + Downward(active, seed - 1, 0)
      invariant forall q :: q in result ==> active(q)
      decreases port - MinPort + 1
    {
      if port in result {
        failures := 0;
        port := port - 1;
        continue;
      }
      if active(port) {
        result := result + {port};
        failures := 0;
      } else {
        failures := failures + 1;
        if failures >= DeadPortThreshold {
          break;
        }
      }
      port := port - 1;
    }
  }

  /** Adding one seed adds exactly its own scan. */
  lemma DiscoveredAdd(active: int -> bool, seeds: set<int>, seed: int)
    ensures Discovered(active, seeds + {seed}) == Discovered(active, seeds) + SeedScan(active, seed)
  {
    forall p | p in Discovered(active, seeds + {seed})
      ensures p in Discovered(active, seeds) + SeedScan(active, seed)
    {
      var s :| s in seeds + {seed} && p in SeedScan(active, s);
      if s != seed {
        assert s in seeds;
      }
    }
    forall p | p in SeedScan(active, seed)
      ensures p in Discovered(active, seeds + {seed})
    {
      assert seed in seeds + {seed};
    }
  }

  /** The upward walk finds only active ports, above its start and not past 65535. */
  lemma {:induction false} UpwardFacts(active: int -> bool, port: int, failures: nat)
    requires failures < DeadPortThreshold
    ensures forall q :: q in Upward(active, port, failures) ==> active(q) && port <= q <= MaxPort
    decreases MaxPort + 1 - port
  {
    if port <= MaxPort {
      if active(port) {
        UpwardFacts(active, port + 1, 0);
      } else if failures + 1 < DeadPortThreshold {
        UpwardFacts(active, port + 1, failures + 1);
      }
    }
  }

  /** The downward walk finds only active ports, below its start and not below 1024. */
  lemma {:induction false} DownwardFacts(active: int -> bool, port: int, failures: nat)
    requires failures < DeadPortThreshold
    ensures forall q :: q in Downward(active, port, failures) ==> active(q) && MinPort <= q <= port
    decreases port - MinPort + 1
  {
    if port >= MinPort {
      if active(port) {
        DownwardFacts(active, port - 1, 0);
      } else if failures + 1 < DeadPortThreshold {
        DownwardFacts(active, port - 1, failures + 1);
      }
    }
  }

  /** Every port found is active. */
  lemma DiscoveredActive(active: int -> bool, seeds: set<int>)
    ensures forall q :: q in Discovered(active, seeds) ==> active(q)
  {
    forall q | q in Discovered(active, seeds)
      ensures active(q)
    {
      var s :| s in seeds && q in SeedScan(active, s);
      UpwardFacts(active, s + 1, 0);
      DownwardFacts(active, s - 1, 0);
    }
  }

  /**
   * Every port found is active and is a seed, or lies above a seed and
   * not past 65535, or below a seed and not below 1024.
   */
  lemma DiscoveredBounds(active: int -> bool, seeds: set<int>, q: int)
    requires q in Discovered(active, seeds)
    ensures active(q)
    ensures exists s :: s in seeds && (q == s || s < q <= MaxPort || MinPort <= q < s)
  {
    var s :| s in seeds && q in SeedScan(active, s);
    UpwardFacts(active, s + 1, 0);
    DownwardFacts(active, s - 1, 0);
  }

  /** Three dead ports in a row stop the upward walk: nothing at or beyond them is found. */
  lemma {:induction false} UpwardStops(active: int -> bool, port: int, failures: nat, dead: int)
    requires failures < DeadPortThreshold
    requires port <= dead && !active(dead) && !active(dead + 1) && !active(dead + 2)
    ensures forall q :: q in Upward(active, port, failures) ==> q < dead
    decreases MaxPort + 1 - port
  {
    if port <= MaxPort {
      if port < dead {
        if active(port) {
          UpwardStops(active, port + 1, 0, dead);
        } else if failures + 1 < DeadPortThreshold {
          UpwardStops(active, port + 1, failures + 1, dead);
        }
      } else {
        UpwardDeadRun(active, port, failures);
      }
    }
  }

  /** Starting on three dead ports, the upward walk finds nothing. */
  lemma UpwardDeadRun(active: int -> bool, port: int, failures: nat)
    requires failures < DeadPortThreshold
    requires !active(port) && !active(port + 1) && !active(port + 2)
    ensures Upward(active, port, failures) == {}
  {
    if port <= MaxPort && failures + 1 < DeadPortThreshold {
      if port + 1 <= MaxPort && failures + 2 < DeadPortThreshold {
        assert Upward(active, port + 1, failures + 1) == Upward(active, port + 2, failures + 2);
      }
    }
  }

  /** Two dead ports in a row do not stop the upward walk: an active port right after them is found. */
  lemma UpwardPassesTwoDead(active: int -> bool, port: int)
    requires !active(port) && !active(port + 1) && active(port + 2) && port + 2 <= MaxPort
    ensures port + 2 in Upward(active, port, 0)
  {
    assert Upward(active, port, 0) == Upward(active, port + 1, 1);
    assert Upward(active, port + 1, 1) == Upward(active, port + 2, 2);
  }

  /** Three dead ports in a row stop the downward walk: nothing at or below them is found. */
  lemma {:induction false} DownwardStops(active: int -> bool, port: int, failures: nat, dead: int)
    requires failures < DeadPortThreshold
    requires dead <= port && !active(dead) && !active(dead - 1) && !active(dead - 2)
    ensures forall q :: q in Downward(active, port, failures) ==> q > dead
    decreases port - MinPort + 1
  {
    if port >= MinPort {
      if port > dead {
        if active(port) {
          DownwardStops(active, port - 1, 0, dead);
        } else if failures + 1 < DeadPortThreshold {
          DownwardStops(active, port - 1, failures + 1, dead);
        }
      } else {
        DownwardDeadRun(active, port, failures);
      }
    }
  }

  /** Starting on three dead ports, the downward walk finds nothing. */
  lemma DownwardDeadRun(active: int -> bool, port: int, failures: nat)
    requires failures < DeadPortThreshold
    requires !active(port) && !active(port - 1) && !active(port - 2)
    ensures Downward(active, port, failures) == {}
  {
    if port >= MinPort && failures + 1 < DeadPortThreshold {
      if port - 1 >= MinPort && failures + 2 < DeadPortThreshold {
        assert Downward(active, port - 1, failures + 1) == Downward(active, port - 2, failures + 2);
      }
    }
  }

  // ---------------------------------------------------------------- protocol orderings

  /**
   * `getProtocolsByPortPreference`: the protocols whose default query port
   * or default port is `port` first, then the rest, each group in
   * iteration order.
   */
  method ProtocolsByPortPreference(all: seq<Protocol>, port: int) returns (r: seq<Protocol>)
    ensures r == Query.Ordered(all, Query.DefaultsTo(port))
  {
    var matching: seq<Protocol> := [];
    var remaining: seq<Protocol> := [];
    for i := 0 to |all|
      invariant matching == Query.Select(all[..i], Query.DefaultsTo(port), true)
      invariant remaining == Query.Select(all[..i], Query.DefaultsTo(port), false)
    {
      assert all[..i + 1][..i] == all[..i];
      var proto := all[i];
      if proto.defaultQueryPort == port {
        matching := matching + [proto];
      } else if proto.defaultPort == port {
        matching := matching + [proto];
      } else {
        remaining := remaining + [proto];
      }
    }
    assert all[..|all|] == all;
    r := matching + remaining;
  }

  /** `AllProtocolsStrategy.GetProtocols`: a copy of the registry's protocols, in their iteration order. */
  method AllProtocolsInOrder(all: seq<Protocol>) returns (protocols: seq<Protocol>)
    ensures protocols == all
  {
    protocols := [];
    for i := 0 to |all|
      invariant protocols == all[..i]
    {
      protocols := protocols + [all[i]];
    }
    assert all[..|all|] == all;
  }

  /** The engine's `getProtocolsByPopularity` order, which adds "rust". */
  const Popularity: seq<string> := ["minecraft", "a2s", "terraria", "rust"]

  /**
   * With the engine's order, when the popular names that exist are protocol
   * names, every registered protocol is listed exactly once.
   */
  lemma PopularityPermutes(protocols: map<string, Protocol>, aliases: map<string, string>, all: seq<Protocol>)
    requires Registry.Listing(protocols, all)
    requires forall n :: n in Popularity && Registry.Lookup(protocols, aliases, n).1 ==> n in protocols
    ensures var r := Query.ByPopularity(Popularity, protocols, aliases, all);
      (forall p :: p in r <==> p in all) && Registry.DistinctNames(r)
  {
    assert Popularity[0][0] != Popularity[1][0] && Popularity[0][0] != Popularity[2][0] && Popularity[0][0] != Popularity[3][0];
    assert Popularity[1][0] != Popularity[2][0] && Popularity[1][0] != Popularity[3][0];
    assert Popularity[2][0] != Popularity[3][0];
    Query.PopularityPermutes(Popularity, protocols, aliases, all);
  }

  // ---------------------------------------------------------------- Execute

  /** The request types, `QueryTypeSingle`, `QueryTypeAutoDetect` and `QueryTypeDiscovery`. */
  datatype QueryKind = Single | AutoDetect | Discovery

  /** The integer each request type has in Go (`iota`). */
  function KindCode(k: QueryKind): int
  {
    match k
    case Single => 0
    case AutoDetect => 1
    case Discovery => 2
  }

  /** `Execute`'s switch: which query a request type runs, or the error result for any other value. */
  function Dispatch(t: int): Result<QueryKind>
  {
    if t == 0 then Ok(Single)
    else if t == 1 then Ok(AutoDetect)
    else if t == 2 then Ok(Discovery)
    else Err("unsupported query type: " + Text.IntToString(t))
  }

  /** Every request type dispatches to its own query, and only those three values dispatch at all. */
  lemma DispatchRoundTrip(k: QueryKind, t: int)
    ensures Dispatch(KindCode(k)) == Ok(k)
    ensures Dispatch(t).Ok? ==> KindCode(Dispatch(t).value) == t
    ensures Dispatch(t).Err? <==> t < 0 || t > 2
  {
  }

  // ---------------------------------------------------------------- executeSingleQuery

  /**
   * `executeSingleQuery`'s candidates: the protocol on the first of its
   * ports with the caller's options, then, for each adjacent port in turn,
   * every protocol ordered for that port (`tryProtocolsOnPort`), in
   * discovery mode.
   */
  function SingleAttempts(all: seq<Protocol>, proto: Protocol, requestedPort: int, options: Options): seq<Query.Attempt>
  {
    var m := MainPort(proto, requestedPort);
    [Query.Attempt(proto, m, options)] + Query.AdjacentAttempts(all, Query.Adjacent(m), Query.DiscoveryOptions(options))
  }

  /** What `executeSingleQuery` returns, given what `GetGameConfigFromRegistry` found for `game`. */
  function SingleOutcome(config: Result<Option<(GameConfig, Protocol)>>, game: string, addr: string,
                         options: Options, all: seq<Protocol>, probe: Query.Probe): Result<ServerInfo>
  {
    if config.Err? then Err(config.msg)
    else if config.value.None? then Err("unsupported game: " + game)
    else
      var parsed := Query.ParseAddress(addr, options.port, config.value.value.0.queryPort);
      if parsed.Err? then Err("invalid address: " + parsed.msg)
      else
        var found := Query.FirstOnline(probe, parsed.value.0, parsed.value.1,
                                       SingleAttempts(all, config.value.value.1, parsed.value.1, options));
        if found.Some? then Ok(found.value)
        else Err("no responsive server found at " + addr + " or adjacent ports")
  }

  /**
   * `executeSingleQuery`: look the game up, parse the address with the
   * game's query port as default, try the protocol on its main port, then
   * every protocol on each adjacent port.
   */
  method ExecuteSingle(reg: Registry.Registry, all: seq<Protocol>, game: string, addr: string, options: Options,
                       probe: Query.Probe) returns (r: Result<ServerInfo>)
    requires Registry.DistinctNames(all)
    ensures r == SingleOutcome(Registry.ConfigFor(reg.Get(game), game), game, addr, options, all, probe)
  {
    var config := reg.GetGameConfig(game);
    if config.Err? {
      return Err(config.msg);
    }
    if config.value.None? {
      return Err("unsupported game: " + game);
    }
    var gameConfig, proto := config.value.value.0, config.value.value.1;
    var parsed := Query.ParseAddress(addr, options.port, gameConfig.queryPort);
    if parsed.Err? {
      return Err("invalid address: " + parsed.msg);
    }
    var host, requestedPort := parsed.value.0, parsed.value.1;
    var ports := SingleProtocolPorts(proto, requestedPort);
    var primary := Query.Attempt(proto, ports[0], options);
    var info := Query.QueryProtocol(probe, host, requestedPort, primary);
    var discoveryOptions := Query.DiscoveryOptions(options);
    Query.FirstOnlineAppend(probe, host, requestedPort, [primary], Query.AdjacentAttempts(all, ports[1..], discoveryOptions));
    if info.Ok? && info.value.online {
      return Ok(info.value);
    }
    var found := Query.TryAdjacent(probe, host, requestedPort, all, ports[1..], discoveryOptions);
    if found.Some? {
      return Ok(found.value);
    }
    return Err("no responsive server found at " + addr + " or adjacent ports");
  }

  /**
   * Once the game and address are known, a single query succeeds exactly
   * when one of its candidates answers online, and the answer reports the
   * requested port. The first candidate is the game's protocol with the
   * caller's options; every later one tries a registered protocol, in
   * discovery mode, on a port adjacent to the main port, and every
   * registered protocol is tried on every adjacent port.
   */
  lemma SingleFirstOnline(config: Result<Option<(GameConfig, Protocol)>>, game: string, addr: string,
                          options: Options, all: seq<Protocol>, probe: Query.Probe)
    requires config.Ok? && config.value.Some?
    requires Query.ParseAddress(addr, options.port, config.value.value.0.queryPort).Ok?
    ensures var parsed := Query.ParseAddress(addr, options.port, config.value.value.0.queryPort).value;
      var proto := config.value.value.1;
      var attempts := SingleAttempts(all, proto, parsed.1, options);
      var r := SingleOutcome(config, game, addr, options, all, probe);
      (r.Ok? <==> exists i :: 0 <= i < |attempts| && Query.Succeeds(probe, parsed.0, attempts[i]))
      && (r.Ok? ==> r.value.port == parsed.1 && r.value.address == parsed.0)
      && (r.Err? ==> r.msg == "no responsive server found at " + addr + " or adjacent ports")
      && attempts[0] == Query.Attempt(proto, MainPort(proto, parsed.1), options)
      && (forall a :: a in attempts[1..] <==>
            a.proto in all && a.port in Query.Adjacent(MainPort(proto, parsed.1)) && a.opts == Query.DiscoveryOptions(options))
  {
    var parsed := Query.ParseAddress(addr, options.port, config.value.value.0.queryPort).value;
    var proto := config.value.value.1;
    var m := MainPort(proto, parsed.1);
    var attempts := SingleAttempts(all, proto, parsed.1, options);
    Query.FirstOnlineWins(probe, parsed.0, parsed.1, attempts);
    Query.AdjacentAttemptsCover(all, Query.Adjacent(m), Query.DiscoveryOptions(options));
    assert attempts[1..] == Query.AdjacentAttempts(all, Query.Adjacent(m), Query.DiscoveryOptions(options));
  }

  // ---------------------------------------------------------------- executeAutoDetectQuery

  /**
   * `executeAutoDetectQuery`'s candidates: with a port, every protocol on
   * it (those defaulting to it first), then every protocol on each
   * adjacent port, both in discovery mode; in every case, then the
   * protocols by the engine's popularity with the caller's options.
   */
  function AutoDetectAttempts(protocols: map<string, Protocol>, aliases: map<string, string>, all: seq<Protocol>,
                              port: int, options: Options): seq<Query.Attempt>
  {
    var defaults := Query.DefaultAttempts(Query.ByPopularity(Popularity, protocols, aliases, all), port, options);
    if port != 0 then
      var quick := Query.DiscoveryOptions(options);
      Query.OnPort(Query.Ordered(all, Query.DefaultsTo(port)), port, quick)
      + (Query.AdjacentAttempts(all, Query.Adjacent(port), quick) + defaults)
    else defaults
  }

  /** What `executeAutoDetectQuery` returns. */
  function AutoDetectOutcome(protocols: map<string, Protocol>, aliases: map<string, string>, all: seq<Protocol>,
                             addr: string, options: Options, probe: Query.Probe): Result<ServerInfo>
  {
    var parsed := Query.ParseAddress(addr, options.port, 0);
    if parsed.Err? then Err("invalid address: " + parsed.msg)
    else
      var found := Query.FirstOnline(probe, parsed.value.0, parsed.value.1,
                                     AutoDetectAttempts(protocols, aliases, all, parsed.value.1, options));
      if found.Some? then Ok(found.value)
      else Err("no responsive server found at " + addr)
  }

  /**
   * `executeAutoDetectQuery`: parse the address with no default port; with
   * a port, try the protocols by port preference on it, then each adjacent
   * port; finally the protocols by popularity.
   */
  method ExecuteAutoDetect(reg: Registry.Registry, all: seq<Protocol>, addr: string, options: Options, probe: Query.Probe)
    returns (r: Result<ServerInfo>)
    requires Registry.DistinctNames(all)
    ensures r == AutoDetectOutcome(reg.protocols, reg.aliases, all, addr, options, probe)
  {
    var parsed := Query.ParseAddress(addr, options.port, 0);
    if parsed.Err? {
      return Err("invalid address: " + parsed.msg);
    }
    var host, port := parsed.value.0, parsed.value.1;
    ghost var defaults := Query.DefaultAttempts(Query.ByPopularity(Popularity, reg.protocols, reg.aliases, all), port, options);
    if port != 0 {
      var preferred := ProtocolsByPortPreference(all, port);
      var quick := Query.DiscoveryOptions(options);
      ghost var around := Query.AdjacentAttempts(all, Query.Adjacent(port), quick);
      Query.FirstOnlineAppend(probe, host, port, Query.OnPort(preferred, port, quick), around + defaults);
      Query.FirstOnlineAppend(probe, host, port, around, defaults);
      var found := Query.TryInOrder(probe, host, port, Query.OnPort(preferred, port, quick));
      if found.Some? {
        return Ok(found.value);
      }
      var adjacent := Query.AdjacentPorts(port);
      found := Query.TryAdjacent(probe, host, port, all, adjacent, quick);
      if found.Some? {
        return Ok(found.value);
      }
    }
    var popular := Query.ProtocolsByPopularity(Popularity, reg, all);
    var last := Query.TryInOrder(probe, host, port, Query.DefaultAttempts(popular, port, options));
    if last.Some? {
      return Ok(last.value);
    }
    return Err("no responsive server found at " + addr);
  }

  /**
   * Once the address parses, the engine's auto-detection succeeds exactly
   * when one of its candidates answers online, and otherwise reports that
   * no server answered at the address.
   */
  lemma AutoDetectFirstOnline(protocols: map<string, Protocol>, aliases: map<string, string>, all: seq<Protocol>,
                              addr: string, options: Options, probe: Query.Probe)
    requires Query.ParseAddress(addr, options.port, 0).Ok?
    ensures var parsed := Query.ParseAddress(addr, options.port, 0).value;
      var attempts := AutoDetectAttempts(protocols, aliases, all, parsed.1, options);
      var r := AutoDetectOutcome(protocols, aliases, all, addr, options, probe);
      (r.Ok? <==> exists i :: 0 <= i < |attempts| && Query.Succeeds(probe, parsed.0, attempts[i]))
      && (r.Err? ==> r.msg == "no responsive server found at " + addr)
  {
    var parsed := Query.ParseAddress(addr, options.port, 0).value;
    Query.FirstOnlineWins(probe, parsed.0, parsed.1, AutoDetectAttempts(protocols, aliases, all, parsed.1, options));
  }

  /**
   * With a port given, the first candidates are every protocol on exactly
   * that port in discovery mode, those defaulting to it first.
   */
  lemma AutoDetectStartsOnPort(protocols: map<string, Protocol>, aliases: map<string, string>, all: seq<Protocol>,
                               port: int, options: Options)
    requires port != 0
    ensures var attempts := AutoDetectAttempts(protocols, aliases, all, port, options);
      var first := Query.Ordered(all, Query.DefaultsTo(port));
      |first| == |all| && |attempts| >= |all|
      && forall i :: 0 <= i < |all| ==> attempts[i] == Query.Attempt(first[i], port, Query.DiscoveryOptions(options))
  {
    Query.OrderedPermutes(all, Query.DefaultsTo(port));
    assert |multiset(Query.Ordered(all, Query.DefaultsTo(port)))| == |multiset(all)|;
  }

  /** Without a port, every protocol is tried on its own default query port with the caller's options. */
  lemma AutoDetectWithoutPort(protocols: map<string, Protocol>, aliases: map<string, string>, all: seq<Protocol>,
                              options: Options)
    ensures var attempts := AutoDetectAttempts(protocols, aliases, all, 0, options);
      forall i :: 0 <= i < |attempts| ==> attempts[i].port == attempts[i].proto.defaultQueryPort && attempts[i].opts == options
  {
  }

  // ---------------------------------------------------------------- executeDiscoveryQuery

  /** The ports `executeDiscoveryQuery` scans: the option's range, else the given port, else every known port once. */
  ghost predicate ChosenPorts(ports: seq<int>, specifiedPort: int, options: Options, all: seq<Protocol>)
  {
    if options.portRange != [] then ports == options.portRange
    else if specifiedPort != 0 then ports == [specifiedPort]
    else Registry.DistinctKeys(ports, Query.PortUnion(all))
  }

  /**
   * `executeDiscoveryQuery`: an address that does not parse is an error;
   * otherwise the servers found on the chosen ports, one per port at most.
   */
  method ExecuteDiscovery(all: seq<Protocol>, addr: string, options: Options, probe: Query.Probe)
    returns (r: Result<seq<ServerInfo>>)
    ensures Query.ParseAddress(addr, options.port, 0).Err? ==>
      r == Err("invalid address: " + Query.ParseAddress(addr, options.port, 0).msg)
    ensures Query.ParseAddress(addr, options.port, 0).Ok? ==>
      var parsed := Query.ParseAddress(addr, options.port, 0).value;
      r.Ok? && (exists ports :: ChosenPorts(ports, parsed.1, options, all)
                               && r.value == Query.Sweep(probe, parsed.0, all, ports, options))
  {
    var parsed := Query.ParseAddress(addr, options.port, 0);
    if parsed.Err? {
      return Err("invalid address: " + parsed.msg);
    }
    var host, specifiedPort := parsed.value.0, parsed.value.1;
    var portsToScan: seq<int>;
    if |options.portRange| > 0 {
      portsToScan := options.portRange;
    } else if specifiedPort != 0 {
      portsToScan := [specifiedPort];
    } else {
      portsToScan := UnsortedDiscoveryPorts(all);
    }
    var servers := Query.ScanPorts(probe, host, all, portsToScan, options);
    assert ChosenPorts(portsToScan, specifiedPort, options, all);
    return Ok(servers);
  }

  /**
   * `Execute`: the request type chooses the query; a single answer is
   * returned as a one-server result, a discovery as the servers found, and
   * an unknown type is the error result.
   */
  method Execute(reg: Registry.Registry, all: seq<Protocol>, t: int, game: string, addr: string, options: Options,
                 probe: Query.Probe) returns (r: Result<seq<ServerInfo>>)
    requires Registry.DistinctNames(all)
    ensures Dispatch(t).Err? ==> r == Err(Dispatch(t).msg)
    ensures Dispatch(t) == Ok(Single) ==>
      r == OneServer(SingleOutcome(Registry.ConfigFor(reg.Get(game), game), game, addr, options, all, probe))
    ensures Dispatch(t) == Ok(AutoDetect) ==>
      r == OneServer(AutoDetectOutcome(reg.protocols, reg.aliases, all, addr, options, probe))
    ensures Dispatch(t) == Ok(Discovery) && Query.ParseAddress(addr, options.port, 0).Err? ==>
      r == Err("invalid address: " + Query.ParseAddress(addr, options.port, 0).msg)
    ensures Dispatch(t) == Ok(Discovery) && Query.ParseAddress(addr, options.port, 0).Ok? ==>
      var parsed := Query.ParseAddress(addr, options.port, 0).value;
      r.Ok? && (exists ports :: ChosenPorts(ports, parsed.1, options, all)
                               && r.value == Query.Sweep(probe, parsed.0, all, ports, options))
  {
    var kind := Dispatch(t);
    if kind.Err? {
      return Err(kind.msg);
    }
    match kind.value
    case Single =>
      var info := ExecuteSingle(reg, all, game, addr, options, probe);
      r := OneServer(info);
    case AutoDetect =>
      var info := ExecuteAutoDetect(reg, all, addr, options, probe);
      r := OneServer(info);
    case Discovery =>
      r := ExecuteDiscovery(all, addr, options, probe);
  }

  /** A query's single answer as a result holding that one server, or its error. */
  function OneServer(info: Result<ServerInfo>): (r: Result<seq<ServerInfo>>)
    ensures r.Ok? <==> info.Ok?
    ensures r.Ok? ==> r.value == [info.value]
    ensures r.Err? ==> r.msg == info.msg
  {
    if info.Ok? then Ok([info.value]) else Err(info.msg)
  }
}
