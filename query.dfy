/**
 * `query/query.go`: what the query entry points decide before and between
 * network probes. Which address and port a request names, which ports lie
 * next to it, in which order the protocols are tried, which ports a
 * discovery scan covers, and the sequential "first online answer wins"
 * loops of `Query` and `AutoDetect`.
 *
 * A probe (`proto.Query` on an address) is a function parameter: it maps a
 * protocol, an address and the options to the reply and the time it took.
 */
module Query {
  import opened Wrappers
  import opened Types
  import Text
  import NetAddr
  import Registry

  /** The highest port an upward step may reach, and the lowest a downward step may reach. */
  const MaxPort: int := 65535
  const MinAdjacentPort: int := 1024

  // ---------------------------------------------------------------- parseAddress

  /**
   * `parseAddress`: an empty address is an error; an address with a port
   * gives that port (which must be a decimal number); an address without
   * one gives `optPort`, or `defaultPort` when `optPort` is 0, and a
   * bracketed host loses its brackets.
   */
  function ParseAddress(addr: string, optPort: int, defaultPort: int): Result<(string, int)>
  {
    if addr == [] then Err("address cannot be empty")
    else
      var split := NetAddr.SplitHostPort(addr);
      if split.Err? then
        var host := if |addr| > 2 && addr[0] == '[' && addr[|addr| - 1] == ']' then addr[1..|addr| - 1] else addr;
        Ok((host, if optPort != 0 then optPort else defaultPort))
      else
        match Text.Atoi(split.value.1)
        case None => Err("invalid port: " + split.value.1)
        case Some(port) => Ok((split.value.0, port))
  }

  /** A port written in the address wins over both the option and the default. */
  lemma ExplicitPortWins(host: string, port: int, optPort: int, defaultPort: int)
    requires NetAddr.PlainHost(host)
    requires Text.INT64_MIN <= port <= Text.INT64_MAX
    ensures ParseAddress(NetAddr.JoinHostPort(host, Text.IntToString(port)), optPort, defaultPort) == Ok((host, port))
  {
    var p := Text.IntToString(port);
    NetAddr.IntToStringPlain(port);
    NetAddr.SplitJoin(host, p);
    Text.AtoiOfIntToString(port);
  }

  /** A port part that is not a decimal number (empty, say) is reported, whatever the options say. */
  lemma BadPortRejected(host: string, port: string, optPort: int, defaultPort: int)
    requires NetAddr.PlainHost(host) && NetAddr.PlainPort(port)
    requires Text.Atoi(port).None?
    ensures ParseAddress(NetAddr.JoinHostPort(host, port), optPort, defaultPort) == Err("invalid port: " + port)
  {
    NetAddr.SplitJoin(host, port);
  }

  /** A host name without a colon carries no port: the option's port is used, else the default. */
  lemma NoPortUsesOption(host: string, optPort: int, defaultPort: int)
    requires host != [] && ':' !in host && NetAddr.PlainHost(host)
    ensures ParseAddress(host, optPort, defaultPort) == Ok((host, if optPort != 0 then optPort else defaultPort))
  {
    assert Text.LastIndexOf(host, ':').None?;
    assert host[0] in host;
  }

  /** A bracketed IPv6 address without a port loses its brackets and takes the option's port, else the default. */
  lemma BracketedNoPort(host: string, optPort: int, defaultPort: int)
    requires host != [] && ']' !in host
    ensures ParseAddress("[" + host + "]", optPort, defaultPort) == Ok((host, if optPort != 0 then optPort else defaultPort))
  {
    var a := "[" + host + "]";
    var n := |host|;
    assert a[1..n + 1] == host;
    assert a[..n + 1] == "[" + host;
    Text.IndexOfAt(a, n + 1, ']');
    assert NetAddr.SplitHostPort(a).Err?;
  }

  // ---------------------------------------------------------------- getAdjacentPorts

  /** `port + offset` when it does not pass 65535. */
  function Above(port: int, offset: int): seq<int>
  {
    if port + offset <= MaxPort then [port + offset] else []
  }

  /** `port - offset` when it does not fall below 1024. */
  function Below(port: int, offset: int): seq<int>
  {
    if port - offset >= MinAdjacentPort then [port - offset] else []
  }

  /** The ports `getAdjacentPorts` has collected after its first `n` offsets. */
  function AdjacentUpTo(port: int, n: nat): seq<int>
  {
    if n == 0 then [] else AdjacentUpTo(port, n - 1) + Above(port, n) + Below(port, n)
  }

  /** The ports next to `port`: +1, -1, +2, -2, +3, -3, each kept only while in bounds. */
  function Adjacent(port: int): seq<int>
  {
    AdjacentUpTo(port, 3)
  }

  /** `getAdjacentPorts`, with its loop over the offsets 1 to 3. */
  method AdjacentPorts(port: int) returns (ports: seq<int>)
    ensures ports == Adjacent(port)
  {
    ports := [];
    for offset := 1 to 4
      invariant ports == AdjacentUpTo(port, offset - 1)
    {
      var up := port + offset;
      if up <= MaxPort {
        ports := ports + [up];
      }
      var down := port - offset;
      if down >= MinAdjacentPort {
        ports := ports + [down];
      }
    }
  }

  /** Away from the bounds, the adjacent ports are exactly +1, -1, +2, -2, +3, -3 in that order. */
  lemma AdjacentInOrder(port: int)
    requires MinAdjacentPort + 3 <= port <= MaxPort - 3
    ensures Adjacent(port) == [port + 1, port - 1, port + 2, port - 2, port + 3, port - 3]
  {
    AdjacentUnfolded(port);
  }

  lemma AdjacentUnfolded(port: int)
    ensures Adjacent(port) == Above(port, 1) + Below(port, 1) + Above(port, 2) + Below(port, 2) + Above(port, 3) + Below(port, 3)
  {
    assert AdjacentUpTo(port, 1) == Above(port, 1) + Below(port, 1);
    assert AdjacentUpTo(port, 2) == AdjacentUpTo(port, 1) + Above(port, 2) + Below(port, 2);
  }

  /**
   * A port is adjacent exactly when it is 1 to 3 away, not above 65535 when
   * higher and not below 1024 when lower; there are at most six and never
   * the port itself.
   */
  lemma AdjacentMembers(port: int)
    ensures |Adjacent(port)| <= 6
    ensures forall q :: q in Adjacent(port) <==>
      q != port && port - 3 <= q <= port + 3 && (q > port ==> q <= MaxPort) && (q < port ==> q >= MinAdjacentPort)
  {
    AdjacentUnfolded(port);
  }

  // ---------------------------------------------------------------- protocol orderings

  /**
   * The tests that split protocols into those tried first and the rest:
   * `ServesPort` (`getProtocolsForPort`: a default port or any game's port
   * equals the port), `DefaultsTo` (the engine's `getProtocolsByPortPreference`:
   * the default query port or the default port equals it) and `NotNamed`
   * (`getProtocolsByPopularity`: the name was not already used).
   */
  datatype Criterion = ServesPort(port: int) | DefaultsTo(port: int) | NotNamed(names: set<string>)

  predicate GameServes(g: GameConfig, port: int)
  {
    g.queryPort == port || g.gamePort == port
  }

  predicate Meets(c: Criterion, p: Protocol)
  {
    match c
    case ServesPort(port) =>
      p.defaultQueryPort == port || p.defaultPort == port || exists g :: g in p.games && GameServes(g, port)
    case DefaultsTo(port) => p.defaultQueryPort == port || p.defaultPort == port
    case NotNamed(names) => p.name !in names
  }

  /** The protocols of `s`, in order, whose answer to `c` is `want`. */
  function Select(s: seq<Protocol>, c: Criterion, want: bool): (r: seq<Protocol>)
    ensures |r| <= |s|
  {
    if s == [] then []
    else Select(s[..|s| - 1], c, want) + (if Meets(c, s[|s| - 1]) == want then [s[|s| - 1]] else [])
  }

  /** `Select` keeps exactly the protocols with the wanted answer. */
  lemma {:induction false} SelectMembers(s: seq<Protocol>, c: Criterion, want: bool)
    ensures forall p :: p in Select(s, c, want) <==> p in s && Meets(c, p) == want
  {
    if s != [] {
      SelectMembers(s[..|s| - 1], c, want);
      assert s == s[..|s| - 1] + [s[|s| - 1]];
    }
  }

  /** `Select` keeps names distinct. */
  lemma {:induction false} SelectDistinct(s: seq<Protocol>, c: Criterion, want: bool)
    requires Registry.DistinctNames(s)
    ensures Registry.DistinctNames(Select(s, c, want))
  {
    if s != [] {
      var init := s[..|s| - 1];
      SelectDistinct(init, c, want);
      SelectMembers(init, c, want);
      var r := Select(init, c, want);
      forall i | 0 <= i < |r|
        ensures r[i].name != s[|s| - 1].name
      {
        assert r[i] in r;
        var k :| 0 <= k < |init| && init[k] == r[i];
      }
    }
  }

  /** The protocols meeting `c` first, then the others, each group in input order. */
  function Ordered(all: seq<Protocol>, c: Criterion): seq<Protocol>
  {
    Select(all, c, true) + Select(all, c, false)
  }

  /** The two groups together hold every protocol of the input exactly as often as it does. */
  lemma {:induction false} OrderedPermutes(all: seq<Protocol>, c: Criterion)
    ensures multiset(Ordered(all, c)) == multiset(all)
  {
    if all != [] {
      var init := all[..|all| - 1];
      OrderedPermutes(init, c);
      assert all == init + [all[|all| - 1]];
    }
  }

  /** Every protocol meeting `c` comes before every one that does not. */
  lemma OrderedFront(all: seq<Protocol>, c: Criterion)
    ensures var r := Ordered(all, c); var k := |Select(all, c, true)|;
      forall i :: 0 <= i < |r| ==> (Meets(c, r[i]) <==> i < k)
  {
    var r := Ordered(all, c);
    var k := |Select(all, c, true)|;
    SelectMembers(all, c, true);
    SelectMembers(all, c, false);
    forall i | 0 <= i < |r|
      ensures Meets(c, r[i]) <==> i < k
    {
      if i < k {
        assert r[i] in Select(all, c, true);
      } else {
        assert r[i] == Select(all, c, false)[i - k];
      }
    }
  }

  /** The inner loop of `getProtocolsForPort`: does one of the protocol's ports equal `port`? */
  method HasMatch(p: Protocol, port: int) returns (b: bool)
    ensures b <==> Meets(ServesPort(port), p)
  {
    if p.defaultQueryPort == port || p.defaultPort == port {
      return true;
    }
    var j := 0;
    while j < |p.games|
      invariant j <= |p.games|
      invariant forall k :: 0 <= k < j ==> !GameServes(p.games[k], port)
    {
      if p.games[j].queryPort == port || p.games[j].gamePort == port {
        assert GameServes(p.games[j], port);
        return true;
      }
      j := j + 1;
    }
    return false;
  }

  /**
   * `getProtocolsForPort`: the protocols that serve `port` first, then the
   * rest. `all` is the iteration order of the registry's map, so its names
   * are distinct and the `seen` test never skips a protocol.
   */
  method ProtocolsForPort(all: seq<Protocol>, port: int) returns (r: seq<Protocol>)
    requires Registry.DistinctNames(all)
    ensures r == Ordered(all, ServesPort(port))
  {
    var ordered: seq<Protocol> := [];
    var remaining: seq<Protocol> := [];
    var seen: set<string> := {};
    for i := 0 to |all|
      invariant ordered == Select(all[..i], ServesPort(port), true)
      invariant remaining == Select(all[..i], ServesPort(port), false)
      invariant forall n :: n in seen ==> exists k :: 0 <= k < i && all[k].name == n
    {
      assert all[..i + 1][..i] == all[..i];
      var proto := all[i];
      if proto.name !in seen {
        var hasMatch := HasMatch(proto, port);
        if hasMatch {
          ordered := ordered + [proto];
          seen := seen + {proto.name};
        } else {
          remaining := remaining + [proto];
        }
      } else {
        assert false;
      }
    }
    assert all[..|all|] == all;
    r := ordered + remaining;
  }

  // ---------------------------------------------------------------- getProtocolsByPopularity

  /** `getProtocolsByPopularity`'s names, most likely first. */
  const Popularity: seq<string> := ["minecraft", "a2s", "terraria"]

  /**
   * The protocols `GetProtocol` finds for the names of `order`, in order.
   * An alias whose target is not registered would give Go a nil protocol;
   * it has no entry here.
   */
  function Popular(order: seq<string>, protocols: map<string, Protocol>, aliases: map<string, string>): seq<Protocol>
  {
    if order == [] then []
    else
      var found := Registry.Lookup(protocols, aliases, order[|order| - 1]);
      Popular(order[..|order| - 1], protocols, aliases) + (if found.1 && found.0.Some? then [found.0.value] else [])
  }

  /** The names of `order` marked used: those `GetProtocol` reports as existing. */
  function UsedNames(order: seq<string>, protocols: map<string, Protocol>, aliases: map<string, string>): set<string>
  {
    set n | n in order && Registry.Lookup(protocols, aliases, n).1
  }

  /** The popular protocols first, then every protocol whose name was not used, in iteration order. */
  function ByPopularity(order: seq<string>, protocols: map<string, Protocol>, aliases: map<string, string>,
                        all: seq<Protocol>): seq<Protocol>
  {
    Popular(order, protocols, aliases) + Select(all, NotNamed(UsedNames(order, protocols, aliases)), true)
  }

  /**
   * `getProtocolsByPopularity`: the registered names of `order` looked up in
   * turn, then a pass over the registry's protocols (`all`, in iteration
   * order) adding those whose name was not used.
   */
  method ProtocolsByPopularity(order: seq<string>, reg: Registry.Registry, all: seq<Protocol>) returns (result: seq<Protocol>)
    ensures result == ByPopularity(order, reg.protocols, reg.aliases, all)
  {
    result := [];
    var used: set<string> := {};
    for i := 0 to |order|
      invariant result == Popular(order[..i], reg.protocols, reg.aliases)
      invariant used == UsedNames(order[..i], reg.protocols, reg.aliases)
    {
      assert order[..i + 1][..i] == order[..i];
      assert UsedNames(order[..i + 1], reg.protocols, reg.aliases)
        == used + (if reg.Get(order[i]).1 then {order[i]} else {});
      var found := reg.Get(order[i]);
      if found.1 {
        if found.0.Some? {
          result := result + [found.0.value];
        }
        used := used + {order[i]};
      }
    }
    assert order[..|order|] == order;
    var rest: seq<Protocol> := [];
    for i := 0 to |all|
      invariant rest == Select(all[..i], NotNamed(used), true)
    {
      assert all[..i + 1][..i] == all[..i];
      if all[i].name !in used {
        rest := rest + [all[i]];
      }
    }
    assert all[..|all|] == all;
    result := result + rest;
  }

  /** Each protocol `Popular` lists is the registered one of a name in `order`, and no name gives two. */
  lemma {:induction false} PopularNamed(order: seq<string>, protocols: map<string, Protocol>, aliases: map<string, string>)
    requires Registry.Keyed(protocols)
    requires forall n :: n in order && Registry.Lookup(protocols, aliases, n).1 ==> n in protocols
    requires forall i, j :: 0 <= i < j < |order| ==> order[i] != order[j]
    ensures var r := Popular(order, protocols, aliases);
      (forall i :: 0 <= i < |r| ==> r[i].name in order && r[i].name in protocols && protocols[r[i].name] == r[i])
      && Registry.DistinctNames(r)
  {
    if order != [] {
      var init, last := order[..|order| - 1], order[|order| - 1];
      assert forall n :: n in init ==> n in order;
      PopularNamed(init, protocols, aliases);
      assert forall k :: 0 <= k < |init| ==> init[k] != last;
    }
  }

  /** Every name of `order` that is a protocol name puts that protocol in `Popular`. */
  lemma {:induction false} PopularComplete(order: seq<string>, protocols: map<string, Protocol>, aliases: map<string, string>, n: string)
    requires n in order && n in protocols
    ensures protocols[n] in Popular(order, protocols, aliases)
  {
    var init, last := order[..|order| - 1], order[|order| - 1];
    if n != last {
      assert order == init + [last];
      PopularComplete(init, protocols, aliases, n);
    }
  }

  /**
   * When the popular names that exist are protocol names (not aliases),
   * `ByPopularity` lists each protocol of the registry exactly once: it
   * holds the same protocols as `all` and no name twice.
   */
  lemma PopularityPermutes(order: seq<string>, protocols: map<string, Protocol>, aliases: map<string, string>, all: seq<Protocol>)
    requires Registry.Listing(protocols, all)
    requires forall n :: n in order && Registry.Lookup(protocols, aliases, n).1 ==> n in protocols
    requires forall i, j :: 0 <= i < j < |order| ==> order[i] != order[j]
    ensures var r := ByPopularity(order, protocols, aliases, all);
      (forall p :: p in r <==> p in all) && Registry.DistinctNames(r)
  {
    var used := UsedNames(order, protocols, aliases);
    var pop := Popular(order, protocols, aliases);
    var rest := Select(all, NotNamed(used), true);
    var r := pop + rest;
    PopularNamed(order, protocols, aliases);
    SelectMembers(all, NotNamed(used), true);
    SelectDistinct(all, NotNamed(used), true);
    forall p | p in all
      ensures p in r
    {
      var k :| 0 <= k < |all| && all[k] == p;
      if p.name in used {
        PopularComplete(order, protocols, aliases, p.name);
      }
    }
    forall p | p in pop
      ensures p in all
    {
      var k :| 0 <= k < |pop| && pop[k] == p;
    }
    forall i, j | 0 <= i < j < |r|
      ensures r[i].name != r[j].name
    {
      if i < |pop| && j >= |pop| {
        assert r[j] in rest;
        assert r[i].name in used;
      }
    }
  }

  // ---------------------------------------------------------------- getDiscoveryPorts

  /** The ports of a protocol's games. */
  function GamePorts(games: seq<GameConfig>): set<int>
  {
    if games == [] then {}
    else GamePorts(games[..|games| - 1]) + {games[|games| - 1].queryPort, games[|games| - 1].gamePort}
  }

  /** The default ports of the protocols of `all` and of all their games. */
  function PortUnion(all: seq<Protocol>): set<int>
  {
    if all == [] then {}
    else
      var p := all[|all| - 1];
      PortUnion(all[..|all| - 1]) + {p.defaultQueryPort, p.defaultPort} + GamePorts(p.games)
  }

  lemma {:induction false} GamePortsMembers(games: seq<GameConfig>, q: int)
    ensures q in GamePorts(games) <==> exists g :: g in games && GameServes(g, q)
  {
    if games != [] {
      var init, last := games[..|games| - 1], games[|games| - 1];
      GamePortsMembers(init, q);
      assert games == init + [last];
      if q in GamePorts(games) && q !in GamePorts(init) {
        assert GameServes(last, q);
      }
    }
  }

  /** A port is collected exactly when some protocol serves it: the ports `getProtocolsForPort` can put first. */
  lemma {:induction false} PortUnionMembers(all: seq<Protocol>, q: int)
    ensures q in PortUnion(all) <==> exists p :: p in all && Meets(ServesPort(q), p)
  {
    if all != [] {
      var init, last := all[..|all| - 1], all[|all| - 1];
      PortUnionMembers(init, q);
      GamePortsMembers(last.games, q);
      assert all == init + [last];
      if q in PortUnion(all) && q !in PortUnion(init) {
        assert Meets(ServesPort(q), last);
      }
    }
  }

  /** The map-filling loops of `getDiscoveryPorts` (and of the engine's copies). */
  method CollectPorts(all: seq<Protocol>) returns (ports: set<int>)
    ensures ports == PortUnion(all)
  {
    ports := {};
    for i := 0 to |all|
      invariant ports == PortUnion(all[..i])
    {
      assert all[..i + 1][..i] == all[..i];
      var p := all[i];
      ports := ports + {p.defaultQueryPort};
      ports := ports + {p.defaultPort};
      var before := ports;
      for j := 0 to |p.games|
        invariant ports == before + GamePorts(p.games[..j])
      {
        assert p.games[..j + 1][..j] == p.games[..j];
        ports := ports + {p.games[j].queryPort};
        ports := ports + {p.games[j].gamePort};
      }
      assert p.games[..|p.games|] == p.games;
    }
    assert all[..|all|] == all;
  }

  predicate Increasing(s: seq<int>)
  {
    forall i, j :: 0 <= i < j < |s| ==> s[i] < s[j]
  }

  /** A set of ports other than the empty one holds a port. */
  lemma NonEmpty(s: set<int>)
    requires s != {}
    ensures exists q :: q in s
  {
    assert (forall q :: q !in s) ==> s == {};
  }

  /** A finite set of ports that is not empty has a least element. */
  lemma {:induction false} HasLeast(s: set<int>, y: int)
    requires y in s
    ensures exists m :: m in s && forall x :: x in s ==> m <= x
    decreases |s|
  {
    var rest := s - {y};
    if z :| z in rest {
      HasLeast(rest, z);
      var m :| m in rest && forall x :: x in rest ==> m <= x;
      var least := if y < m then y else m;
      forall x | x in s
        ensures least <= x
      {
        if x != y {
          assert x in rest;
        }
      }
      assert least in s;
    } else {
      forall x | x in s
        ensures y <= x
      {
        assert x !in rest;
      }
    }
  }

  /**
   * The ports of `s` in ascending order. It stands for `sort.Ints` applied
   * to the keys gathered from the map: the list is built by taking the
   * least remaining port each time.
   */
  method SortedPorts(s: set<int>) returns (r: seq<int>)
    ensures Increasing(r)
    ensures forall q :: q in r <==> q in s
  {
    r := [];
    var left := s;
    while left != {}
      invariant left <= s
      invariant Increasing(r)
      invariant forall q :: q in s <==> q in r || q in left
      invariant forall i, x :: 0 <= i < |r| && x in left ==> r[i] < x
      decreases left
    {
      NonEmpty(left);
      var pick :| pick in left;
      HasLeast(left, pick);
      var m :| m in left && forall x :: x in left ==> m <= x;
      r := r + [m];
      left := left - {m};
    }
  }

  /** `getDiscoveryPorts`: every port some protocol or game names, once each, ascending. */
  method DiscoveryPorts(all: seq<Protocol>) returns (ports: seq<int>)
    ensures Increasing(ports)
    ensures forall q :: q in ports <==> q in PortUnion(all)
  {
    var found := CollectPorts(all);
    ports := SortedPorts(found);
  }

  // ---------------------------------------------------------------- options

  /** `DefaultOptions`: a five-second timeout; no port, no players, no range, no limit, no discovery mode. */
  function DefaultOptions(): (o: Options)
    ensures o.timeout == 5000 && o.port == 0 && !o.players && o.portRange == []
    ensures o.maxConcurrency == 0 && !o.discoveryMode && !o.debug
  {
    Options(5000, 0, false, [], 0, false, false)
  }

  /** With the default options an address without a port is queried on the game's own query port. */
  lemma DefaultOptionsUseGamePort(host: string, queryPort: int)
    requires host != [] && ':' !in host && NetAddr.PlainHost(host)
    ensures ParseAddress(host, DefaultOptions().port, queryPort) == Ok((host, queryPort))
    ensures Registry.Timeout(DefaultOptions()) == 5000
  {
    NoPortUsesOption(host, DefaultOptions().port, queryPort);
  }

  /** `createDiscoveryOptions`: a copy that differs only in having discovery mode on. */
  function DiscoveryOptions(o: Options): (d: Options)
    ensures d.discoveryMode
    ensures d.(discoveryMode := o.discoveryMode) == o
  {
    o.(discoveryMode := true)
  }

  /** Discovery options always run on the short discovery timeout. */
  lemma DiscoveryOptionsTimeout(o: Options)
    ensures Registry.Timeout(DiscoveryOptions(o)) == Registry.DiscoveryTimeout
  {
  }

  /**
   * `WithPortRange` applied to `o`: the ports `start` to `end`, in order, as
   * the port range; nothing else changes. Go's `make` panics on a negative
   * capacity, so `end` may be at most one below `start` (an empty range).
   */
  method WithPortRange(o: Options, start: int, end: int) returns (r: Options)
    requires end - start + 1 >= 0
    ensures r.(portRange := o.portRange) == o
    ensures |r.portRange| == end - start + 1
    ensures forall i :: 0 <= i < |r.portRange| ==> r.portRange[i] == start + i
  {
    var ports: seq<int> := [];
    var port := start;
    while port <= end
      invariant start <= port <= end + 1
      invariant |ports| == port - start
      invariant forall i :: 0 <= i < |ports| ==> ports[i] == start + i
      decreases end - port
    {
      ports := ports + [port];
      port := port + 1;
    }
    r := o.(portRange := ports);
  }

  // ---------------------------------------------------------------- probing

  /** What one probe reports: the protocol's answer, and how long the call took in nanoseconds. */
  datatype Reply = Reply(answer: Result<ServerInfo>, elapsedNs: nat)

  /** `proto.Query(ctx, address, options)`, given to the model as a function. */
  type Probe = (Protocol, string, Options) -> Reply

  /** One candidate of a search: a protocol tried on a query port with some options. */
  datatype Attempt = Attempt(proto: Protocol, port: int, opts: Options)

  /** The address a probe is sent to: `net.JoinHostPort(host, strconv.Itoa(port))`. */
  function Address(host: string, port: int): string
  {
    NetAddr.JoinHostPort(host, Text.IntToString(port))
  }

  /** A probe's address parses back to the host and port it was built from. */
  lemma AddressParsesBack(host: string, port: int, optPort: int, defaultPort: int)
    requires NetAddr.PlainHost(host)
    requires Text.INT64_MIN <= port <= Text.INT64_MAX
    ensures ParseAddress(Address(host, port), optPort, defaultPort) == Ok((host, port))
  {
    ExplicitPortWins(host, port, optPort, defaultPort);
  }

  /** `int(math.Ceil(float64(ns) / 1e6))`: whole milliseconds, rounded up. */
  function CeilMillis(ns: nat): (ms: nat)
    ensures ms * 1000000 >= ns
    ensures ms > 0 ==> (ms - 1) * 1000000 < ns
  {
    (ns + 999999) / 1000000
  }

  /**
   * `setServerInfoFields`: the address, requested port and query port are
   * set; the ping is set to the elapsed time only when the protocol left it
   * at 0; nothing else changes.
   */
  function SetServerInfoFields(info: ServerInfo, host: string, requestedPort: int, queryPort: int, elapsedNs: nat): (r: ServerInfo)
    ensures r.address == host && r.port == requestedPort && r.queryPort == queryPort
    ensures info.ping != 0 ==> r.ping == info.ping
    ensures info.ping == 0 ==> r.ping == CeilMillis(elapsedNs)
    ensures r.(address := info.address, port := info.port, queryPort := info.queryPort, ping := info.ping) == info
  {
    info.(address := host, port := requestedPort, queryPort := queryPort,
          ping := if info.ping == 0 then CeilMillis(elapsedNs) else info.ping)
  }

  /** Whether the probe of `a` answers without error and reports the server online. */
  predicate Succeeds(probe: Probe, host: string, a: Attempt)
  {
    var answer := probe(a.proto, Address(host, a.port), a.opts).answer;
    answer.Ok? && answer.value.online
  }

  /** `queryProtocol`: the probe's error as it is; an online answer gets the address fields and the ping. */
  function QueryProtocol(probe: Probe, host: string, requestedPort: int, a: Attempt): (r: Result<ServerInfo>)
    ensures (r.Ok? && r.value.online) <==> Succeeds(probe, host, a)
  {
    var reply := probe(a.proto, Address(host, a.port), a.opts);
    if reply.answer.Err? then reply.answer
    else if reply.answer.value.online then
      Ok(SetServerInfoFields(reply.answer.value, host, requestedPort, a.port, reply.elapsedNs))
    else reply.answer
  }

  /** The answer of the first attempt that succeeds, with its fields set; None when none does. */
  function FirstOnline(probe: Probe, host: string, requestedPort: int, attempts: seq<Attempt>): Option<ServerInfo>
  {
    if attempts == [] then None
    else if Succeeds(probe, host, attempts[0]) then Some(QueryProtocol(probe, host, requestedPort, attempts[0]).value)
    else FirstOnline(probe, host, requestedPort, attempts[1..])
  }

  /**
   * The first online answer wins: there is an answer exactly when some
   * attempt succeeds, and it is the one of the first attempt that does.
   */
  lemma {:induction false} FirstOnlineWins(probe: Probe, host: string, requestedPort: int, attempts: seq<Attempt>)
    ensures FirstOnline(probe, host, requestedPort, attempts).None? <==>
      forall i :: 0 <= i < |attempts| ==> !Succeeds(probe, host, attempts[i])
    ensures FirstOnline(probe, host, requestedPort, attempts).Some? ==>
      exists i :: 0 <= i < |attempts| && Succeeds(probe, host, attempts[i])
        && (forall j :: 0 <= j < i ==> !Succeeds(probe, host, attempts[j]))
        && FirstOnline(probe, host, requestedPort, attempts).value == QueryProtocol(probe, host, requestedPort, attempts[i]).value
  {
    if attempts != [] && !Succeeds(probe, host, attempts[0]) {
      var rest := attempts[1..];
      FirstOnlineWins(probe, host, requestedPort, rest);
      if FirstOnline(probe, host, requestedPort, rest).Some? {
        var i :| 0 <= i < |rest| && Succeeds(probe, host, rest[i])
          && (forall j :: 0 <= j < i ==> !Succeeds(probe, host, rest[j]))
          && FirstOnline(probe, host, requestedPort, rest).value == QueryProtocol(probe, host, requestedPort, rest[i]).value;
        assert attempts[i + 1] == rest[i];
        forall j | 0 <= j < i + 1
          ensures !Succeeds(probe, host, attempts[j])
        {
          if j > 0 {
            assert attempts[j] == rest[j - 1];
          }
        }
      } else {
        forall i | 0 <= i < |attempts|
          ensures !Succeeds(probe, host, attempts[i])
        {
          if i > 0 {
            assert attempts[i] == rest[i - 1];
          }
        }
      }
    } else if attempts != [] {
      assert Succeeds(probe, host, attempts[0]);
    }
  }

  /** Searching `a` and then `b` is searching `a + b`. */
  lemma {:induction false} FirstOnlineAppend(probe: Probe, host: string, requestedPort: int, a: seq<Attempt>, b: seq<Attempt>)
    ensures FirstOnline(probe, host, requestedPort, a + b) ==
      if FirstOnline(probe, host, requestedPort, a).Some? then FirstOnline(probe, host, requestedPort, a)
      else FirstOnline(probe, host, requestedPort, b)
  {
    if a != [] {
      assert (a + b)[0] == a[0];
      assert (a + b)[1..] == a[1..] + b;
      FirstOnlineAppend(probe, host, requestedPort, a[1..], b);
    } else {
      assert a + b == b;
    }
  }

  /** The sequential candidate loop: probe each attempt in turn and stop at the first online answer. */
  method TryInOrder(probe: Probe, host: string, requestedPort: int, attempts: seq<Attempt>) returns (r: Option<ServerInfo>)
    ensures r == FirstOnline(probe, host, requestedPort, attempts)
  {
    var i := 0;
    while i < |attempts|
      invariant i <= |attempts|
      invariant FirstOnline(probe, host, requestedPort, attempts) == FirstOnline(probe, host, requestedPort, attempts[i..])
    {
      var info := QueryProtocol(probe, host, requestedPort, attempts[i]);
      if info.Ok? && info.value.online {
        return Some(info.value);
      }
      assert attempts[i..][1..] == attempts[i + 1..];
      i := i + 1;
    }
    return None;
  }

  // ---------------------------------------------------------------- Query

  /** One protocol on each of `ports`, in order. */
  function OnPorts(proto: Protocol, ports: seq<int>, opts: Options): seq<Attempt>
  {
    seq(|ports|, i requires 0 <= i < |ports| => Attempt(proto, ports[i], opts))
  }

  /** Each of `protos` on one port, in order. */
  function OnPort(protos: seq<Protocol>, port: int, opts: Options): seq<Attempt>
  {
    seq(|protos|, i requires 0 <= i < |protos| => Attempt(protos[i], port, opts))
  }

  /** `Query`'s candidates: the requested port with the caller's options, then each adjacent port in discovery mode. */
  function QueryAttempts(proto: Protocol, port: int, options: Options): seq<Attempt>
  {
    [Attempt(proto, port, options)] + OnPorts(proto, Adjacent(port), DiscoveryOptions(options))
  }

  /** What `Query` returns, given what `GetGameConfigFromRegistry` found for `game`. */
  function QueryOutcome(config: Result<Option<(GameConfig, Protocol)>>, game: string, addr: string,
                        options: Options, probe: Probe): Result<ServerInfo>
  {
    if config.Err? then Err(config.msg)
    else if config.value.None? then Err("unsupported game: " + game)
    else
      var parsed := ParseAddress(addr, options.port, config.value.value.0.queryPort);
      if parsed.Err? then Err("invalid address: " + parsed.msg)
      else
        var found := FirstOnline(probe, parsed.value.0, parsed.value.1,
                                 QueryAttempts(config.value.value.1, parsed.value.1, options));
        if found.Some? then Ok(found.value)
        else Err("no responsive server found at " + addr + " or adjacent ports")
  }

  /**
   * `Query`: look the game up, parse the address with the game's query
   * port as default, try the requested port, then each adjacent port.
   */
  method QueryGame(reg: Registry.Registry, game: string, addr: string, options: Options, probe: Probe)
    returns (r: Result<ServerInfo>)
    ensures r == QueryOutcome(Registry.ConfigFor(reg.Get(game), game), game, addr, options, probe)
  {
    var config := reg.GetGameConfig(game);
    if config.Err? {
      return Err(config.msg);
    }
    if config.value.None? {
      return Err("unsupported game: " + game);
    }
    var gameConfig, proto := config.value.value.0, config.value.value.1;
    var parsed := ParseAddress(addr, options.port, gameConfig.queryPort);
    if parsed.Err? {
      return Err("invalid address: " + parsed.msg);
    }
    var host, requestedPort := parsed.value.0, parsed.value.1;
    var primary := Attempt(proto, requestedPort, options);
    var info := QueryProtocol(probe, host, requestedPort, primary);
    var adjacent := AdjacentPorts(requestedPort);
    var discoveryOptions := DiscoveryOptions(options);
    FirstOnlineAppend(probe, host, requestedPort, [primary], OnPorts(proto, adjacent, discoveryOptions));
    if info.Ok? && info.value.online {
      return Ok(info.value);
    }
    var found := TryInOrder(probe, host, requestedPort, OnPorts(proto, adjacent, discoveryOptions));
    if found.Some? {
      return Ok(found.value);
    }
    return Err("no responsive server found at " + addr + " or adjacent ports");
  }

  /**
   * An unknown game, a dangling alias or an address that does not parse
   * fails the same way whatever the servers would answer: nothing is probed.
   */
  lemma QueryFailsBeforeProbing(config: Result<Option<(GameConfig, Protocol)>>, game: string, addr: string,
                                options: Options, probe1: Probe, probe2: Probe)
    requires config.Err? || config.value.None?
      || ParseAddress(addr, options.port, config.value.value.0.queryPort).Err?
    ensures QueryOutcome(config, game, addr, options, probe1).Err?
    ensures QueryOutcome(config, game, addr, options, probe1) == QueryOutcome(config, game, addr, options, probe2)
  {
  }

  /**
   * Once the game and address are known, `Query` succeeds exactly when one
   * of its candidates answers online, returns the first such answer, and
   * fails with "no responsive server" only after every candidate failed.
   */
  lemma QueryFirstOnline(config: Result<Option<(GameConfig, Protocol)>>, game: string, addr: string,
                         options: Options, probe: Probe)
    requires config.Ok? && config.value.Some?
    requires ParseAddress(addr, options.port, config.value.value.0.queryPort).Ok?
    ensures var parsed := ParseAddress(addr, options.port, config.value.value.0.queryPort).value;
      var attempts := QueryAttempts(config.value.value.1, parsed.1, options);
      var r := QueryOutcome(config, game, addr, options, probe);
      (r.Ok? <==> exists i :: 0 <= i < |attempts| && Succeeds(probe, parsed.0, attempts[i]))
      && (r.Err? ==> r.msg == "no responsive server found at " + addr + " or adjacent ports")
      && (Succeeds(probe, parsed.0, attempts[0]) ==> r == QueryProtocol(probe, parsed.0, parsed.1, attempts[0]))
  {
    var parsed := ParseAddress(addr, options.port, config.value.value.0.queryPort).value;
    var attempts := QueryAttempts(config.value.value.1, parsed.1, options);
    FirstOnlineWins(probe, parsed.0, parsed.1, attempts);
  }

  // ---------------------------------------------------------------- AutoDetect

  /** For each adjacent port in turn, the protocols ordered for that port. */
  function AdjacentAttempts(all: seq<Protocol>, ports: seq<int>, opts: Options): seq<Attempt>
  {
    if ports == [] then []
    else OnPort(Ordered(all, ServesPort(ports[0])), ports[0], opts) + AdjacentAttempts(all, ports[1..], opts)
  }

  /** Every protocol is tried on every one of the ports, with the given options, and nothing else is tried. */
  lemma {:induction false} AdjacentAttemptsCover(all: seq<Protocol>, ports: seq<int>, opts: Options)
    ensures forall a: Attempt :: a in AdjacentAttempts(all, ports, opts) <==> a.proto in all && a.port in ports && a.opts == opts
  {
    if ports != [] {
      AdjacentAttemptsCover(all, ports[1..], opts);
      var ordered := Ordered(all, ServesPort(ports[0]));
      OrderedPermutes(all, ServesPort(ports[0]));
      assert forall p :: p in ordered <==> p in multiset(ordered);
      var here := OnPort(ordered, ports[0], opts);
      forall a | a in AdjacentAttempts(all, ports, opts)
        ensures a.proto in all && a.port in ports && a.opts == opts
      {
        if a in here {
          var k :| 0 <= k < |here| && here[k] == a;
          assert ordered[k] in multiset(all);
        } else {
          assert a in AdjacentAttempts(all, ports[1..], opts);
        }
      }
      forall a: Attempt | a.proto in all && a.port in ports && a.opts == opts
        ensures a in AdjacentAttempts(all, ports, opts)
      {
        if a.port == ports[0] {
          assert a.proto in multiset(all);
          var k :| 0 <= k < |ordered| && ordered[k] == a.proto;
          assert OnPort(ordered, ports[0], opts)[k] == a;
        } else {
          assert a.port in ports[1..];
        }
      }
    }
  }

  /** Each protocol on the given port, or on its own default query port when none was given. */
  function DefaultAttempts(protos: seq<Protocol>, port: int, opts: Options): seq<Attempt>
  {
    seq(|protos|, i requires 0 <= i < |protos| =>
      Attempt(protos[i], if port != 0 then port else protos[i].defaultQueryPort, opts))
  }

  /**
   * `AutoDetect`'s candidates: with a port, every protocol on it (those
   * serving it first), then the adjacent ports in discovery mode; in every
   * case, then the protocols by popularity.
   */
  function AutoDetectAttempts(protocols: map<string, Protocol>, aliases: map<string, string>, all: seq<Protocol>,
                              port: int, options: Options): seq<Attempt>
  {
    var defaults := DefaultAttempts(ByPopularity(Popularity, protocols, aliases, all), port, options);
    if port != 0 then
      OnPort(Ordered(all, ServesPort(port)), port, options)
      + (AdjacentAttempts(all, Adjacent(port), DiscoveryOptions(options)) + defaults)
    else defaults
  }

  /** What `AutoDetect` returns. */
  function AutoDetectOutcome(protocols: map<string, Protocol>, aliases: map<string, string>, all: seq<Protocol>,
                             addr: string, options: Options, probe: Probe): Result<ServerInfo>
  {
    var parsed := ParseAddress(addr, options.port, 0);
    if parsed.Err? then Err("invalid address: " + parsed.msg)
    else
      var found := FirstOnline(probe, parsed.value.0, parsed.value.1,
                               AutoDetectAttempts(protocols, aliases, all, parsed.value.1, options));
      if found.Some? then Ok(found.value)
      else Err("no responsive server found at " + addr)
  }

  /**
   * `AutoDetect`: parse the address with no default port; with a port, try
   * the protocols ordered for it, then each adjacent port with the
   * protocols ordered for that port; finally the protocols by popularity.
   * `all` is the iteration order of the registry's protocols.
   */
  method AutoDetect(reg: Registry.Registry, all: seq<Protocol>, addr: string, options: Options, probe: Probe)
    returns (r: Result<ServerInfo>)
    requires Registry.DistinctNames(all)
    ensures r == AutoDetectOutcome(reg.protocols, reg.aliases, all, addr, options, probe)
  {
    var parsed := ParseAddress(addr, options.port, 0);
    if parsed.Err? {
      return Err("invalid address: " + parsed.msg);
    }
    var host, port := parsed.value.0, parsed.value.1;
    ghost var defaults := DefaultAttempts(ByPopularity(Popularity, reg.protocols, reg.aliases, all), port, options);
    if port != 0 {
      var protocols := ProtocolsForPort(all, port);
      var adjacent := AdjacentPorts(port);
      var discoveryOptions := DiscoveryOptions(options);
      ghost var around := AdjacentAttempts(all, adjacent, discoveryOptions);
      FirstOnlineAppend(probe, host, port, OnPort(protocols, port, options), around + defaults);
      FirstOnlineAppend(probe, host, port, around, defaults);
      var found := TryInOrder(probe, host, port, OnPort(protocols, port, options));
      if found.Some? {
        return Ok(found.value);
      }
      found := TryAdjacent(probe, host, port, all, adjacent, discoveryOptions);
      if found.Some? {
        return Ok(found.value);
      }
    }
    var popular := ProtocolsByPopularity(Popularity, reg, all);
    var last := TryInOrder(probe, host, port, DefaultAttempts(popular, port, options));
    if last.Some? {
      return Ok(last.value);
    }
    return Err("no responsive server found at " + addr);
  }

  /** `AutoDetect`'s loop over the adjacent ports, each with the protocols ordered for it. */
  method TryAdjacent(probe: Probe, host: string, requestedPort: int, all: seq<Protocol>, adjacent: seq<int>, opts: Options)
    returns (r: Option<ServerInfo>)
    requires Registry.DistinctNames(all)
    ensures r == FirstOnline(probe, host, requestedPort, AdjacentAttempts(all, adjacent, opts))
  {
    var i := 0;
    while i < |adjacent|
      invariant i <= |adjacent|
      invariant FirstOnline(probe, host, requestedPort, AdjacentAttempts(all, adjacent, opts))
        == FirstOnline(probe, host, requestedPort, AdjacentAttempts(all, adjacent[i..], opts))
    {
      var ordered := ProtocolsForPort(all, adjacent[i]);
      var here := OnPort(ordered, adjacent[i], opts);
      assert adjacent[i..][1..] == adjacent[i + 1..];
      FirstOnlineAppend(probe, host, requestedPort, here, AdjacentAttempts(all, adjacent[i + 1..], opts));
      var hit := TryInOrder(probe, host, requestedPort, here);
      if hit.Some? {
        return hit;
      }
      i := i + 1;
    }
    return None;
  }

  /**
   * Once the address parses, `AutoDetect` succeeds exactly when one of its
   * candidates answers online, and otherwise reports that no server
   * answered at the address.
   */
  lemma AutoDetectFirstOnline(protocols: map<string, Protocol>, aliases: map<string, string>, all: seq<Protocol>,
                              addr: string, options: Options, probe: Probe)
    requires ParseAddress(addr, options.port, 0).Ok?
    ensures var parsed := ParseAddress(addr, options.port, 0).value;
      var attempts := AutoDetectAttempts(protocols, aliases, all, parsed.1, options);
      var r := AutoDetectOutcome(protocols, aliases, all, addr, options, probe);
      (r.Ok? <==> exists i :: 0 <= i < |attempts| && Succeeds(probe, parsed.0, attempts[i]))
      && (r.Err? ==> r.msg == "no responsive server found at " + addr)
  {
    var parsed := ParseAddress(addr, options.port, 0).value;
    FirstOnlineWins(probe, parsed.0, parsed.1, AutoDetectAttempts(protocols, aliases, all, parsed.1, options));
  }

  /**
   * With a port given, the first candidates are every protocol on exactly
   * that port with the caller's options, those serving the port first.
   */
  lemma AutoDetectStartsOnPort(protocols: map<string, Protocol>, aliases: map<string, string>, all: seq<Protocol>,
                               port: int, options: Options)
    requires port != 0
    ensures var attempts := AutoDetectAttempts(protocols, aliases, all, port, options);
      var first := Ordered(all, ServesPort(port));
      |first| == |all| && |attempts| >= |all|
      && forall i :: 0 <= i < |all| ==> attempts[i] == Attempt(first[i], port, options)
  {
    OrderedPermutes(all, ServesPort(port));
    assert |multiset(Ordered(all, ServesPort(port)))| == |multiset(all)|;
  }

  /** Without a port, every protocol is tried on its own default query port. */
  lemma AutoDetectWithoutPort(protocols: map<string, Protocol>, aliases: map<string, string>, all: seq<Protocol>,
                              options: Options)
    ensures var attempts := AutoDetectAttempts(protocols, aliases, all, 0, options);
      forall i :: 0 <= i < |attempts| ==> attempts[i].port == attempts[i].proto.defaultQueryPort && attempts[i].opts == options
  {
  }

  // ---------------------------------------------------------------- discoverServers

  /**
   * The sequential part of `discoverServers`: parse the address with no
   * default port, choose the ports (the option's range, else the given
   * port, else every known port, ascending) and the concurrency limit
   * (the option, else ports times protocols).
   */
  method DiscoveryPlan(addr: string, options: Options, all: seq<Protocol>) returns (r: Result<(seq<int>, int)>)
    ensures ParseAddress(addr, options.port, 0).Err? ==> r == Err("invalid address: " + ParseAddress(addr, options.port, 0).msg)
    ensures ParseAddress(addr, options.port, 0).Ok? ==> r.Ok?
    ensures r.Ok? && options.portRange != [] ==> r.value.0 == options.portRange
    ensures r.Ok? && options.portRange == [] && ParseAddress(addr, options.port, 0).value.1 != 0 ==>
      r.value.0 == [ParseAddress(addr, options.port, 0).value.1]
    ensures r.Ok? && options.portRange == [] && ParseAddress(addr, options.port, 0).value.1 == 0 ==>
      Increasing(r.value.0) && forall q :: q in r.value.0 <==> q in PortUnion(all)
    ensures r.Ok? ==> r.value.1 == if options.maxConcurrency <= 0 then |r.value.0| * |all| else options.maxConcurrency
  {
    var parsed := ParseAddress(addr, options.port, 0);
    if parsed.Err? {
      return Err("invalid address: " + parsed.msg);
    }
    var specifiedPort := parsed.value.1;
    var portsToScan: seq<int>;
    if |options.portRange| > 0 {
      portsToScan := options.portRange;
    } else if specifiedPort != 0 {
      portsToScan := [specifiedPort];
    } else {
      portsToScan := DiscoveryPorts(all);
    }
    var maxConcurrency := options.maxConcurrency;
    if maxConcurrency <= 0 {
      maxConcurrency := |portsToScan| * |all|;
    }
    return Ok((portsToScan, maxConcurrency));
  }

  /** What the scan of one port finds: the first protocol, in registry order, that answers online there. */
  function PortScan(probe: Probe, host: string, all: seq<Protocol>, port: int, opts: Options): Option<ServerInfo>
  {
    FirstOnline(probe, host, port, OnPort(all, port, opts))
  }

  /** Some protocol answers online on the port. */
  ghost predicate Serves(probe: Probe, host: string, all: seq<Protocol>, port: int, opts: Options)
  {
    exists p :: p in all && Succeeds(probe, host, Attempt(p, port, opts))
  }

  /** The servers found on `ports`, one per port at most, in port order. */
  function Sweep(probe: Probe, host: string, all: seq<Protocol>, ports: seq<int>, opts: Options): seq<ServerInfo>
  {
    if ports == [] then []
    else
      var last := PortScan(probe, host, all, ports[|ports| - 1], opts);
      Sweep(probe, host, all, ports[..|ports| - 1], opts) + (if last.Some? then [last.value] else [])
  }

  /**
   * A port's scan finds a server exactly when some protocol answers online
   * there; the server carries the host, and the port as both its port and
   * its query port.
   */
  lemma PortScanFinds(probe: Probe, host: string, all: seq<Protocol>, port: int, opts: Options)
    ensures PortScan(probe, host, all, port, opts).Some? <==> Serves(probe, host, all, port, opts)
    ensures PortScan(probe, host, all, port, opts).Some? ==>
      var s := PortScan(probe, host, all, port, opts).value;
      s.online && s.address == host && s.port == port && s.queryPort == port
  {
    var attempts := OnPort(all, port, opts);
    FirstOnlineWins(probe, host, port, attempts);
    if Serves(probe, host, all, port, opts) {
      var p :| p in all && Succeeds(probe, host, Attempt(p, port, opts));
      var k :| 0 <= k < |all| && all[k] == p;
      assert attempts[k] == Attempt(p, port, opts);
    }
    if PortScan(probe, host, all, port, opts).Some? {
      var i :| 0 <= i < |attempts| && Succeeds(probe, host, attempts[i])
        && PortScan(probe, host, all, port, opts).value == QueryProtocol(probe, host, port, attempts[i]).value;
      assert attempts[i] == Attempt(all[i], port, opts);
    }
  }

  /**
   * The sweep reports at most one server per port scanned; every server it
   * reports answered online on one of the ports; every port on which some
   * protocol answers online is reported.
   */
  lemma {:induction false} SweepFinds(probe: Probe, host: string, all: seq<Protocol>, ports: seq<int>, opts: Options)
    ensures |Sweep(probe, host, all, ports, opts)| <= |ports|
    ensures forall s :: s in Sweep(probe, host, all, ports, opts) ==>
      s.online && s.address == host && s.port == s.queryPort && s.queryPort in ports
      && Serves(probe, host, all, s.queryPort, opts)
    ensures forall q :: q in ports && Serves(probe, host, all, q, opts) ==>
      exists s :: s in Sweep(probe, host, all, ports, opts) && s.queryPort == q
  {
    if ports != [] {
      var init, q := ports[..|ports| - 1], ports[|ports| - 1];
      SweepFinds(probe, host, all, init, opts);
      PortScanFinds(probe, host, all, q, opts);
      assert ports == init + [q];
      var found := PortScan(probe, host, all, q, opts);
      if found.Some? {
        assert found.value in Sweep(probe, host, all, ports, opts);
      }
    }
  }

  /** The scan loop of `discoverServers`, one port after the other; each port stops at its first online protocol. */
  method ScanPorts(probe: Probe, host: string, all: seq<Protocol>, ports: seq<int>, opts: Options)
    returns (servers: seq<ServerInfo>)
    ensures servers == Sweep(probe, host, all, ports, opts)
  {
    servers := [];
    for i := 0 to |ports|
      invariant servers == Sweep(probe, host, all, ports[..i], opts)
    {
      assert ports[..i + 1][..i] == ports[..i];
      var found := TryInOrder(probe, host, ports[i], OnPort(all, ports[i], opts));
      if found.Some? {
        servers := servers + [found.value];
      }
    }
    assert ports[..|ports|] == ports;
  }

  /** The ports `discoverServers` scans: the option's range, else the given port, else every known port, ascending. */
  ghost predicate ChosenPorts(ports: seq<int>, specifiedPort: int, options: Options, all: seq<Protocol>)
  {
    if options.portRange != [] then ports == options.portRange
    else if specifiedPort != 0 then ports == [specifiedPort]
    else Increasing(ports) && forall q :: q in ports <==> q in PortUnion(all)
  }

  /**
   * `discoverServers`: an address that does not parse is an error;
   * otherwise the servers found on the chosen ports, one per port at most.
   */
  method DiscoverServers(all: seq<Protocol>, addr: string, options: Options, probe: Probe)
    returns (r: Result<seq<ServerInfo>>)
    ensures ParseAddress(addr, options.port, 0).Err? ==> r == Err("invalid address: " + ParseAddress(addr, options.port, 0).msg)
    ensures ParseAddress(addr, options.port, 0).Ok? ==>
      var parsed := ParseAddress(addr, options.port, 0).value;
      r.Ok? && (exists ports :: ChosenPorts(ports, parsed.1, options, all)
                               && r.value == Sweep(probe, parsed.0, all, ports, options))
  {
    var plan := DiscoveryPlan(addr, options, all);
    if plan.Err? {
      return Err(plan.msg);
    }
    var host := ParseAddress(addr, options.port, 0).value.0;
    var ports := plan.value.0;
    var servers := ScanPorts(probe, host, all, ports, options);
    assert ChosenPorts(ports, ParseAddress(addr, options.port, 0).value.1, options, all);
    return Ok(servers);
  }
}
