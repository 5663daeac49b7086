/**
 * `protocol/valheim.go`: Valheim answers the A2S queries on the port after
 * its game port. The exchange and the parsers are the shared `A2SWire`
 * ones; a player's duration field is taken as whole seconds; the result
 * carries no Game and no Extra.
 */
module Valheim {
  import opened Wrappers
  import opened Bytes
  import opened Types
  import Text
  import NetAddr
  import opened A2SWire

  const Name: string := "valheim"
  const DefaultPort: int := 2456

  /** This file's `parsePlayersResponse` reads the duration's 32 bits as a count of seconds. */
  function Seconds(bits: nat): (s: int)
    ensures s == bits
  {
    bits
  }

  /** Go's `port + 1` on a 64-bit `int`, which wraps at the top. */
  function NextPort(port: int): (p: int)
    requires Text.INT64_MIN <= port <= Text.INT64_MAX
    ensures Text.INT64_MIN <= p <= Text.INT64_MAX
    ensures port < Text.INT64_MAX ==> p == port + 1
  {
    if port == Text.INT64_MAX then Text.INT64_MIN else port + 1
  }

  /** The address `Query` sends to: the same host, the port after the given one. */
  function QueryAddress(addr: string): (r: Result<string>)
  {
    match NetAddr.SplitHostPort(addr)
    case Err(m) => Err("invalid address: " + m)
    case Ok(hp) =>
      match Text.Atoi(hp.1)
      case None => Err("invalid port: " + Text.AtoiError(hp.1))
      case Some(port) => Ok(NetAddr.JoinHostPort(hp.0, Text.IntToString(NextPort(port))))
  }

  /** A host without a port is refused with Go's wording of the address error. */
  lemma QueryAddressWithoutPort(host: string)
    requires host != [] && ':' !in host
    ensures QueryAddress(host) == Err("invalid address: " + "address " + host + ": " + "missing port in address")
  {
    NetAddr.MissingPort(host);
  }

  /** A port that is not a number (a service name, say) is refused with `strconv.Atoi`'s error. */
  lemma QueryAddressNonNumericPort(host: string, port: string)
    requires NetAddr.PlainHost(host) && NetAddr.PlainPort(port)
    requires port == [] || (!Text.IsDigit(port[0]) && port[0] != '-' && port[0] != '+')
    ensures QueryAddress(NetAddr.JoinHostPort(host, port))
         == Err("invalid port: " + Text.AtoiError(port))
    ensures Text.AtoiError(port) == "strconv.Atoi: parsing " + Text.Quote(port) + ": " + "invalid syntax"
  {
    NetAddr.SplitJoin(host, port);
    Text.AtoiErrorOfNonNumber(port);
    QueryAddressOfBadPort(NetAddr.JoinHostPort(host, port), host, port);
  }

  lemma QueryAddressOfBadPort(addr: string, host: string, port: string)
    requires NetAddr.SplitHostPort(addr) == Ok((host, port)) && Text.Atoi(port) == None
    ensures QueryAddress(addr) == Err("invalid port: " + Text.AtoiError(port))
  {
  }

  /** The result of a successful query: the record's fields and the player list, no Game, no Extra. */
  function QueryResult(i: Info, ping: int, list: Option<seq<Player>>): (r: ServerInfo)
    ensures r.game == "" && r.extra == map[] && r.online
  {
    var r := InfoFields(i, ping);
    r.(players := r.players.(list := list))
  }

  /**
   * `Query` on a network that maps each address to the server there: the
   * address is rewritten first, then the A2S exchange runs against the
   * server at the rewritten address.
   */
  function Query(network: string -> Server, addr: string, ping: int, opts: Options): (r: Result<ServerInfo>)
    ensures QueryAddress(addr).Err? ==> r == Err(QueryAddress(addr).msg)
  {
    match QueryAddress(addr)
    case Err(m) => Err(m)
    case Ok(target) =>
      var server := network(target);
      match QueryInfo(server)
      case Err(m) => Err(m)
      case Ok(i) => Ok(QueryResult(i, ping, PlayerList(server, Seconds, opts.players)))
  }

  /**
   * The query goes to host:(port+1): for a joined address the host is kept
   * and the port advanced by one, and the rewritten address splits back
   * into that host and port.
   */
  lemma QueryAddressNextPort(host: string, port: int)
    requires NetAddr.PlainHost(host)
    requires Text.INT64_MIN <= port < Text.INT64_MAX
    ensures QueryAddress(NetAddr.JoinHostPort(host, Text.IntToString(port)))
         == Ok(NetAddr.JoinHostPort(host, Text.IntToString(port + 1)))
    ensures NetAddr.SplitHostPort(NetAddr.JoinHostPort(host, Text.IntToString(port + 1)))
         == Ok((host, Text.IntToString(port + 1)))
  {
    NetAddr.IntToStringPlain(port);
    NetAddr.IntToStringPlain(port + 1);
    NetAddr.SplitJoin(host, Text.IntToString(port));
    NetAddr.SplitJoin(host, Text.IntToString(port + 1));
    Text.AtoiOfIntToString(port);
  }

  /** What a successful query reports: the record's fields, Online, no Game or Extra, the list only when asked. */
  lemma QueryReports(network: string -> Server, addr: string, ping: int, opts: Options)
    requires QueryAddress(addr).Ok? && QueryInfo(network(QueryAddress(addr).value)).Ok?
    ensures var i := QueryInfo(network(QueryAddress(addr).value)).value;
      var r := Query(network, addr, ping, opts);
      r.Ok? && r.value.online && r.value.name == Latin1(i.name) && r.value.mapName == Latin1(i.mapName)
      && r.value.version == Latin1(i.version)
      && r.value.players.current == i.players && r.value.players.max == i.maxPlayers
      && r.value.game == "" && r.value.extra == map[]
      && (r.value.players.list.None? <==> !opts.players)
  {
  }

  /** The test server's players come back with their durations in seconds, equal to the raw bits. */
  lemma DecodeEncodePlayersSeconds(ps: seq<WirePlayer>, rest: seq<byte>)
    requires |ps| < 0x100 && AllEncodable(ps)
    ensures DecodePlayers(EncodePlayers(ps, rest), Seconds).Ok?
    ensures var got := DecodePlayers(EncodePlayers(ps, rest), Seconds).value;
      |got| == |ps| && forall k :: 0 <= k < |ps| ==> got[k].duration == ps[k].durationBits
  {
    DecodeEncodePlayers(ps, rest, Seconds);
  }
}
