/**
 * The records shared by every protocol and by the query engine
 * (`ServerInfo`, `PlayerInfo`, `Player`, `Options`, `GameConfig`), and the
 * data part of the `Protocol` interface.
 */
module Types {
  import opened Wrappers

  /** One player; `duration` is in whole seconds (Go keeps a `time.Duration`). */
  datatype Player = Player(name: string, score: int, duration: int)

  /** Players known only by name, in order: score and duration stay zero. */
  function NamedPlayers(names: seq<string>): seq<Player>
  {
    seq(|names|, i requires 0 <= i < |names| => Player(names[i], 0, 0))
  }

  /** `list` is None for Go's nil slice and Some([]) for an empty non-nil one. */
  datatype PlayerInfo = PlayerInfo(current: int, max: int, list: Option<seq<Player>>)

  /** `extra` stands for Go's map; a nil map reads like the empty one. */
  datatype ServerInfo = ServerInfo(
    name: string,
    game: string,
    version: string,
    address: string,
    port: int,
    queryPort: int,
    players: PlayerInfo,
    mapName: string,
    ping: int,
    online: bool,
    extra: map<string, string>)

  /** `&ServerInfo{Online: false}`, the value every failing query returns beside its error. */
  const Offline: ServerInfo :=
    ServerInfo("", "", "", "", 0, 0, PlayerInfo(0, 0, None), "", 0, false, map[])

  /** A result with only the fields the protocol parsers fill in. */
  function Online(name: string, game: string, version: string, current: int, max: int,
                  list: Option<seq<Player>>): ServerInfo
  {
    ServerInfo(name, game, version, "", 0, 0, PlayerInfo(current, max, list), "", 0, true, map[])
  }

  /** Timeouts are kept in milliseconds. */
  datatype Options = Options(
    timeout: nat,
    port: int,
    players: bool,
    portRange: seq<int>,
    maxConcurrency: int,
    discoveryMode: bool,
    debug: bool)

  datatype GameConfig = GameConfig(name: string, gamePort: int, queryPort: int)

  /**
   * What the registry and the engine read of a protocol: `Name()`,
   * `DefaultPort()`, `DefaultQueryPort()` and `Games()`. Querying is given to
   * the engine separately, as a probe.
   */
  datatype Protocol = Protocol(name: string, defaultPort: int, defaultQueryPort: int,
                               games: seq<GameConfig>)
}
